/** The chunking stage of the leader-context index: how a document's title is
    found, how one document becomes one search record per chunk, how files of
    a directory are filtered and given a category, and the per-category tally
    printed at the end. Tokenising, splitting, hashing and the embeddings
    service are parameters (`Services`). */
module ChunkIndex {
  import opened Wrappers
  import opened PyText
  import PathNames

  // ---------------------------------------------------------------------
  // The title: `_extract_title`
  // ---------------------------------------------------------------------

  /** The backtracking of the greedy `\s+`: the run after `#` is given back one
      character at a time until what follows it can start the group, that is,
      until it is a character that is not a line break. */
  function GroupStart(content: string, width: nat): (r: Option<nat>)
    requires 1 + width <= |content|
    ensures r.Some? ==> 2 <= r.value <= 1 + width && r.value < |content| && content[r.value] != '\n'
    ensures forall g :: (if r.Some? then r.value else 1) < g <= 1 + width && g < |content| ==> content[g] == '\n'
    decreases width
  {
    if width == 0 then None
    else if 1 + width < |content| && content[1 + width] != '\n' then Some(1 + width)
    else GroupStart(content, width - 1)
  }

  /** Where the group of `re.match(r'^#\s+(.+?)$', content, re.MULTILINE)` starts, if it matches. */
  function HeadingStart(content: string): Option<nat> {
    if content != [] && content[0] == '#' then GroupStart(content, LeadingSpace(content[1..])) else None
  }

  /** The pattern can match with its group starting at `g`: `#` first, only
      whitespace up to `g`, at least one of it, and a character that `.` accepts at `g`. */
  ghost predicate CanCaptureAt(content: string, g: int) {
    2 <= g < |content| && content[0] == '#' && content[g] != '\n'
    && forall i :: 1 <= i < g ==> IsSpace(content[i])
  }

  /** The regular expression matches exactly when some start is possible, and
      then the group starts as late as possible (the `\s+` is greedy). */
  lemma HeadingStartSpec(content: string)
    ensures HeadingStart(content).Some? ==> CanCaptureAt(content, HeadingStart(content).value)
    ensures HeadingStart(content).Some? ==> forall g :: CanCaptureAt(content, g) ==> g <= HeadingStart(content).value
    ensures HeadingStart(content).None? ==> forall g :: !CanCaptureAt(content, g)
  {
    if content != [] && content[0] == '#' {
      var rest := content[1..];
      var w := LeadingSpace(rest);
      var r := GroupStart(content, w);
      assert w < |rest| ==> rest[w] == content[1 + w];
      if r.Some? {
        forall i | 1 <= i < r.value
          ensures IsSpace(content[i])
        {
          assert content[i] == rest[i - 1];
        }
      }
    }
  }

  /** The text from `g` to the end of its line: what the lazy `(.+?)` followed
      by a multi-line `$` captures. */
  function LineFrom(s: string, g: nat): (r: string)
    requires g <= |s|
    ensures g + |r| <= |s| && r == s[g..g + |r|] && '\n' !in r
    ensures g + |r| == |s| || s[g + |r|] == '\n'
  {
    match IndexOf(s[g..], '\n')
    case Some(k) =>
      assert s[g..][..k] == s[g..g + k];
      s[g..g + k]
    case None => s[g..]
  }

  /** The first piece of `s.split('\n')` is the text up to the first line break. */
  lemma FirstPieceIsFirstLine(s: string)
    ensures Split(s, '\n')[0] == LineFrom(s, 0)
  {
    assert s[0..] == s;
  }

  /** Stripping a line leaves one line with no whitespace at either end. */
  lemma StrippedLine(line: string)
    requires '\n' !in line
    ensures var t := Strip(line); '\n' !in t && (t == [] || (!IsSpace(t[0]) && !IsSpace(t[|t| - 1])))
  {
    StripFacts(line);
    var t := Strip(line);
    assert forall i :: 0 <= i < |t| ==> t[i] == line[LeadingSpace(line) + i];
  }

  /** The title a heading gives, if the content starts with one. */
  function HeadingTitle(content: string): Option<string> {
    match HeadingStart(content)
    case Some(g) => Some(Strip(LineFrom(content, g)))
    case None => None
  }

  /** The stripped first line of the stripped content, when it is non-empty and
      shorter than 200 characters. */
  function FirstLineTitle(content: string): Option<string> {
    var first := Strip(Split(Strip(content), '\n')[0]);
    if first != [] && |first| < 200 then Some(first) else None
  }

  /** `_extract_title`: the heading, else the first line, else the file name;
      `titleCase` is `str.title`. */
  function ExtractTitle(content: string, filename: string, titleCase: string -> string): string {
    match HeadingTitle(content)
    case Some(t) => t
    case None =>
      match FirstLineTitle(content)
      case Some(t) => t
      case None => titleCase(PathNames.StemWords(filename))
  }

  /** A possible heading decides the title: the rest of the line at the latest
      possible start, stripped; it is one line with no surrounding whitespace. */
  lemma TitleFromHeading(content: string, filename: string, titleCase: string -> string, g: nat)
    requires CanCaptureAt(content, g)
    requires forall h :: CanCaptureAt(content, h) ==> h <= g
    ensures ExtractTitle(content, filename, titleCase) == Strip(LineFrom(content, g))
    ensures var t := ExtractTitle(content, filename, titleCase);
      '\n' !in t && (t == [] || (!IsSpace(t[0]) && !IsSpace(t[|t| - 1])))
  {
    HeadingStartSpec(content);
    assert HeadingStart(content) == Some(g);
    StrippedLine(LineFrom(content, g));
  }

  /** Without a heading, a first line that is non-empty and shorter than 200
      characters is the title: the content's first non-blank line, stripped. */
  lemma TitleFromFirstLine(content: string, filename: string, titleCase: string -> string)
    requires forall g :: !CanCaptureAt(content, g)
    requires var first := Strip(LineFrom(Strip(content), 0)); first != [] && |first| < 200
    ensures ExtractTitle(content, filename, titleCase) == Strip(LineFrom(Strip(content), 0))
    ensures var t := ExtractTitle(content, filename, titleCase);
      0 < |t| < 200 && '\n' !in t && !IsSpace(t[0]) && !IsSpace(t[|t| - 1])
  {
    HeadingStartSpec(content);
    FirstPieceIsFirstLine(Strip(content));
    StrippedLine(LineFrom(Strip(content), 0));
  }

  /** Otherwise the title comes from the file name: its stem, with `-` and `_`
      replaced by spaces, title-cased. */
  lemma TitleFromFilename(content: string, filename: string, titleCase: string -> string)
    requires forall g :: !CanCaptureAt(content, g)
    requires var first := Strip(LineFrom(Strip(content), 0)); first == [] || |first| >= 200
    ensures ExtractTitle(content, filename, titleCase) == titleCase(PathNames.StemWords(filename))
    ensures '-' !in PathNames.StemWords(filename) && '_' !in PathNames.StemWords(filename)
  {
    HeadingStartSpec(content);
    FirstPieceIsFirstLine(Strip(content));
  }

  /** A heading line holding only whitespace after the `#` still matches, and
      the title is then empty. */
  lemma BlankHeadingTitle(filename: string, titleCase: string -> string)
    ensures ExtractTitle("# \t", filename, titleCase) == ""
  {
    var c := "# \t";
    var s1 := c[1..];
    assert s1[1..] == "\t";
    assert s1[1..][1..] == "";
    assert LeadingSpace(s1[1..]) == 1;
    assert LeadingSpace(s1) == 2;
    assert GroupStart(c, 2) == GroupStart(c, 1) == Some(2);
    assert HeadingStart(c) == Some(2);
    assert c[2..] == "\t";
    assert LineFrom(c, 2) == "\t";
    StripEmpty("\t");
  }

  // ---------------------------------------------------------------------
  // Records: `_generate_id` and `process_file`
  // ---------------------------------------------------------------------

  /** The outside services a record is built with. */
  datatype Services = Services(
    /** `text_splitter.split_text`. */
    split: string -> seq<string>,
    /** `_token_length`: the tokeniser's count. */
    tokens: string -> nat,
    /** `hashlib.md5(s.encode()).hexdigest()[:16]`. */
    digest: string -> string,
    /** The embeddings service's vector for a chunk, `None` when the call fails. */
    embed: string -> Option<seq<real>>,
    /** `str.title`. */
    titleCase: string -> string,
    /** `datetime.utcnow().isoformat() + "Z"`. */
    timestamp: string)

  /** One search record; the four metadata entries are written out as fields. */
  datatype ChunkRecord = ChunkRecord(
    id: string,
    title: string,
    content: string,
    category: string,
    source: string,
    lastUpdated: string,
    chunkIndex: nat,
    totalChunks: nat,
    originalFile: string,
    tokenCount: nat,
    contentVector: Option<seq<real>>)

  /** `_generate_id`: the digest of `"<title>-<index>"`. */
  function GenerateId(digest: string -> string, title: string, index: nat): string {
    digest(title + "-" + NatToString(index))
  }

  /** The title of chunk `i` of `n`: the plain title for a single chunk, else
      the title numbered `(del i+1/n)`. */
  function ChunkTitle(title: string, i: nat, n: nat): string {
    if n == 1 then title else title + " (del " + NatToString(i + 1) + "/" + NatToString(n) + ")"
  }

  /** `str(n)` tells numbers apart. */
  lemma {:induction false} NatToStringInjective(a: nat, b: nat)
    requires NatToString(a) == NatToString(b)
    ensures a == b
    decreases a
  {
    NatToStringLength(a);
    NatToStringLength(b);
    if a >= 10 {
      var sa := NatToString(a);
      assert sa[..|sa| - 1] == NatToString(a / 10);
      assert NatToString(b)[..|sa| - 1] == NatToString(b / 10);
      NatToStringInjective(a / 10, b / 10);
      assert sa[|sa| - 1] == Digit(a % 10) && NatToString(b)[|sa| - 1] == Digit(b % 10);
    }
  }

  /** One digit below ten, more from ten on. */
  lemma NatToStringLength(n: nat)
    ensures n < 10 <==> |NatToString(n)| == 1
  {
    if n >= 10 {
      assert |NatToString(n / 10)| >= 1;
    }
  }

  /** Where the text and the slash sit in `p + "/" + q`. */
  lemma SlashAfter(p: string, q: string)
    ensures forall i :: 0 <= i < |p| ==> (p + "/" + q)[i] == p[i]
    ensures (p + "/" + q)[|p|] == '/'
    ensures (p + "/" + q)[..|p|] == p
  {
  }

  /** Two digit strings that start two equal texts, each followed by `/`, are equal. */
  lemma DigitsBeforeSlash(a: string, b: string, x: string, y: string)
    requires forall i :: 0 <= i < |a| ==> '0' <= a[i] <= '9'
    requires forall i :: 0 <= i < |b| ==> '0' <= b[i] <= '9'
    requires a + "/" + x == b + "/" + y
    ensures a == b
  {
    SlashAfter(a, x);
    SlashAfter(b, y);
    assert |a| == |b|;
  }

  /** The chunks of a document split in more than one get distinct titles. */
  lemma ChunkTitlesDistinct(title: string, i: nat, j: nat, n: nat)
    requires n > 1 && i < n && j < n && i != j
    ensures ChunkTitle(title, i, n) != ChunkTitle(title, j, n)
  {
    var a := NatToString(i + 1);
    var b := NatToString(j + 1);
    var rest := NatToString(n) + ")";
    if ChunkTitle(title, i, n) == ChunkTitle(title, j, n) {
      ChunkTitleSplit(title, i, n);
      ChunkTitleSplit(title, j, n);
      DropPrefix(title + " (del ", a + "/" + rest, b + "/" + rest);
      DigitsBeforeSlash(a, b, rest, rest);
      NatToStringInjective(i + 1, j + 1);
    }
  }

  /** A split chunk's title is the heading, then the part number, `/` and the count. */
  lemma ChunkTitleSplit(title: string, i: nat, n: nat)
    requires n != 1
    ensures ChunkTitle(title, i, n) == (title + " (del ") + (NatToString(i + 1) + "/" + (NatToString(n) + ")"))
  {
  }

  /** Equal texts with the same beginning agree after it. */
  lemma DropPrefix<T>(p: seq<T>, x: seq<T>, y: seq<T>)
    requires p + x == p + y
    ensures x == y
  {
    assert (p + x)[|p|..] == x;
    assert (p + y)[|p|..] == y;
  }

  /** An embedding is kept only when it is truthy: present and non-empty.
      Without a client there is no embedding at all. */
  function ContentVector(enabled: bool, embed: string -> Option<seq<real>>, chunk: string): (r: Option<seq<real>>)
    ensures r.Some? ==> enabled && r.value != [] && embed(chunk) == r
    ensures r.None? ==> !enabled || embed(chunk).None? || embed(chunk) == Some([])
  {
    if !enabled then None
    else match embed(chunk)
      case Some(v) => if v != [] then Some(v) else None
      case None => None
  }

  /** The record for chunk `i` of a document. */
  function RecordAt(title: string, chunks: seq<string>, i: nat, category: string, source: string,
                    originalFile: string, enabled: bool, svc: Services): ChunkRecord
    requires i < |chunks|
  {
    ChunkRecord(
      GenerateId(svc.digest, title, i),
      ChunkTitle(title, i, |chunks|),
      chunks[i],
      category,
      source,
      svc.timestamp,
      i,
      |chunks|,
      originalFile,
      svc.tokens(chunks[i]),
      ContentVector(enabled, svc.embed, chunks[i]))
  }

  /** `content` is truthy: read and not empty. */
  predicate HasContent(content: Option<string>) {
    content.Some? && content.value != []
  }

  /** What `process_file` returns for a file whose text reads as `content`
      (`None` when the format is not read). */
  function FileRecords(content: Option<string>, originalFile: string, category: string, source: string,
                       enabled: bool, svc: Services): seq<ChunkRecord>
  {
    if !HasContent(content) then []
    else
      var title := ExtractTitle(content.value, originalFile, svc.titleCase);
      var chunks := svc.split(content.value);
      seq(|chunks|, i requires 0 <= i < |chunks| =>
        RecordAt(title, chunks, i, category, source, originalFile, enabled, svc))
  }

  /** No content gives no records; otherwise one record per chunk, in chunk
      order, numbered, titled and identified by the document's title and the
      chunk's index, with a vector only when the embedding is truthy. */
  lemma FileRecordsFacts(content: Option<string>, originalFile: string, category: string, source: string,
                         enabled: bool, svc: Services)
    ensures !HasContent(content) ==> FileRecords(content, originalFile, category, source, enabled, svc) == []
    ensures HasContent(content) ==>
      var docs := FileRecords(content, originalFile, category, source, enabled, svc);
      var chunks := svc.split(content.value);
      var title := ExtractTitle(content.value, originalFile, svc.titleCase);
      && |docs| == |chunks|
      && forall i :: 0 <= i < |docs| ==>
        && docs[i].content == chunks[i]
        && docs[i].chunkIndex == i && docs[i].totalChunks == |chunks|
        && docs[i].title == (if |chunks| == 1 then title else title + " (del " + NatToString(i + 1) + "/" + NatToString(|chunks|) + ")")
        && docs[i].id == svc.digest(title + "-" + NatToString(i))
        && docs[i].category == category && docs[i].source == source && docs[i].originalFile == originalFile
        && docs[i].tokenCount == svc.tokens(chunks[i])
        && (docs[i].contentVector.Some? <==> enabled && svc.embed(chunks[i]).Some? && svc.embed(chunks[i]).value != [])
  {
    if HasContent(content) {
      var docs := FileRecords(content, originalFile, category, source, enabled, svc);
      var chunks := svc.split(content.value);
      var title := ExtractTitle(content.value, originalFile, svc.titleCase);
      forall i | 0 <= i < |docs|
        ensures RecordShape(docs[i], title, chunks, i, category, source, originalFile, enabled, svc)
      {
        assert docs[i] == RecordAt(title, chunks, i, category, source, originalFile, enabled, svc);
        RecordAtShape(title, chunks, i, category, source, originalFile, enabled, svc);
      }
    }
  }

  /** The fields of the record for chunk `i`, one by one. */
  predicate RecordShape(r: ChunkRecord, title: string, chunks: seq<string>, i: nat, category: string, source: string,
                        originalFile: string, enabled: bool, svc: Services)
    requires i < |chunks|
  {
    && r.content == chunks[i]
    && r.chunkIndex == i && r.totalChunks == |chunks|
    && r.title == (if |chunks| == 1 then title else title + " (del " + NatToString(i + 1) + "/" + NatToString(|chunks|) + ")")
    && r.id == svc.digest(title + "-" + NatToString(i))
    && r.category == category && r.source == source && r.originalFile == originalFile
    && r.tokenCount == svc.tokens(chunks[i])
    && (r.contentVector.Some? <==> enabled && svc.embed(chunks[i]).Some? && svc.embed(chunks[i]).value != [])
  }

  /** The record for chunk `i` has the fields `process_file` gives it. */
  lemma RecordAtShape(title: string, chunks: seq<string>, i: nat, category: string, source: string,
                      originalFile: string, enabled: bool, svc: Services)
    requires i < |chunks|
    ensures RecordShape(RecordAt(title, chunks, i, category, source, originalFile, enabled, svc),
                        title, chunks, i, category, source, originalFile, enabled, svc)
  {
  }

  /** Two documents with the same title get the same ids, chunk by chunk: the id
      depends on the title and the index only. */
  lemma IdsFollowTitle(c1: Option<string>, f1: string, c2: Option<string>, f2: string,
                       category: string, source: string, enabled: bool, svc: Services, i: nat)
    requires HasContent(c1) && HasContent(c2)
    requires ExtractTitle(c1.value, f1, svc.titleCase) == ExtractTitle(c2.value, f2, svc.titleCase)
    requires i < |FileRecords(c1, f1, category, source, enabled, svc)|
    requires i < |FileRecords(c2, f2, category, source, enabled, svc)|
    ensures FileRecords(c1, f1, category, source, enabled, svc)[i].id == FileRecords(c2, f2, category, source, enabled, svc)[i].id
  {
  }

  /** `filepath.suffix.lower() in extensions`, with the optional formats present
      when their readers are installed. */
  function Extensions(hasDocx: bool, hasPdf: bool): seq<string> {
    [".txt", ".md", ".json"] + (if hasDocx then [".docx"] else []) + (if hasPdf then [".pdf"] else [])
  }

  predicate Supported(name: string, hasDocx: bool, hasPdf: bool) {
    Lower(PathNames.Suffix(name)) in Extensions(hasDocx, hasPdf)
  }

  /** Lower-casing keeps the dots where they are. */
  lemma {:induction false} LastDotLower(name: string)
    ensures PathNames.LastIndexOf(Lower(name), '.') == PathNames.LastIndexOf(name, '.')
    decreases |name|
  {
    if name != [] {
      var init := name[..|name| - 1];
      assert Lower(name)[..|name| - 1] == Lower(init);
      LastDotLower(init);
    }
  }

  /** The suffix of the lower-cased name is the lower-cased suffix. */
  lemma SuffixLower(name: string)
    ensures PathNames.Suffix(Lower(name)) == Lower(PathNames.Suffix(name))
  {
    LastDotLower(name);
    match PathNames.SuffixStart(name)
    case Some(i) =>
      assert Lower(name)[i..] == Lower(name[i..]);
    case None =>
  }

  /** The extension filter ignores case: names that lower-case alike are both
      taken or both passed over. */
  lemma SupportedIgnoresCase(a: string, b: string, hasDocx: bool, hasPdf: bool)
    requires Lower(a) == Lower(b)
    ensures Supported(a, hasDocx, hasPdf) <==> Supported(b, hasDocx, hasPdf)
    ensures Supported(a, hasDocx, hasPdf) <==> PathNames.Suffix(Lower(a)) in Extensions(hasDocx, hasPdf)
  {
    SuffixLower(a);
    SuffixLower(b);
  }

  // ---------------------------------------------------------------------
  // Categories and the directory walk: `process_directory`
  // ---------------------------------------------------------------------

  /** One file met by the directory walk, with what `_read_file` gives for it. */
  datatype DirEntry = DirEntry(
    /** `str(filepath)`. */
    path: string,
    /** `str(filepath.absolute())`. */
    absolutePath: string,
    name: string,
    /** `filepath.parent.name`. */
    parentName: string,
    /** `filepath.parent == input_dir`. */
    inInputDir: bool,
    content: Option<string>)

  /** The category mapping: a dictionary, as its (pattern, category) pairs in
      insertion order, or `None`. */
  type Mapping = Option<seq<(string, string)>>

  /** `if category_mapping:` — given and not empty. */
  predicate MappingGiven(mapping: Mapping) {
    mapping.Some? && mapping.value != []
  }

  /** The index of the first pattern that occurs, ignoring case, in `path`. */
  function FirstMatch(path: string, pairs: seq<(string, string)>): (r: Option<nat>)
    ensures r.Some? ==> r.value < |pairs| && Contains(Lower(path), Lower(pairs[r.value].0))
    ensures forall k :: 0 <= k < |pairs| && (r.None? || k < r.value) ==> !Contains(Lower(path), Lower(pairs[k].0))
  {
    if pairs == [] then None
    else if Contains(Lower(path), Lower(pairs[0].0)) then Some(0)
    else match FirstMatch(path, pairs[1..])
      case Some(k) => Some(k + 1)
      case None => None
  }

  /** The category `process_directory` gives a file. */
  function Category(entry: DirEntry, mapping: Mapping): string {
    if MappingGiven(mapping) then
      match FirstMatch(entry.path, mapping.value)
      case Some(k) => mapping.value[k].1
      case None => "generelt"
    else if !entry.inInputDir then entry.parentName
    else "generelt"
  }

  /** With a mapping, the first pattern in mapping order that occurs in the path
      (ignoring case) names the category, and "generelt" when none does; only
      without one does the name of a sub-folder become the category. */
  lemma CategoryRule(entry: DirEntry, mapping: Mapping)
    ensures MappingGiven(mapping) ==>
      var pairs := mapping.value;
      var p := Lower(entry.path);
      || (exists k :: 0 <= k < |pairs| && Contains(p, Lower(pairs[k].0)) && Category(entry, mapping) == pairs[k].1
                      && forall j :: 0 <= j < k ==> !Contains(p, Lower(pairs[j].0)))
      || ((forall k :: 0 <= k < |pairs| ==> !Contains(p, Lower(pairs[k].0))) && Category(entry, mapping) == "generelt")
    ensures !MappingGiven(mapping) ==>
      Category(entry, mapping) == if entry.inInputDir then "generelt" else entry.parentName
  {
    if MappingGiven(mapping) {
      var r := FirstMatch(entry.path, mapping.value);
      if r.Some? {
        var k := r.value;
        assert forall j :: 0 <= j < k ==> !Contains(Lower(entry.path), Lower(mapping.value[j].0));
      }
    }
  }

  /** What one file met by the walk contributes: its records when the filter
      accepts it, nothing otherwise. */
  function EntryRecords(e: DirEntry, mapping: Mapping, hasDocx: bool, hasPdf: bool,
                        enabled: bool, svc: Services): seq<ChunkRecord>
  {
    if Supported(e.name, hasDocx, hasPdf)
    then FileRecords(e.content, e.name, Category(e, mapping), e.absolutePath, enabled, svc)
    else []
  }

  /** A file's records all come from an accepted file and carry its category,
      name and absolute path. */
  lemma EntryRecordsFrom(e: DirEntry, mapping: Mapping, hasDocx: bool, hasPdf: bool,
                         enabled: bool, svc: Services)
    ensures var docs := EntryRecords(e, mapping, hasDocx, hasPdf, enabled, svc);
      docs != [] ==> Supported(e.name, hasDocx, hasPdf) && HasContent(e.content)
    ensures var docs := EntryRecords(e, mapping, hasDocx, hasPdf, enabled, svc);
      forall k :: 0 <= k < |docs| ==>
        docs[k].originalFile == e.name && docs[k].category == Category(e, mapping) && docs[k].source == e.absolutePath
  {
    if Supported(e.name, hasDocx, hasPdf) && HasContent(e.content) {
      var docs := FileRecords(e.content, e.name, Category(e, mapping), e.absolutePath, enabled, svc);
      forall k | 0 <= k < |docs|
        ensures docs[k].originalFile == e.name && docs[k].category == Category(e, mapping) && docs[k].source == e.absolutePath
      {
        var title := ExtractTitle(e.content.value, e.name, svc.titleCase);
        var chunks := svc.split(e.content.value);
        assert docs[k] == RecordAt(title, chunks, k, Category(e, mapping), e.absolutePath, e.name, enabled, svc);
      }
    }
  }

  /** The records of `entries`, file after file. */
  function Collect(entries: seq<DirEntry>, contribution: DirEntry -> seq<ChunkRecord>): seq<ChunkRecord>
    decreases |entries|
  {
    if entries == [] then []
    else Collect(entries[..|entries| - 1], contribution) + contribution(entries[|entries| - 1])
  }

  /** Collecting over two runs of files is collecting over each. */
  lemma {:induction false} CollectAppend(a: seq<DirEntry>, b: seq<DirEntry>, contribution: DirEntry -> seq<ChunkRecord>)
    ensures Collect(a + b, contribution) == Collect(a, contribution) + Collect(b, contribution)
    decreases |b|
  {
    if b == [] {
      assert a + b == a;
    } else {
      var init := b[..|b| - 1];
      assert (a + b)[..|a + b| - 1] == a + init;
      assert (a + b)[|a + b| - 1] == b[|b| - 1];
      CollectAppend(a, init, contribution);
    }
  }

  /** Each collected record is one of the records of one of the files: record
      `k` is record `d` of file `j`. */
  lemma {:induction false} CollectIndex(entries: seq<DirEntry>, contribution: DirEntry -> seq<ChunkRecord>, k: nat)
    returns (j: nat, d: nat)
    requires k < |Collect(entries, contribution)|
    ensures j < |entries| && d < |contribution(entries[j])|
    ensures Collect(entries, contribution)[k] == contribution(entries[j])[d]
    decreases |entries|
  {
    var init := entries[..|entries| - 1];
    var before := Collect(init, contribution);
    assert Collect(entries, contribution) == before + contribution(entries[|entries| - 1]);
    if k < |before| {
      j, d := CollectIndex(init, contribution, k);
      assert entries[j] == init[j];
    } else {
      j, d := |entries| - 1, k - |before|;
    }
  }

  /** Everything the walk over `entries` collects, in walk order. */
  function DirectoryRecords(entries: seq<DirEntry>, mapping: Mapping, hasDocx: bool, hasPdf: bool,
                            enabled: bool, svc: Services): seq<ChunkRecord>
  {
    Collect(entries, Contribution(mapping, hasDocx, hasPdf, enabled, svc))
  }

  /** `EntryRecords` under fixed settings, as a function of the file. */
  function Contribution(mapping: Mapping, hasDocx: bool, hasPdf: bool, enabled: bool, svc: Services): DirEntry -> seq<ChunkRecord> {
    e => EntryRecords(e, mapping, hasDocx, hasPdf, enabled, svc)
  }

  /** The walk's records are those of the first files followed by those of the rest. */
  lemma DirectoryRecordsAppend(a: seq<DirEntry>, b: seq<DirEntry>, mapping: Mapping,
                               hasDocx: bool, hasPdf: bool, enabled: bool, svc: Services)
    ensures DirectoryRecords(a + b, mapping, hasDocx, hasPdf, enabled, svc)
         == DirectoryRecords(a, mapping, hasDocx, hasPdf, enabled, svc) + DirectoryRecords(b, mapping, hasDocx, hasPdf, enabled, svc)
  {
    CollectAppend(a, b, Contribution(mapping, hasDocx, hasPdf, enabled, svc));
  }

  /** `r` comes from a file of `entries` that the filter accepts, and carries
      that file's category, name and absolute path. */
  ghost predicate FromAcceptedFile(r: ChunkRecord, entries: seq<DirEntry>, mapping: Mapping, hasDocx: bool, hasPdf: bool) {
    exists j :: 0 <= j < |entries| && Supported(entries[j].name, hasDocx, hasPdf)
      && r.originalFile == entries[j].name
      && r.category == Category(entries[j], mapping)
      && r.source == entries[j].absolutePath
  }

  /** Every collected record comes from a file the filter accepts and is
      labelled with that file's category, name and path; files that are not
      accepted contribute nothing. */
  lemma DirectoryRecordsFrom(entries: seq<DirEntry>, mapping: Mapping, hasDocx: bool, hasPdf: bool,
                             enabled: bool, svc: Services)
    ensures var docs := DirectoryRecords(entries, mapping, hasDocx, hasPdf, enabled, svc);
      forall k :: 0 <= k < |docs| ==> FromAcceptedFile(docs[k], entries, mapping, hasDocx, hasPdf)
  {
    var f := Contribution(mapping, hasDocx, hasPdf, enabled, svc);
    var docs := DirectoryRecords(entries, mapping, hasDocx, hasPdf, enabled, svc);
    forall k | 0 <= k < |docs|
      ensures FromAcceptedFile(docs[k], entries, mapping, hasDocx, hasPdf)
    {
      var j, d := CollectIndex(entries, f, k);
      EntryRecordsFrom(entries[j], mapping, hasDocx, hasPdf, enabled, svc);
      assert f(entries[j]) == EntryRecords(entries[j], mapping, hasDocx, hasPdf, enabled, svc);
    }
  }

  /** A prefix one longer is the prefix with the next element appended. */
  lemma PrefixStep<T>(s: seq<T>, i: nat)
    requires i < |s|
    ensures s[..i + 1] == s[..i] + [s[i]]
  {
  }

  /** `DocumentProcessor`: the settings it is built with; `embeddingsEnabled`
      stands for the embeddings client, which exists only when an endpoint and
      a key are both given. */
  class DocumentProcessor {
    var embeddingsEnabled: bool
    var embeddingModel: string
    var chunkSize: int
    var chunkOverlap: int

    constructor(endpoint: Option<string>, apiKey: Option<string>, embeddingModel: string,
                chunkSize: int, chunkOverlap: int)
      ensures embeddingsEnabled <==> (endpoint.Some? && endpoint.value != [] && apiKey.Some? && apiKey.value != [])
      ensures this.embeddingModel == embeddingModel
      ensures this.chunkSize == chunkSize && this.chunkOverlap == chunkOverlap
    {
      this.chunkSize := chunkSize;
      this.chunkOverlap := chunkOverlap;
      this.embeddingModel := embeddingModel;
      embeddingsEnabled := endpoint.Some? && endpoint.value != [] && apiKey.Some? && apiKey.value != [];
    }

    /** `process_file`: one record per chunk, appended in chunk order; the
        source is the given base address when it is truthy, else the file's
        absolute path. */
    method ProcessFile(content: Option<string>, originalFile: string, absolutePath: string,
                       category: string, sourceBaseUrl: Option<string>, svc: Services)
      returns (documents: seq<ChunkRecord>)
      ensures documents == FileRecords(content, originalFile, category,
                                       if sourceBaseUrl.Some? && sourceBaseUrl.value != [] then sourceBaseUrl.value else absolutePath,
                                       embeddingsEnabled, svc)
    {
      if !HasContent(content) {
        return [];
      }
      var text := content.value;
      var title := ExtractTitle(text, originalFile, svc.titleCase);
      var source := if sourceBaseUrl.Some? && sourceBaseUrl.value != [] then sourceBaseUrl.value else absolutePath;
      var chunks := svc.split(text);
      ghost var all := FileRecords(content, originalFile, category, source, embeddingsEnabled, svc);
      documents := [];
      var i := 0;
      while i < |chunks|
        invariant 0 <= i <= |chunks|
        invariant documents == all[..i]
      {
        var doc := RecordAt(title, chunks, i, category, source, originalFile, embeddingsEnabled, svc);
        PrefixStep(all, i);
        documents := documents + [doc];
        i := i + 1;
      }
      assert all[..|chunks|] == all;
    }

    /** The extensions `process_directory` accepts: text, Markdown and JSON,
        then `.docx` and `.pdf` when their readers are installed. */
    static method AcceptedExtensions(hasDocx: bool, hasPdf: bool) returns (extensions: seq<string>)
      ensures extensions == Extensions(hasDocx, hasPdf)
    {
      extensions := [".txt", ".md", ".json"];
      if hasDocx {
        extensions := extensions + [".docx"];
      }
      if hasPdf {
        extensions := extensions + [".pdf"];
      }
    }

    /** `process_directory`: the records of every accepted file, in walk order,
        each file under the category `Category` gives it. */
    method ProcessDirectory(entries: seq<DirEntry>, mapping: Mapping, hasDocx: bool, hasPdf: bool, svc: Services)
      returns (allDocuments: seq<ChunkRecord>)
      ensures allDocuments == DirectoryRecords(entries, mapping, hasDocx, hasPdf, embeddingsEnabled, svc)
    {
      var extensions := AcceptedExtensions(hasDocx, hasPdf);
      var enabled := embeddingsEnabled;
      allDocuments := [];
      var i := 0;
      while i < |entries|
        invariant 0 <= i <= |entries|
        invariant allDocuments == DirectoryRecords(entries[..i], mapping, hasDocx, hasPdf, enabled, svc)
      {
        var e := entries[i];
        assert entries[..i + 1][..i] == entries[..i];
        if Lower(PathNames.Suffix(e.name)) in extensions {
          var category := "generelt";
          if mapping.Some? && mapping.value != [] {
            match FirstMatch(e.path, mapping.value)
            case Some(k) => category := mapping.value[k].1;
            case None =>
          } else if !e.inInputDir {
            category := e.parentName;
          }
          var documents := ProcessFile(e.content, e.name, e.absolutePath, category, None, svc);
          allDocuments := allDocuments + documents;
        }
        i := i + 1;
      }
      assert entries[..|entries|] == entries;
    }
  }

  // ---------------------------------------------------------------------
  // The tally of `main`
  // ---------------------------------------------------------------------

  /** A dictionary from category to count, as its items in insertion order. */
  type Tally = seq<(string, nat)>

  /** `categories.get(c, 0)`. */
  function Lookup(tally: Tally, c: string): nat {
    if tally == [] then 0
    else if tally[0].0 == c then tally[0].1
    else Lookup(tally[1..], c)
  }

  /** `categories[c] = categories.get(c, 0) + 1`: an existing entry is
      incremented where it stands, a new one goes last. */
  function Bump(tally: Tally, c: string): Tally {
    if tally == [] then [(c, 1)]
    else if tally[0].0 == c then [(c, tally[0].1 + 1)] + tally[1..]
    else [tally[0]] + Bump(tally[1..], c)
  }

  /** The counts added up. */
  function Total(tally: Tally): nat {
    if tally == [] then 0 else tally[0].1 + Total(tally[1..])
  }

  /** No category is listed twice. */
  predicate KeysDistinct(tally: Tally) {
    forall i, j :: 0 <= i < j < |tally| ==> tally[i].0 != tally[j].0
  }

  /** How many of the records are in category `c`. */
  function CountIn(docs: seq<ChunkRecord>, c: string): nat {
    if docs == [] then 0
    else CountIn(docs[..|docs| - 1], c) + (if docs[|docs| - 1].category == c then 1 else 0)
  }

  /** The tally after counting `docs` one by one. */
  function TallyOf(docs: seq<ChunkRecord>): Tally {
    if docs == [] then [] else Bump(TallyOf(docs[..|docs| - 1]), docs[|docs| - 1].category)
  }

  /** One increment adds one to the category's count only, one to the total,
      and keeps the categories distinct. */
  lemma {:induction false} BumpFacts(tally: Tally, c: string)
    ensures forall d :: Lookup(Bump(tally, c), d) == Lookup(tally, d) + (if d == c then 1 else 0)
    ensures Total(Bump(tally, c)) == Total(tally) + 1
    ensures KeysDistinct(tally) ==> KeysDistinct(Bump(tally, c))
  {
    if tally != [] && tally[0].0 != c {
      BumpFacts(tally[1..], c);
      var b := Bump(tally, c);
      if KeysDistinct(tally) {
        forall i, j | 0 <= i < j < |b| ensures b[i].0 != b[j].0 {
          if i == 0 {
            var rest := Bump(tally[1..], c);
            assert b[j] == rest[j - 1];
            KeyOfBump(tally[1..], c, j - 1);
          } else {
            assert b[i] == Bump(tally[1..], c)[i - 1] && b[j] == Bump(tally[1..], c)[j - 1];
          }
        }
      }
    } else if tally != [] {
      var b := Bump(tally, c);
      assert forall i :: 1 <= i < |b| ==> b[i] == tally[i];
    }
  }

  /** A category listed after an increment was listed before it or is the one counted. */
  lemma {:induction false} KeyOfBump(tally: Tally, c: string, i: nat)
    requires i < |Bump(tally, c)|
    ensures Bump(tally, c)[i].0 == c || (i < |tally| && Bump(tally, c)[i].0 == tally[i].0)
  {
    if tally != [] && tally[0].0 != c && i > 0 {
      KeyOfBump(tally[1..], c, i - 1);
      assert Bump(tally, c)[i] == Bump(tally[1..], c)[i - 1];
    } else if tally != [] && tally[0].0 == c && i > 0 {
      assert Bump(tally, c)[i] == tally[i];
    }
  }

  /** The tally of `main`: a count per category of the records, with no
      category twice, and the counts add up to the number of records. */
  lemma {:induction false} TallyFacts(docs: seq<ChunkRecord>)
    ensures forall c :: Lookup(TallyOf(docs), c) == CountIn(docs, c)
    ensures Total(TallyOf(docs)) == |docs|
    ensures KeysDistinct(TallyOf(docs))
    decreases |docs|
  {
    if docs != [] {
      TallyFacts(docs[..|docs| - 1]);
      BumpFacts(TallyOf(docs[..|docs| - 1]), docs[|docs| - 1].category);
    }
  }

  /** The counting loop at the end of `main`. */
  method TallyCategories(documents: seq<ChunkRecord>) returns (categories: Tally)
    ensures categories == TallyOf(documents)
    ensures Total(categories) == |documents|
    ensures forall c :: Lookup(categories, c) == CountIn(documents, c)
  {
    categories := [];
    var i := 0;
    while i < |documents|
      invariant 0 <= i <= |documents|
      invariant categories == TallyOf(documents[..i])
    {
      assert documents[..i + 1][..i] == documents[..i];
      categories := Bump(categories, documents[i].category);
      i := i + 1;
    }
    assert documents[..|documents|] == documents;
    TallyFacts(documents);
  }
}
