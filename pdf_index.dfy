/** The first loader of the leader-context index: every PDF of a folder becomes
    one search document, whose category is read off the file name and whose
    title is the cleaned-up file name. Reading the pages, hashing and the clock
    are inputs. */
module PdfIndex {
  import opened Wrappers
  import opened PyText
  import PathNames

  // ---------------------------------------------------------------------
  // The category: `get_category`
  // ---------------------------------------------------------------------

  /** The six categories a file can be given. */
  function Labels(): seq<string> {
    ["kompetanse", "hr", "leiarutvikling", "strategi", "policy", "generelt"]
  }

  /** `get_category`: the first rule whose key word occurs in the lower-cased name. */
  function GetCategory(filename: string): (r: string)
    ensures r in Labels()
  {
    var lower := Lower(filename);
    if Contains(lower, "kompetanse") then "kompetanse"
    else if Contains(lower, "medarbeidar") then "hr"
    else if Contains(lower, "leiar") then "leiarutvikling"
    else if Contains(lower, "strategi") || Contains(lower, "organisasjon") then "strategi"
    else if Contains(lower, "likestil") || Contains(lower, "handlingsplan") then "policy"
    else "generelt"
  }

  /** Each category is given exactly when its key words occur and those of
      every rule before it do not. */
  lemma CategoryPrecedence(filename: string)
    ensures var l, r := Lower(filename), GetCategory(filename);
      && (r == "kompetanse" <==> Contains(l, "kompetanse"))
      && (r == "hr" <==> !Contains(l, "kompetanse") && Contains(l, "medarbeidar"))
      && (r == "leiarutvikling" <==>
            !Contains(l, "kompetanse") && !Contains(l, "medarbeidar") && Contains(l, "leiar"))
      && (r == "strategi" <==>
            !Contains(l, "kompetanse") && !Contains(l, "medarbeidar") && !Contains(l, "leiar")
            && (Contains(l, "strategi") || Contains(l, "organisasjon")))
      && (r == "policy" <==>
            !Contains(l, "kompetanse") && !Contains(l, "medarbeidar") && !Contains(l, "leiar")
            && !Contains(l, "strategi") && !Contains(l, "organisasjon")
            && (Contains(l, "likestil") || Contains(l, "handlingsplan")))
      && (r == "generelt" <==>
            !Contains(l, "kompetanse") && !Contains(l, "medarbeidar") && !Contains(l, "leiar")
            && !Contains(l, "strategi") && !Contains(l, "organisasjon")
            && !Contains(l, "likestil") && !Contains(l, "handlingsplan"))
  {
  }

  /** Lower-casing is idempotent on the letters it knows. */
  lemma LowerTwice(s: string)
    ensures Lower(Lower(s)) == Lower(s)
  {
    assert forall i :: 0 <= i < |s| ==> LowerChar(LowerChar(s[i])) == LowerChar(s[i]);
  }

  /** The category ignores case: a name and its lower-cased form are filed alike. */
  lemma CategoryIgnoresCase(filename: string)
    ensures GetCategory(Lower(filename)) == GetCategory(filename)
  {
    LowerTwice(filename);
  }

  // ---------------------------------------------------------------------
  // The text: `extract_pdf_text`
  // ---------------------------------------------------------------------

  /** The page texts without the empty ones, in page order. */
  function NonEmptyPages(pages: seq<string>): (r: seq<string>)
    ensures forall k :: 0 <= k < |r| ==> r[k] != []
    ensures |r| <= |pages|
  {
    if pages == [] then []
    else NonEmptyPages(pages[..|pages| - 1]) + (if pages[|pages| - 1] != [] then [pages[|pages| - 1]] else [])
  }

  /** Exactly the non-empty pages are kept, and the order is kept: the kept
      pages of two runs of pages are those of the first run, then those of
      the second. */
  lemma {:induction false} NonEmptyPagesAppend(a: seq<string>, b: seq<string>)
    ensures NonEmptyPages(a + b) == NonEmptyPages(a) + NonEmptyPages(b)
    decreases |b|
  {
    if b == [] {
      assert a + b == a;
    } else {
      var init := b[..|b| - 1];
      assert (a + b)[..|a + b| - 1] == a + init;
      assert (a + b)[|a + b| - 1] == b[|b| - 1];
      NonEmptyPagesAppend(a, init);
    }
  }

  /** A page's text is kept exactly when it is not empty. */
  lemma {:induction false} NonEmptyPagesMembers(pages: seq<string>)
    ensures forall p :: p in NonEmptyPages(pages) <==> p in pages && p != []
    ensures NonEmptyPages(pages) == [] <==> forall k :: 0 <= k < |pages| ==> pages[k] == []
    decreases |pages|
  {
    if pages != [] {
      var init := pages[..|pages| - 1];
      NonEmptyPagesMembers(init);
      assert pages == init + [pages[|pages| - 1]];
      forall k | 0 <= k < |init| ensures init[k] == pages[k] { }
    }
  }

  /** What reading a PDF gives: the text of each page, or `None` when opening
      or reading the file raises. */
  type Reading = Option<seq<string>>

  /** `extract_pdf_text`: the non-empty page texts joined by blank lines, and
      "" after an error. */
  function PdfText(reading: Reading): string {
    match reading
    case None => ""
    case Some(pages) => Join(NonEmptyPages(pages), "\n\n")
  }

  /** The loop of `extract_pdf_text`. */
  method ExtractPdfText(reading: Reading) returns (text: string)
    ensures text == PdfText(reading)
  {
    if reading.None? {
      return "";
    }
    var pages := reading.value;
    var textParts: seq<string> := [];
    var i := 0;
    while i < |pages|
      invariant 0 <= i <= |pages|
      invariant textParts == NonEmptyPages(pages[..i])
    {
      assert pages[..i + 1][..i] == pages[..i];
      if pages[i] != [] {
        textParts := textParts + [pages[i]];
      }
      i := i + 1;
    }
    assert pages[..|pages|] == pages;
    text := Join(textParts, "\n\n");
  }

  /** The text is empty exactly when reading failed or every page is empty. */
  lemma PdfTextEmpty(reading: Reading)
    ensures PdfText(reading) == [] <==>
      reading.None? || forall k :: 0 <= k < |reading.value| ==> reading.value[k] == []
  {
    if reading.Some? {
      var kept := NonEmptyPages(reading.value);
      NonEmptyPagesMembers(reading.value);
      if kept != [] {
        JoinHead(kept, "\n\n");
      }
    }
  }

  // ---------------------------------------------------------------------
  // The title
  // ---------------------------------------------------------------------

  /** The length of the digit run of at most `limit` characters that starts
      `s`: what a greedy `\d{0,limit}` matches there. */
  function DigitRun(s: string, limit: nat): (n: nat)
    ensures n <= limit && n <= |s|
    ensures forall i :: 0 <= i < n ==> IsDigit(s[i])
    ensures n < limit && n < |s| ==> !IsDigit(s[n])
  {
    if limit == 0 || s == [] || !IsDigit(s[0]) then 0 else 1 + DigitRun(s[1..], limit - 1)
  }

  /** `s` starts with four digits, the part `\d{4}` needs. */
  predicate StartsWithYear(s: string) {
    |s| >= 4 && IsDigit(s[0]) && IsDigit(s[1]) && IsDigit(s[2]) && IsDigit(s[3])
  }

  /** How much of `s` the pattern `^\d{4}\.?\d{0,2}\s*` matches, 0 when it does not. */
  function YearPrefixLength(s: string): (n: nat)
    ensures n <= |s|
    ensures n == 0 || StartsWithYear(s)
  {
    if StartsWithYear(s) then
      var a := if |s| > 4 && s[4] == '.' then 5 else 4;
      var b := a + DigitRun(s[a..], 2);
      b + LeadingSpace(s[b..])
    else 0
  }

  /** `re.sub(r'^\d{4}\.?\d{0,2}\s*', '', s)`. */
  function StripYear(s: string): string {
    s[YearPrefixLength(s)..]
  }

  /** All characters of `s` are whitespace. */
  predicate AllSpace(s: string) {
    forall i :: 0 <= i < |s| ==> IsSpace(s[i])
  }

  /** `q` is matched by `\d{0,2}\s*`. */
  predicate DigitsThenSpace(q: string) {
    || AllSpace(q)
    || (|q| >= 1 && IsDigit(q[0]) && AllSpace(q[1..]))
    || (|q| >= 2 && IsDigit(q[0]) && IsDigit(q[1]) && AllSpace(q[2..]))
  }

  /** `p` is matched in full by `\d{4}\.?\d{0,2}\s*`. */
  predicate YearPattern(p: string) {
    StartsWithYear(p) && (DigitsThenSpace(p[4..]) || (|p| > 4 && p[4] == '.' && DigitsThenSpace(p[5..])))
  }

  /** A whitespace prefix is no longer than the whitespace run. */
  lemma SpaceRunCovers(s: string, m: nat)
    requires m <= |s| && AllSpace(s[..m])
    ensures m <= LeadingSpace(s)
  {
    assert forall i :: 0 <= i < m ==> s[..m][i] == s[i];
  }

  /** What `\d{0,2}\s*` matches at the start of `t` is no longer than the
      greedy digit run followed by the greedy whitespace run. */
  lemma DigitsThenSpaceCovers(t: string, m: nat)
    requires m <= |t|
    ensures DigitsThenSpace(t[..m]) ==> m <= DigitRun(t, 2) + LeadingSpace(t[DigitRun(t, 2)..])
  {
    var q := t[..m];
    if DigitsThenSpace(q) {
      var k := DigitsThenSpaceSplit(q);
      assert forall i :: 0 <= i < k ==> q[i] == t[i];
      SpaceSuffixOfPrefix(t, k, m);
      SpacesAfterDigits(t, k, m);
    }
  }

  /** Where the digits of a `\d{0,2}\s*` match end and its whitespace begins. */
  lemma DigitsThenSpaceSplit(q: string) returns (k: nat)
    requires DigitsThenSpace(q)
    ensures k <= 2 && k <= |q|
    ensures forall i :: 0 <= i < k ==> IsDigit(q[i])
    ensures AllSpace(q[k..])
  {
    if AllSpace(q) {
      k := 0;
      assert q[k..] == q;
    } else if AllSpace(q[1..]) {
      k := 1;
    } else {
      k := 2;
    }
  }

  /** Whitespace after `k` in the prefix `t[..m]` is whitespace after `k` in `t`. */
  lemma SpaceSuffixOfPrefix(t: string, k: nat, m: nat)
    requires k <= m <= |t|
    ensures AllSpace(t[..m][k..]) ==> AllSpace(t[k..m])
  {
    assert t[..m][k..] == t[k..m];
  }

  /** `k` leading digits (at most two) followed by whitespace up to `m` are
      covered by the greedy digit run and the whitespace run after it. */
  lemma SpacesAfterDigits(t: string, k: nat, m: nat)
    requires k <= 2 && k <= m <= |t|
    requires forall i :: 0 <= i < k ==> IsDigit(t[i])
    requires AllSpace(t[k..m])
    ensures m <= DigitRun(t, 2) + LeadingSpace(t[DigitRun(t, 2)..])
  {
    if k < m {
      var c := t[k];
      assert IsSpace(c) by { assert t[k..m][0] == c; }
      DigitIsNotSpace(c);
      assert DigitRun(t, 2) == k;
      SpaceRunFrom(t, k, m);
    }
  }

  /** No digit is whitespace. */
  lemma DigitIsNotSpace(c: char)
    ensures IsDigit(c) ==> !IsSpace(c)
  {
  }

  /** Whitespace from `k` up to `m` lies inside the whitespace run starting at `k`. */
  lemma SpaceRunFrom(t: string, k: nat, m: nat)
    requires k <= m <= |t|
    requires AllSpace(t[k..m])
    ensures m - k <= LeadingSpace(t[k..])
  {
    assert forall j :: 0 <= j < m - k ==> t[k..][j] == t[k..m][j];
    SpaceRunCovers(t[k..], m - k);
  }

  /** A text starting with a dot is not matched by `\d{0,2}\s*`. */
  lemma DotBreaksDigits(q: string)
    ensures q != [] && q[0] == '.' ==> !DigitsThenSpace(q)
  {
  }

  /** The removed prefix is one the pattern matches in full. */
  lemma YearPrefixMatches(s: string)
    requires StartsWithYear(s)
    ensures YearPattern(s[..YearPrefixLength(s)])
  {
    var a, d := YearPrefixParts(s);
    DigitsThenSpaceMatched(s[a..]);
    YearPatternFrom(s, a, YearPrefixLength(s));
  }

  /** The year prefix's length, read as the year with its optional dot, the
      greedy digit run after them and the whitespace run after that. */
  lemma YearPrefixParts(s: string) returns (a: nat, d: nat)
    requires StartsWithYear(s)
    ensures a == (if |s| > 4 && s[4] == '.' then 5 else 4) && a <= |s|
    ensures d == DigitRun(s[a..], 2)
    ensures YearPrefixLength(s) == a + d + LeadingSpace(s[a..][d..])
  {
    a := if |s| > 4 && s[4] == '.' then 5 else 4;
    d := DigitRun(s[a..], 2);
    assert s[a..][d..] == s[a + d..];
  }

  /** A year, an optional dot, and a `\d{0,2}\s*` match after them up to `m`:
      the prefix of length `m` is matched by the whole pattern. */
  lemma YearPatternFrom(s: string, a: nat, m: nat)
    requires StartsWithYear(s) && (a == 4 || a == 5) && a <= m <= |s|
    requires a == 5 ==> s[4] == '.'
    requires DigitsThenSpace(s[a..][..m - a])
    ensures YearPattern(s[..m])
  {
    var p := s[..m];
    SliceOfPrefix(s, a, m);
    assert forall i :: 0 <= i < a ==> p[i] == s[i];
    YearPatternParts(p, a);
  }

  /** Dropping `a` characters from the prefix of length `n` is taking `n - a`
      characters after the first `a`. */
  lemma SliceOfPrefix(s: string, a: nat, n: nat)
    requires a <= n <= |s|
    ensures s[..n][a..] == s[a..][..n - a]
  {
  }

  /** A year, an optional dot and a `\d{0,2}\s*` match make up the pattern. */
  lemma YearPatternParts(p: string, a: nat)
    requires StartsWithYear(p) && (a == 4 || a == 5) && a <= |p|
    requires a == 5 ==> p[4] == '.'
    requires DigitsThenSpace(p[a..])
    ensures YearPattern(p)
  {
  }

  /** The greedy digit run and the whitespace run after it are matched by `\d{0,2}\s*`. */
  lemma DigitsThenSpaceMatched(t: string)
    ensures DigitsThenSpace(t[..DigitRun(t, 2) + LeadingSpace(t[DigitRun(t, 2)..])])
  {
    var d := DigitRun(t, 2);
    DigitsThenSpacePrefix(t, d, LeadingSpace(t[d..]));
  }

  /** Up to two digits, then a whitespace run, make a prefix `\d{0,2}\s*` matches. */
  lemma DigitsThenSpacePrefix(t: string, d: nat, n: nat)
    requires d <= 2 && d + n <= |t|
    requires forall i :: 0 <= i < d ==> IsDigit(t[i])
    requires forall i :: 0 <= i < n ==> IsSpace(t[d..][i])
    ensures DigitsThenSpace(t[..d + n])
  {
    var q := t[..d + n];
    forall i | 0 <= i < |q[d..]| ensures IsSpace(q[d..][i]) {
      assert q[d..][i] == t[d..][i];
    }
    forall i | 0 <= i < d ensures IsDigit(q[i]) {
      assert q[i] == t[i];
    }
    DigitsThenSpaceJoin(q, d);
  }

  /** At most two digits followed by whitespace only is matched by `\d{0,2}\s*`. */
  lemma DigitsThenSpaceJoin(q: string, k: nat)
    requires k <= 2 && k <= |q|
    requires forall i :: 0 <= i < k ==> IsDigit(q[i])
    requires AllSpace(q[k..])
    ensures DigitsThenSpace(q)
  {
    if k == 0 {
      assert q[k..] == q;
    }
  }

  /** No longer prefix is matched: the pattern's parts are all greedy. */
  lemma YearPrefixLongest(s: string, m: nat)
    requires StartsWithYear(s) && YearPrefixLength(s) < m <= |s|
    ensures !YearPattern(s[..m])
  {
    var a := if |s| > 4 && s[4] == '.' then 5 else 4;
    var t := s[a..];
    var pm := s[..m];
    if a == 5 {
      assert pm[4..][0] == '.';
      DotBreaksDigits(pm[4..]);
      assert pm[5..] == t[..m - 5];
      DigitsThenSpaceCovers(t, m - 5);
    } else {
      assert pm[4..] == t[..m - 4];
      DigitsThenSpaceCovers(t, m - 4);
    }
  }

  /** The year prefix removed is one the pattern matches, and the longest:
      no longer prefix of `s` matches it. Without four leading digits nothing
      is removed. What is left is the rest of `s`, untouched. */
  lemma YearPrefixSpec(s: string)
    ensures StartsWithYear(s) ==> YearPattern(s[..YearPrefixLength(s)])
    ensures forall m :: YearPrefixLength(s) < m <= |s| ==> !YearPattern(s[..m])
    ensures !StartsWithYear(s) ==> StripYear(s) == s
    ensures s == s[..YearPrefixLength(s)] + StripYear(s)
  {
    var n := YearPrefixLength(s);
    if StartsWithYear(s) {
      YearPrefixMatches(s);
      forall m | n < m <= |s|
        ensures !YearPattern(s[..m])
      {
        YearPrefixLongest(s, m);
      }
    } else {
      forall m | n < m <= |s|
        ensures !YearPattern(s[..m])
      {
        assert forall i :: 0 <= i < m ==> s[..m][i] == s[i];
      }
    }
    assert s == s[..n] + s[n..];
  }

  /** The title made from a PDF's file name: dashes and underscores become
      spaces, runs of whitespace one space, and a leading year is removed. */
  function CleanTitle(filename: string): string {
    StripYear(SingleSpaced(PathNames.StemWords(filename)))
  }

  /** The clean title holds no dash or underscore, no whitespace but single
      spaces, and none at either end; it is what is left of the single-spaced
      name after its year prefix. */
  lemma CleanTitleFacts(filename: string)
    ensures var t := CleanTitle(filename);
      && '-' !in t && '_' !in t
      && (t == [] || (!IsSpace(t[0]) && !IsSpace(t[|t| - 1])))
      && (forall i :: 0 <= i < |t| && IsSpace(t[i]) ==> t[i] == ' ')
      && (forall i :: 0 <= i < |t| - 1 ==> !(t[i] == ' ' && t[i + 1] == ' '))
  {
    var words := PathNames.StemWords(filename);
    var single := SingleSpaced(words);
    var n := YearPrefixLength(single);
    if '-' in single {
      SingleSpacedChars(words, '-');
    }
    if '_' in single {
      SingleSpacedChars(words, '_');
    }
    SpacingSurvivesSlice(single, n);
    StrippedAfterYear(single);
  }

  /** A suffix keeps the absence of dashes, underscores, whitespace other than
      single spaces, and doubled spaces. */
  lemma SpacingSurvivesSlice(s: string, n: nat)
    requires n <= |s|
    requires '-' !in s && '_' !in s
    requires forall i :: 0 <= i < |s| && IsSpace(s[i]) ==> s[i] == ' '
    requires forall i :: 0 <= i < |s| - 1 ==> !(s[i] == ' ' && s[i + 1] == ' ')
    ensures var t := s[n..];
      && '-' !in t && '_' !in t
      && (forall i :: 0 <= i < |t| && IsSpace(t[i]) ==> t[i] == ' ')
      && (forall i :: 0 <= i < |t| - 1 ==> !(t[i] == ' ' && t[i + 1] == ' '))
  {
    assert forall i :: 0 <= i < |s| - n ==> s[n..][i] == s[n + i];
  }

  /** What is left after the year prefix of a text with no whitespace at
      either end has none at either end either. */
  lemma StrippedAfterYear(s: string)
    requires s == [] || (!IsSpace(s[0]) && !IsSpace(s[|s| - 1]))
    ensures var t := StripYear(s); t == [] || (!IsSpace(t[0]) && !IsSpace(t[|t| - 1]))
  {
    var n := YearPrefixLength(s);
    var t := s[n..];
    if t != [] {
      assert t[|t| - 1] == s[|s| - 1];
      if n == 0 {
        assert t[0] == s[0];
      } else {
        var a := if |s| > 4 && s[4] == '.' then 5 else 4;
        var b := a + DigitRun(s[a..], 2);
        assert s[b..][n - b] == t[0];
      }
    }
  }

  /** The year and what follows it are removed: a dated file name loses the
      date, and a name without four leading digits keeps everything. */
  lemma YearPrefixExamples()
    ensures StripYear("2025.02 Leiarplan") == "Leiarplan"
    ensures StripYear("Plan 2025") == "Plan 2025"
  {
    DatedName();
    assert !StartsWithYear("Plan 2025");
  }

  /** `2025.02 Leiarplan`: the year, the dot, the month and the space go. */
  lemma DatedName()
    ensures StripYear("2025.02 Leiarplan") == "Leiarplan"
  {
    var s := "2025.02 Leiarplan";
    assert StartsWithYear(s) && s[4] == '.';
    var q := s[5..];
    assert q[0] == '0' && q[1] == '2';
    assert DigitRun(q, 2) == 2;
    var r := s[7..];
    assert r[0] == ' ' && r[1] == 'L';
    assert LeadingSpace(r) == 1;
    assert YearPrefixLength(s) == 8;
    assert s[8..] == "Leiarplan";
  }

  // ---------------------------------------------------------------------
  // The documents: `main`
  // ---------------------------------------------------------------------

  /** One PDF of the folder: its path, its name and what reading it gives. */
  datatype PdfFile = PdfFile(path: string, name: string, reading: Reading)

  /** One search document. */
  datatype Document = Document(id: string, title: string, content: string, category: string,
                               source: string, lastUpdated: string)

  /** `generate_id`: the digest of the title. `digest` is
      `hashlib.md5(s.encode()).hexdigest()[:16]`. */
  function GenerateId(digest: string -> string, title: string): string {
    digest(title)
  }

  /** The document made from a PDF whose text is `text`. */
  function DocumentFor(f: PdfFile, text: string, digest: string -> string, timestamp: string): Document {
    var title := CleanTitle(f.name);
    Document(GenerateId(digest, title), title, text, GetCategory(f.name), f.path, timestamp)
  }

  /** The documents of the files, in folder order; a PDF without text is skipped. */
  function Documents(files: seq<PdfFile>, digest: string -> string, timestamp: string): seq<Document> {
    if files == [] then []
    else
      var f := files[|files| - 1];
      Documents(files[..|files| - 1], digest, timestamp)
      + (if PdfText(f.reading) != [] then [DocumentFor(f, PdfText(f.reading), digest, timestamp)] else [])
  }

  /** How many of the files have text. */
  function CountWithText(files: seq<PdfFile>): nat {
    if files == [] then 0
    else CountWithText(files[..|files| - 1]) + (if PdfText(files[|files| - 1].reading) != [] then 1 else 0)
  }

  /** The positions of the files with text, in increasing order, each a file
      with text; `WithTextComplete` shows that none is missing. */
  function WithTextIndices(files: seq<PdfFile>): (idx: seq<nat>)
    ensures forall k :: 0 <= k < |idx| ==> idx[k] < |files| && PdfText(files[idx[k]].reading) != []
    ensures forall k, l :: 0 <= k < l < |idx| ==> idx[k] < idx[l]
    ensures |idx| == CountWithText(files)
  {
    if files == [] then []
    else
      var init := files[..|files| - 1];
      var before := WithTextIndices(init);
      assert forall k :: 0 <= k < |before| ==> files[before[k]] == init[before[k]];
      before + (if PdfText(files[|files| - 1].reading) != [] then [|files| - 1] else [])
  }

  /** Every file with text has its position in `WithTextIndices`. */
  lemma {:induction false} WithTextComplete(files: seq<PdfFile>)
    ensures forall i :: 0 <= i < |files| && PdfText(files[i].reading) != [] ==> i in WithTextIndices(files)
  {
    if files != [] {
      var init := files[..|files| - 1];
      WithTextComplete(init);
      var before := WithTextIndices(init);
      var extra := if PdfText(files[|files| - 1].reading) != [] then [|files| - 1] else [];
      assert WithTextIndices(files) == before + extra;
      forall i | 0 <= i < |files| && PdfText(files[i].reading) != [] ensures i in before + extra {
        if i < |init| {
          assert init[i] == files[i];
          assert i in before;
        } else {
          assert (before + extra)[|before|] == i;
        }
      }
    }
  }

  /** Document `k` is the document of the `k`-th file with text. */
  lemma {:induction false} DocumentsIndexed(files: seq<PdfFile>, digest: string -> string, timestamp: string)
    ensures var idx := WithTextIndices(files);
      |Documents(files, digest, timestamp)| == |idx|
      && forall k :: 0 <= k < |idx| ==>
           Documents(files, digest, timestamp)[k] == DocumentFor(files[idx[k]], PdfText(files[idx[k]].reading), digest, timestamp)
  {
    if files != [] {
      var init, last := files[..|files| - 1], files[|files| - 1];
      DocumentsIndexed(init, digest, timestamp);
      var before, docs := WithTextIndices(init), Documents(init, digest, timestamp);
      var extra := if PdfText(last.reading) != [] then [|files| - 1] else [];
      var tail := if PdfText(last.reading) != [] then [DocumentFor(last, PdfText(last.reading), digest, timestamp)] else [];
      assert Documents(files, digest, timestamp) == docs + tail;
      assert WithTextIndices(files) == before + extra;
      forall k | 0 <= k < |before|
        ensures (docs + tail)[k] == DocumentFor(files[(before + extra)[k]], PdfText(files[(before + extra)[k]].reading), digest, timestamp)
      {
        var i := before[k];
        assert (before + extra)[k] == i && (docs + tail)[k] == docs[k];
        assert files[i] == init[i];
      }
    }
  }

  /** The skip rule: the documents are those of the PDFs with text, in folder
      order, one each, and there is none for the other PDFs; each holds its
      PDF's text, name-based title and category. */
  lemma DocumentsSkipRule(files: seq<PdfFile>, digest: string -> string, timestamp: string)
    ensures var idx := WithTextIndices(files);
      |Documents(files, digest, timestamp)| == |idx|
      && forall k :: 0 <= k < |idx| ==>
           Documents(files, digest, timestamp)[k] == DocumentFor(files[idx[k]], PdfText(files[idx[k]].reading), digest, timestamp)
    ensures forall i :: 0 <= i < |files| && PdfText(files[i].reading) != [] ==> i in WithTextIndices(files)
    ensures |Documents(files, digest, timestamp)| == CountWithText(files)
    ensures forall k :: 0 <= k < |Documents(files, digest, timestamp)| ==>
      exists j :: (0 <= j < |files| && PdfText(files[j].reading) != []
        && Documents(files, digest, timestamp)[k] == DocumentFor(files[j], PdfText(files[j].reading), digest, timestamp))
  {
    DocumentsIndexed(files, digest, timestamp);
    WithTextComplete(files);
    var docs, idx := Documents(files, digest, timestamp), WithTextIndices(files);
    forall k | 0 <= k < |docs|
      ensures exists j :: (0 <= j < |files| && PdfText(files[j].reading) != []
        && docs[k] == DocumentFor(files[j], PdfText(files[j].reading), digest, timestamp))
    {
      var j := idx[k];
      assert docs[k] == DocumentFor(files[j], PdfText(files[j].reading), digest, timestamp);
    }
  }

  /** Every PDF with text gives a document: the one for the last file is last. */
  lemma DocumentsKeepLast(files: seq<PdfFile>, f: PdfFile, digest: string -> string, timestamp: string)
    requires PdfText(f.reading) != []
    ensures var docs := Documents(files + [f], digest, timestamp);
      docs != [] && docs[|docs| - 1] == DocumentFor(f, PdfText(f.reading), digest, timestamp)
  {
    assert (files + [f])[..|files|] == files;
  }

  /** The document's file name, `<id>.json`. */
  function OutputName(doc: Document): string {
    doc.id + ".json"
  }

  /** Two PDFs whose names clean up to the same title get the same id, so
      their single-document files have the same name and the later one
      overwrites the earlier. */
  lemma IdCollision(f: PdfFile, g: PdfFile, t1: string, t2: string, digest: string -> string, timestamp: string)
    requires CleanTitle(f.name) == CleanTitle(g.name)
    ensures DocumentFor(f, t1, digest, timestamp).id == DocumentFor(g, t2, digest, timestamp).id
    ensures OutputName(DocumentFor(f, t1, digest, timestamp)) == OutputName(DocumentFor(g, t2, digest, timestamp))
  {
  }

  /** One more file extends the documents by that file's document, if it has text. */
  lemma DocumentsStep(files: seq<PdfFile>, i: nat, digest: string -> string, timestamp: string)
    requires i < |files|
    ensures Documents(files[..i + 1], digest, timestamp) == Documents(files[..i], digest, timestamp)
      + (if PdfText(files[i].reading) != [] then [DocumentFor(files[i], PdfText(files[i].reading), digest, timestamp)] else [])
  {
    assert files[..i + 1][..i] == files[..i] && files[..i + 1][i] == files[i];
  }

  /** The loop of `main` over the PDFs: a document is appended for each PDF
      whose text is not empty. */
  method ExtractDocuments(files: seq<PdfFile>, digest: string -> string, timestamp: string)
    returns (documents: seq<Document>)
    ensures documents == Documents(files, digest, timestamp)
  {
    documents := [];
    var i := 0;
    while i < |files|
      invariant 0 <= i <= |files|
      invariant documents == Documents(files[..i], digest, timestamp)
    {
      var f := files[i];
      DocumentsStep(files, i, digest, timestamp);
      var text := ExtractPdfText(f.reading);
      if text != [] {
        documents := documents + [DocumentFor(f, text, digest, timestamp)];
      }
      i := i + 1;
    }
    assert files[..|files|] == files;
  }
}
