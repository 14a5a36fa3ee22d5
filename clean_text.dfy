/** `clean_text` of scripts/deploy/extract-pdf-content.py: an optional HTML
    clean-up (comments, table markup and remaining tags removed, five entities
    decoded), then whitespace normalisation (runs of spaces and tabs become one
    space, three or more line breaks become two, every line is stripped, and so
    is the whole text).

    Each regular expression is written out as the left-to-right scan `re.sub`
    performs for it. */
module CleanText {
  import opened Wrappers
  import opened PyText

  // ---------------------------------------------------------------------------
  // The properties of the result.

  /** A space or a tab: the class `[ \t]`. */
  predicate IsBlank(c: char) {
    c == ' ' || c == '\t'
  }

  /** No two spaces stand next to each other. */
  predicate NoDoubleSpace(s: string) {
    forall i :: 0 <= i < |s| - 1 ==> !(s[i] == ' ' && s[i + 1] == ' ')
  }

  /** Whitespace never touches a line break from either side: every line of the
      text is free of leading and trailing whitespace, except that the first
      line may start with it and the last may end with it. */
  predicate LinesTrimmed(s: string) {
    forall i :: 0 <= i < |s| ==> BreakTrimmedAt(s, i)
  }

  /** If position `i` holds a line break, no whitespace other than a line
      break stands right before or right after it. */
  predicate BreakTrimmedAt(s: string, i: nat)
    requires i < |s|
  {
    s[i] == '\n' ==> (i == 0 || !IsInlineSpace(s[i - 1])) && (i == |s| - 1 || !IsInlineSpace(s[i + 1]))
  }

  /** Three line breaks never follow one another. */
  predicate NoTripleNewline(s: string) {
    forall i :: 0 <= i < |s| - 2 ==> !(s[i] == '\n' && s[i + 1] == '\n' && s[i + 2] == '\n')
  }

  lemma NoDoubleSpaceSlice(s: string, a: nat, b: nat)
    requires a <= b <= |s| && NoDoubleSpace(s)
    ensures NoDoubleSpace(s[a..b])
  {
    forall i | 0 <= i < b - a - 1 ensures !(s[a..b][i] == ' ' && s[a..b][i + 1] == ' ') {
      assert s[a..b][i] == s[a + i] && s[a..b][i + 1] == s[a + i + 1];
    }
  }

  lemma LinesTrimmedSlice(s: string, a: nat, b: nat)
    requires a <= b <= |s| && LinesTrimmed(s)
    ensures LinesTrimmed(s[a..b])
  {
    var t := s[a..b];
    forall i | 0 <= i < |t| ensures BreakTrimmedAt(t, i) {
      assert BreakTrimmedAt(s, a + i);
      assert t[i] == s[a + i];
      if i > 0 { assert t[i - 1] == s[a + i - 1]; }
      if i < |t| - 1 { assert t[i + 1] == s[a + i + 1]; }
    }
  }

  lemma NoDoubleSpaceConcat(a: string, b: string)
    requires NoDoubleSpace(a) && NoDoubleSpace(b)
    requires a == [] || b == [] || a[|a| - 1] != ' ' || b[0] != ' '
    ensures NoDoubleSpace(a + b)
  {
    var s := a + b;
    forall i | 0 <= i < |s| - 1 ensures !(s[i] == ' ' && s[i + 1] == ' ') {
      if i + 1 < |a| {
        assert s[i] == a[i] && s[i + 1] == a[i + 1];
      } else if i + 1 == |a| {
        assert s[i] == a[|a| - 1] && s[i + 1] == b[0];
      } else {
        assert s[i] == b[i - |a|] && s[i + 1] == b[i - |a| + 1];
      }
    }
  }

  // ---------------------------------------------------------------------------
  // `re.sub(r'[ \t]+', ' ', text)`

  /** The length of the run of spaces and tabs that starts `s`. */
  function BlankRun(s: string): (n: nat)
    ensures n <= |s|
    ensures forall i :: 0 <= i < n ==> IsBlank(s[i])
    ensures n < |s| ==> !IsBlank(s[n])
  {
    if s != [] && IsBlank(s[0]) then 1 + BlankRun(s[1..]) else 0
  }

  /** Every run of spaces and tabs becomes a single space. */
  function CollapseBlanks(s: string): (r: string)
    ensures |r| <= |s|
    decreases |s|
  {
    if s == [] then []
    else if IsBlank(s[0]) then " " + CollapseBlanks(s[BlankRun(s)..])
    else [s[0]] + CollapseBlanks(s[1..])
  }

  /** After collapsing there is no tab and no double space; the first character
      is a space exactly where a blank run started, and is kept otherwise. */
  lemma {:induction false} CollapseBlanksFacts(s: string)
    ensures var r := CollapseBlanks(s);
      && '\t' !in r && NoDoubleSpace(r)
      && (s == [] <==> r == [])
      && (s != [] && IsBlank(s[0]) ==> r[0] == ' ')
      && (s != [] && !IsBlank(s[0]) ==> r[0] == s[0])
    decreases |s|
  {
    if s != [] {
      var t := if IsBlank(s[0]) then s[BlankRun(s)..] else s[1..];
      CollapseBlanksFacts(t);
      var head := if IsBlank(s[0]) then " " else [s[0]];
      assert CollapseBlanks(s) == head + CollapseBlanks(t);
      NoDoubleSpaceConcat(head, CollapseBlanks(t));
    }
  }

  // ---------------------------------------------------------------------------
  // `re.sub(r'\n{3,}', '\n\n', text)`

  /** The length of the run of line breaks that starts `s`. */
  function NewlineRun(s: string): (n: nat)
    ensures n <= |s|
    ensures forall i :: 0 <= i < n ==> s[i] == '\n'
    ensures n < |s| ==> s[n] != '\n'
  {
    if s != [] && s[0] == '\n' then 1 + NewlineRun(s[1..]) else 0
  }

  /** Every run of three or more line breaks becomes two; shorter runs stay. */
  function CollapseNewlines(s: string): (r: string)
    ensures |r| <= |s|
    decreases |s|
  {
    if s == [] then []
    else if s[0] == '\n' then
      var n := NewlineRun(s);
      (if n >= 3 then "\n\n" else s[..n]) + CollapseNewlines(s[n..])
    else [s[0]] + CollapseNewlines(s[1..])
  }

  /** One step of `CollapseNewlines`: the piece that replaces the first run
      (or the first character), and where the rest starts. */
  function NewlineStepLength(s: string): (n: nat)
    requires s != []
    ensures 1 <= n <= |s|
    ensures s[0] == '\n' ==> forall i :: 0 <= i < n ==> s[i] == '\n'
    ensures n < |s| && s[0] == '\n' ==> s[n] != '\n'
  {
    if s[0] == '\n' then NewlineRun(s) else 1
  }

  function NewlineStepHead(s: string): (h: string)
    requires s != []
    ensures 1 <= |h| <= 2 && h[0] == s[0]
    ensures s[0] != '\n' ==> h == [s[0]]
    ensures s[0] == '\n' ==> forall i :: 0 <= i < |h| ==> h[i] == '\n'
  {
    var n := NewlineStepLength(s);
    if s[0] != '\n' then [s[0]] else if n >= 3 then "\n\n" else s[..n]
  }

  lemma NewlineStep(s: string)
    requires s != []
    ensures CollapseNewlines(s) == NewlineStepHead(s) + CollapseNewlines(s[NewlineStepLength(s)..])
  {
  }

  /** The first character is kept, and nothing else is lost from an empty text. */
  lemma CollapseNewlinesStart(s: string)
    ensures s == [] <==> CollapseNewlines(s) == []
    ensures s != [] ==> CollapseNewlines(s)[0] == s[0]
  {
    if s != [] {
      NewlineStep(s);
    }
  }

  /** After collapsing, no three line breaks follow one another. */
  lemma {:induction false} CollapseNewlinesNoTriple(s: string)
    ensures NoTripleNewline(CollapseNewlines(s))
    decreases |s|
  {
    if s != [] {
      var n := NewlineStepLength(s);
      var head, t := NewlineStepHead(s), s[n..];
      NewlineStep(s);
      CollapseNewlinesNoTriple(t);
      CollapseNewlinesStart(t);
      var rest := CollapseNewlines(t);
      var r := head + rest;
      assert s[0] == '\n' ==> rest == [] || rest[0] != '\n';
      forall i | 0 <= i < |r| - 2 ensures !(r[i] == '\n' && r[i + 1] == '\n' && r[i + 2] == '\n') {
        if i >= |head| {
          assert r[i] == rest[i - |head|] && r[i + 1] == rest[i - |head| + 1] && r[i + 2] == rest[i - |head| + 2];
        } else if s[0] != '\n' {
          assert r[0] == s[0];
        } else {
          assert r[|head|] == rest[0];
        }
      }
    }
  }

  /** Only line breaks are removed or added: an absent tab stays absent and
      no double space appears. */
  lemma {:induction false} CollapseNewlinesKeeps(s: string)
    requires '\t' !in s && NoDoubleSpace(s)
    ensures '\t' !in CollapseNewlines(s) && NoDoubleSpace(CollapseNewlines(s))
    decreases |s|
  {
    if s != [] {
      var n := NewlineStepLength(s);
      var head, t := NewlineStepHead(s), s[n..];
      NewlineStep(s);
      assert forall i :: 0 <= i < |t| ==> t[i] == s[n + i];
      NoDoubleSpaceSlice(s, n, |s|);
      CollapseNewlinesKeeps(t);
      assert '\t' !in head;
      NoDoubleSpaceConcat(head, CollapseNewlines(t));
    }
  }

  // ---------------------------------------------------------------------------
  // `'\n'.join(line.strip() for line in text.split('\n'))`, then `.strip()`

  /** Each line stripped. */
  function StripEach(lines: seq<string>): (r: seq<string>)
    ensures |r| == |lines| && forall k :: 0 <= k < |lines| ==> r[k] == Strip(lines[k])
  {
    seq(|lines|, k requires 0 <= k < |lines| => Strip(lines[k]))
  }

  /** Every line stripped of its leading and trailing whitespace. */
  function TrimLines(s: string): string {
    Join(StripEach(Split(s, '\n')), "\n")
  }

  /** A line that joins well: no line break in it, no whitespace at its ends,
      no double space and no tab. */
  predicate TidyLine(l: string) {
    && '\n' !in l && '\t' !in l && NoDoubleSpace(l)
    && (l == [] || (!IsSpace(l[0]) && !IsSpace(l[|l| - 1])))
  }

  /** The pieces of a split have no double space and no tab when the text has none. */
  lemma {:induction false} SplitKeeps(s: string)
    requires NoDoubleSpace(s) && '\t' !in s
    ensures forall k :: 0 <= k < |Split(s, '\n')| ==>
      NoDoubleSpace(Split(s, '\n')[k]) && '\t' !in Split(s, '\n')[k]
    decreases |s|
  {
    match IndexOf(s, '\n')
    case None =>
    case Some(i) =>
      var line, rest := s[..i], s[i + 1..];
      NoDoubleSpaceSlice(s, 0, i);
      NoDoubleSpaceSlice(s, i + 1, |s|);
      TabFreeSlice(s, 0, i);
      TabFreeSlice(s, i + 1, |s|);
      SplitKeeps(rest);
      var pieces := Split(s, '\n');
      assert pieces == [line] + Split(rest, '\n');
      forall k | 0 <= k < |pieces| ensures NoDoubleSpace(pieces[k]) && '\t' !in pieces[k] {
        if k > 0 {
          assert pieces[k] == Split(rest, '\n')[k - 1];
        }
      }
  }

  /** A slice of a text with no tab has none. */
  lemma TabFreeSlice(s: string, a: nat, b: nat)
    requires a <= b <= |s| && '\t' !in s
    ensures '\t' !in s[a..b]
  {
    assert forall j :: 0 <= j < b - a ==> s[a..b][j] == s[a + j];
  }

  /** Stripping a piece of a split gives a tidy line. */
  lemma StripTidy(l: string)
    requires '\n' !in l && '\t' !in l && NoDoubleSpace(l)
    ensures TidyLine(Strip(l))
  {
    StripFacts(l);
    var a := LeadingSpace(l);
    NoDoubleSpaceSlice(l, a, a + |Strip(l)|);
    assert forall j :: 0 <= j < |Strip(l)| ==> Strip(l)[j] == l[a + j];
  }

  /** Tidy lines joined with line breaks: no tab, no double space, whitespace
      never next to a break, and neither end is inline whitespace. */
  lemma {:induction false} JoinTidy(ls: seq<string>)
    requires forall k :: 0 <= k < |ls| ==> TidyLine(ls[k])
    ensures var r := Join(ls, "\n");
      && '\t' !in r && NoDoubleSpace(r) && LinesTrimmed(r)
      && (r == [] || (!IsInlineSpace(r[0]) && !IsInlineSpace(r[|r| - 1])))
    decreases |ls|
  {
    if |ls| == 1 {
      assert Join(ls, "\n") == ls[0];
    } else if |ls| > 1 {
      var l, rest := ls[0], Join(ls[1..], "\n");
      JoinTidy(ls[1..]);
      assert TidyLine(l);
      var r := l + "\n" + rest;
      assert r == Join(ls, "\n");
      assert r[|l|] == '\n';
      NoDoubleSpaceConcat(l, "\n");
      NoDoubleSpaceConcat(l + "\n", rest);
      forall i | 0 <= i < |r| ensures BreakTrimmedAt(r, i) {
        if i < |l| {
          assert r[i] == l[i];
        } else if i == |l| {
          if i > 0 { assert r[i - 1] == l[|l| - 1]; }
          if i < |r| - 1 { assert r[i + 1] == rest[0]; }
        } else {
          var j := i - |l| - 1;
          assert r[i] == rest[j];
          assert BreakTrimmedAt(rest, j);
          if j > 0 { assert r[i - 1] == rest[j - 1]; }
          if i < |r| - 1 { assert r[i + 1] == rest[j + 1]; }
        }
      }
      if r != [] {
        if l == [] { assert r[0] == '\n'; } else { assert r[0] == l[0]; }
        if rest == [] { assert r[|r| - 1] == '\n'; } else { assert r[|r| - 1] == rest[|rest| - 1]; }
      }
    }
  }

  /** The whitespace steps, in the order `clean_text` applies them. */
  function NormaliseWhitespace(s: string): string {
    Strip(TrimLines(CollapseNewlines(CollapseBlanks(s))))
  }

  /** Stripping every line of a text with no tab and no double space. */
  lemma TrimLinesFacts(s: string)
    requires '\t' !in s && NoDoubleSpace(s)
    ensures var r := TrimLines(s);
      && '\t' !in r && NoDoubleSpace(r) && LinesTrimmed(r)
  {
    var pieces := Split(s, '\n');
    SplitKeeps(s);
    var lines := StripEach(pieces);
    forall k | 0 <= k < |lines| ensures TidyLine(lines[k]) {
      StripTidy(pieces[k]);
    }
    JoinTidy(lines);
  }

  /** The guarantees of the whitespace steps: the result starts and ends with no
      whitespace, whitespace never touches a line break, no tab is left and no
      two spaces are adjacent. */
  lemma NormaliseWhitespaceFacts(s: string)
    ensures var r := NormaliseWhitespace(s);
      && (r == [] || (!IsSpace(r[0]) && !IsSpace(r[|r| - 1])))
      && '\t' !in r && NoDoubleSpace(r) && LinesTrimmed(r)
  {
    var b := CollapseBlanks(s);
    CollapseBlanksFacts(s);
    var n := CollapseNewlines(b);
    CollapseNewlinesKeeps(b);
    var t := TrimLines(n);
    TrimLinesFacts(n);
    var r := Strip(t);
    StripFacts(t);
    var a := LeadingSpace(t);
    NoDoubleSpaceSlice(t, a, a + |r|);
    LinesTrimmedSlice(t, a, a + |r|);
    assert forall j :: 0 <= j < |r| ==> r[j] == t[a + j];
  }

  /** A single line whose ends are not blanks is its own `strip()`. */
  lemma PlainLineStripped(line: string)
    requires '\n' !in line
    requires line == [] || (!IsInlineSpace(line[0]) && !IsInlineSpace(line[|line| - 1]))
    ensures Strip(line) == line
  {
    if line != [] {
      assert line[0] in line && line[|line| - 1] in line;
    }
    StripStripped(line);
  }

  /** The text on either side of a line break of a trimmed text has no blank
      at its ends. */
  lemma BreakNeighbours(r: string, i: nat)
    requires LinesTrimmed(r)
    requires r == [] || (!IsInlineSpace(r[0]) && !IsInlineSpace(r[|r| - 1]))
    requires i < |r| && r[i] == '\n' && '\n' !in r[..i]
    ensures var line := r[..i]; '\n' !in line && (line == [] || (!IsInlineSpace(line[0]) && !IsInlineSpace(line[|line| - 1])))
    ensures var rest := r[i + 1..]; rest == [] || (!IsInlineSpace(rest[0]) && !IsInlineSpace(rest[|rest| - 1]))
  {
    assert BreakTrimmedAt(r, i);
    if i > 0 {
      assert r[..i][0] == r[0] && r[..i][i - 1] == r[i - 1];
    }
    if i + 1 < |r| {
      assert r[i + 1..][0] == r[i + 1] && r[i + 1..][|r| - i - 2] == r[|r| - 1];
    }
  }

  /** Read line by line, the text is already stripped: every piece of
      `r.split('\n')` equals its own `strip()`. */
  lemma {:induction false} LinesAreStripped(r: string)
    requires LinesTrimmed(r)
    requires r == [] || (!IsInlineSpace(r[0]) && !IsInlineSpace(r[|r| - 1]))
    ensures forall k :: 0 <= k < |Split(r, '\n')| ==> Strip(Split(r, '\n')[k]) == Split(r, '\n')[k]
    decreases |r|
  {
    match IndexOf(r, '\n')
    case None =>
      PlainLineStripped(r);
    case Some(i) =>
      var line, rest := r[..i], r[i + 1..];
      BreakNeighbours(r, i);
      PlainLineStripped(line);
      LinesTrimmedSlice(r, i + 1, |r|);
      assert r[i + 1..|r|] == rest;
      LinesAreStripped(rest);
      assert Split(r, '\n') == [line] + Split(rest, '\n');
      StrippedCons(line, Split(rest, '\n'));
  }

  /** A stripped line in front of stripped lines keeps every line stripped. */
  lemma StrippedCons(line: string, rest: seq<string>)
    requires Strip(line) == line
    requires forall k :: 0 <= k < |rest| ==> Strip(rest[k]) == rest[k]
    ensures forall k :: 0 <= k < |[line] + rest| ==> Strip(([line] + rest)[k]) == ([line] + rest)[k]
  {
    forall k | 0 <= k < |[line] + rest| ensures Strip(([line] + rest)[k]) == ([line] + rest)[k] {
      if k > 0 {
        assert ([line] + rest)[k] == rest[k - 1];
      }
    }
  }

  // ---------------------------------------------------------------------------
  // The HTML steps.

  /** The first index at which `p` occurs in `s`. */
  function FindText(s: string, p: string): (r: Option<nat>)
    requires p != []
    ensures r.Some? ==> r.value + |p| <= |s| && s[r.value..r.value + |p|] == p
    ensures r.Some? ==> forall k :: 0 <= k < r.value ==> !StartsWith(s[k..], p)
    ensures r.None? ==> forall k :: 0 <= k < |s| ==> !StartsWith(s[k..], p)
    decreases |s|
  {
    if |s| < |p| then None
    else if s[..|p|] == p then Some(0)
    else match FindText(s[1..], p)
      case None =>
        FindTextAbsent(s, p);
        None
      case Some(j) =>
        FindTextShift(s, p, j);
        Some(j + 1)
  }

  /** No match in `s[1..]` and none at the head of `s`: none anywhere in `s`. */
  lemma FindTextAbsent(s: string, p: string)
    requires |p| <= |s| && s[..|p|] != p
    requires forall k :: 0 <= k < |s| - 1 ==> !StartsWith(s[1..][k..], p)
    ensures forall k :: 0 <= k < |s| ==> !StartsWith(s[k..], p)
  {
    forall k | 0 < k < |s| ensures !StartsWith(s[k..], p) {
      assert s[k..] == s[1..][k - 1..];
    }
  }

  /** A match found in `s[1..]` at `j`, with none before it and none at the
      head of `s`, is the first match in `s`, at `j + 1`. */
  lemma FindTextShift(s: string, p: string, j: nat)
    requires |p| <= |s| && s[..|p|] != p
    requires j + |p| <= |s| - 1 && s[1..][j..j + |p|] == p
    requires forall k :: 0 <= k < j ==> !StartsWith(s[1..][k..], p)
    ensures s[j + 1..j + 1 + |p|] == p
    ensures forall k :: 0 <= k < j + 1 ==> !StartsWith(s[k..], p)
  {
    assert s[j + 1..j + 1 + |p|] == s[1..][j..j + |p|];
    forall k | 0 <= k < j + 1 ensures !StartsWith(s[k..], p) {
      if k > 0 {
        assert s[k..] == s[1..][k - 1..];
      }
    }
  }

  /** `re.sub(r'<!--.*?-->', '', text, flags=re.DOTALL)`: a comment runs from
      `<!--` to the first `-->` after it, across lines; an opening with no
      closing after it is kept. */
  function RemoveComments(s: string): (r: string)
    ensures |r| <= |s|
    decreases |s|
  {
    if s == [] then []
    else if StartsWith(s, "<!--") then
      match FindText(s[4..], "-->")
      case Some(j) => RemoveComments(s[4 + j + 3..])
      case None => [s[0]] + RemoveComments(s[1..])
    else [s[0]] + RemoveComments(s[1..])
  }

  /** `re.sub(r'<t[hd][^>]*>', '', text)`: an opening table cell, with any
      attributes, up to the first `>`. */
  function RemoveCellOpenings(s: string): (r: string)
    ensures |r| <= |s|
    decreases |s|
  {
    if s == [] then []
    else if StartsWith(s, "<th") || StartsWith(s, "<td") then
      match IndexOf(s[3..], '>')
      case Some(j) => RemoveCellOpenings(s[3 + j + 1..])
      case None => [s[0]] + RemoveCellOpenings(s[1..])
    else [s[0]] + RemoveCellOpenings(s[1..])
  }

  /** `re.sub(r'<[^>]+>', '', text)`: a `<`, at least one character other than
      `>`, and the first `>` after them. */
  function RemoveTags(s: string): (r: string)
    ensures |r| <= |s|
    decreases |s|
  {
    if s == [] then []
    else if s[0] == '<' then
      match IndexOf(s[1..], '>')
      case Some(j) => if j >= 1 then RemoveTags(s[j + 2..]) else "<" + RemoveTags(s[1..])
      case None => "<" + RemoveTags(s[1..])
    else [s[0]] + RemoveTags(s[1..])
  }

  /** Tag removal only removes characters. */
  lemma {:induction false} RemoveTagsChars(s: string, c: char)
    requires c !in s
    ensures c !in RemoveTags(s)
    decreases |s|
  {
    if s != [] {
      match IndexOf(s[1..], '>')
      case Some(j) =>
        if s[0] == '<' && j >= 1 { RemoveTagsChars(s[j + 2..], c); } else { RemoveTagsChars(s[1..], c); }
      case None => RemoveTagsChars(s[1..], c);
    }
  }

  /** Every `<` is `<>` or has no `>` anywhere after it: no `<...>` with
      something inside is left. */
  predicate NoTagLeft(r: string) {
    forall i :: 0 <= i < |r| && r[i] == '<' ==> (i + 1 < |r| && r[i + 1] == '>') || '>' !in r[i + 1..]
  }

  /** What tag removal leaves: no tag with something inside. */
  lemma {:induction false} RemoveTagsLeavesNoTag(s: string)
    ensures NoTagLeft(RemoveTags(s))
    ensures s != [] && s[0] != '<' ==> RemoveTags(s) != [] && RemoveTags(s)[0] == s[0]
    decreases |s|
  {
    if s != [] {
      var r := RemoveTags(s);
      var found := IndexOf(s[1..], '>');
      if s[0] == '<' && found.Some? && found.value >= 1 {
        assert r == RemoveTags(s[found.value + 2..]);
        RemoveTagsLeavesNoTag(s[found.value + 2..]);
      } else {
        var rest := RemoveTags(s[1..]);
        RemoveTagsLeavesNoTag(s[1..]);
        assert r == [s[0]] + rest;
        if s[0] == '<' {
          if found.Some? {
            assert s[1] == '>' && s[1..][0] == '>';
            assert rest[0] == '>';
          } else {
            RemoveTagsChars(s[1..], '>');
            assert r[1..] == rest;
          }
        }
        forall i | 0 <= i < |r| && r[i] == '<' ensures (i + 1 < |r| && r[i + 1] == '>') || '>' !in r[i + 1..] {
          if i > 0 {
            assert r[i] == rest[i - 1] && r[i + 1..] == rest[i..];
          } else {
            assert r[1..] == rest;
          }
        }
      }
    }
  }

  /** `ReplaceAny` leaves a text alone when every pattern starts with a
      character the text does not hold. */
  lemma {:induction false} ReplaceAnyAbsent(s: string, pats: seq<string>, rep: string, c: char)
    requires forall k :: 0 <= k < |pats| ==> pats[k] != [] && pats[k][0] == c
    requires c !in s
    ensures ReplaceAny(s, pats, rep) == s
    decreases |s|
  {
    if s != [] {
      ReplaceAnyAbsent(s[1..], pats, rep, c);
    }
  }

  lemma {:induction false} RemoveCommentsAbsent(s: string)
    requires '<' !in s
    ensures RemoveComments(s) == s
    decreases |s|
  {
    if s != [] {
      assert !StartsWith(s, "<!--") by { assert s[0] != '<'; }
      RemoveCommentsAbsent(s[1..]);
    }
  }

  lemma {:induction false} RemoveCellOpeningsAbsent(s: string)
    requires '<' !in s
    ensures RemoveCellOpenings(s) == s
    decreases |s|
  {
    if s != [] {
      assert !StartsWith(s, "<th") && !StartsWith(s, "<td") by { assert s[0] != '<'; }
      RemoveCellOpeningsAbsent(s[1..]);
    }
  }

  lemma {:induction false} RemoveTagsAbsent(s: string)
    requires '<' !in s
    ensures RemoveTags(s) == s
    decreases |s|
  {
    if s != [] {
      RemoveTagsAbsent(s[1..]);
    }
  }

  /** The markup clean-up, in the order `clean_text` applies it: comments;
      figure, table, thead and tbody tags; row openings removed and row endings
      turned into line breaks; cell openings removed and cell endings turned
      into tabs; then every remaining tag. */
  function RemoveMarkup(s: string): (r: string)
    ensures |r| <= |s|
  {
    var noComments := RemoveComments(s);
    var noFigures := ReplaceAny(noComments, ["<figure>", "</figure>"], "");
    var noTables := ReplaceAny(noFigures, ["<table>", "</table>"], "");
    var noHeads := ReplaceAny(noTables, ["<thead>", "</thead>"], "");
    var noBodies := ReplaceAny(noHeads, ["<tbody>", "</tbody>"], "");
    var rowsOpened := Replace(noBodies, "<tr>", "");
    var rowsEnded := Replace(rowsOpened, "</tr>", "\n");
    var cellsOpened := RemoveCellOpenings(rowsEnded);
    var cellsEnded := ReplaceAny(cellsOpened, ["</th>", "</td>"], "\t");
    RemoveTags(cellsEnded)
  }

  /** The five entity replacements, `&amp;` first. */
  function DecodeEntities(s: string): (r: string)
    ensures |r| <= |s|
  {
    var amp := Replace(s, "&amp;", "&");
    var lt := Replace(amp, "&lt;", "<");
    var gt := Replace(lt, "&gt;", ">");
    var nbsp := Replace(gt, "&nbsp;", " ");
    Replace(nbsp, "&quot;", "\"")
  }

  /** `clean_text(text, strip_html)`. */
  function Clean(text: string, stripHtml: bool): string {
    NormaliseWhitespace(if stripHtml then DecodeEntities(RemoveMarkup(text)) else text)
  }

  /** Whatever the input and the flag, the cleaned text has no whitespace at
      either end, no line with whitespace at either end, no tab and no two
      adjacent spaces. */
  lemma CleanFacts(text: string, stripHtml: bool)
    ensures var r := Clean(text, stripHtml);
      && (r == [] || (!IsSpace(r[0]) && !IsSpace(r[|r| - 1])))
      && '\t' !in r
      && NoDoubleSpace(r)
      && forall k :: 0 <= k < |Split(r, '\n')| ==> Strip(Split(r, '\n')[k]) == Split(r, '\n')[k]
  {
    var s := if stripHtml then DecodeEntities(RemoveMarkup(text)) else text;
    NormaliseWhitespaceFacts(s);
    LinesAreStripped(Clean(text, stripHtml));
  }

  /** A text with no `<` holds no markup, and the markup steps leave it alone. */
  lemma RemoveMarkupAbsent(s: string)
    requires '<' !in s
    ensures RemoveMarkup(s) == s
  {
    RemoveCommentsAbsent(s);
    ReplaceAnyAbsent(s, ["<figure>", "</figure>"], "", '<');
    ReplaceAnyAbsent(s, ["<table>", "</table>"], "", '<');
    ReplaceAnyAbsent(s, ["<thead>", "</thead>"], "", '<');
    ReplaceAnyAbsent(s, ["<tbody>", "</tbody>"], "", '<');
    ReplaceAnyAbsent(s, ["<tr>"], "", '<');
    ReplaceAnyAbsent(s, ["</tr>"], "\n", '<');
    RemoveCellOpeningsAbsent(s);
    ReplaceAnyAbsent(s, ["</th>", "</td>"], "\t", '<');
    RemoveTagsAbsent(s);
  }

  /** Entities are decoded after the markup steps and `&amp;` first, so an
      escaped entity comes out decoded too: `&amp;lt;` becomes `<`. */
  lemma AmpersandFirst()
    ensures DecodeEntities("&amp;lt;") == "<"
  {
    var s := "&amp;lt;";
    assert FirstPrefix(s, ["&amp;"]) == Some("&amp;");
    assert s[5..] == "lt;";
    ReplaceAnyAbsent("lt;", ["&amp;"], "&", '&');
    assert Replace(s, "&amp;", "&") == "&lt;";
    var t := "&lt;";
    assert FirstPrefix(t, ["&lt;"]) == Some("&lt;");
    assert t[4..] == [];
    assert Replace(t, "&lt;", "<") == "<";
    ReplaceAnyAbsent("<", ["&gt;"], ">", '&');
    ReplaceAnyAbsent("<", ["&nbsp;"], " ", '&');
    ReplaceAnyAbsent("<", ["&quot;"], "\"", '&');
  }

  /** The same through the whole of `clean_text` with `strip_html` set. */
  lemma AmpersandFirstCleaned()
    ensures Clean("&amp;lt;", true) == "<"
  {
    var s := "&amp;lt;";
    assert '<' !in s;
    RemoveMarkupAbsent(s);
    AmpersandFirst();
    LoneCharacterKept();
    CleanStripsHtml(s, DecodeEntities(s));
  }

  /** With `strip_html` set, the whitespace steps see the decoded text. */
  lemma CleanStripsHtml(text: string, decoded: string)
    requires decoded == DecodeEntities(RemoveMarkup(text))
    ensures Clean(text, true) == NormaliseWhitespace(decoded)
  {
  }

  /** A single character other than whitespace passes the whitespace steps. */
  lemma LoneCharacterKept()
    ensures NormaliseWhitespace("<") == "<"
  {
    assert CollapseBlanks("<") == "<";
    assert CollapseNewlines("<") == "<";
    assert Split("<", '\n') == ["<"];
    StripStripped("<");
    assert TrimLines("<") == "<";
  }
}
