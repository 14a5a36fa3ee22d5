/** The parts of Python's `str` that the modelled code relies on, written out:
    whitespace as `str.isspace` defines it, `strip`, `startswith`, `in`,
    `replace`, `split`, `join`, `lower` and `str(n)` for a natural number. */
module PyText {
  import opened Wrappers

  /** `c.isspace()`: the characters CPython treats as whitespace. The same set is
      used by `str.strip()`, `str.split()` and the `\s` class of `re` on `str`. */
  predicate IsSpace(c: char) {
    || c == ' '
    || ('\t' <= c <= '\r')
    || ('\U{001C}' <= c <= '\U{001F}')
    || c == '\U{0085}' || c == '\U{00A0}' || c == '\U{1680}'
    || ('\U{2000}' <= c <= '\U{200A}')
    || c == '\U{2028}' || c == '\U{2029}' || c == '\U{202F}' || c == '\U{205F}'
    || c == '\U{3000}'
  }

  /** Whitespace other than the line break. */
  predicate IsInlineSpace(c: char) {
    IsSpace(c) && c != '\n'
  }

  /** `s.lstrip()`. */
  function LStrip(s: string): (r: string)
    ensures |r| <= |s|
  {
    if s != [] && IsSpace(s[0]) then LStrip(s[1..]) else s
  }

  /** `s.rstrip()`. */
  function RStrip(s: string): (r: string)
    ensures |r| <= |s|
  {
    if s != [] && IsSpace(s[|s| - 1]) then RStrip(s[..|s| - 1]) else s
  }

  /** `lstrip` removes the leading whitespace and nothing else. */
  lemma {:induction false} LStripFacts(s: string)
    ensures LStrip(s) == s[|s| - |LStrip(s)|..]
    ensures LStrip(s) == [] || !IsSpace(LStrip(s)[0])
    ensures forall i :: 0 <= i < |s| - |LStrip(s)| ==> IsSpace(s[i])
  {
    if s != [] && IsSpace(s[0]) {
      LStripFacts(s[1..]);
    }
  }

  /** `rstrip` removes the trailing whitespace and nothing else. */
  lemma {:induction false} RStripFacts(s: string)
    ensures RStrip(s) == s[..|RStrip(s)|]
    ensures RStrip(s) == [] || !IsSpace(RStrip(s)[|RStrip(s)| - 1])
    ensures forall i :: |RStrip(s)| <= i < |s| ==> IsSpace(s[i])
  {
    if s != [] && IsSpace(s[|s| - 1]) {
      RStripFacts(s[..|s| - 1]);
      assert s[..|s| - 1][..|RStrip(s)|] == s[..|RStrip(s)|];
    }
  }

  /** How many characters `s.lstrip()` removes: the length of the whitespace
      run that starts `s`, which is also what a greedy `\s*` matches there. */
  function LeadingSpace(s: string): (n: nat)
    ensures n <= |s|
    ensures forall i :: 0 <= i < n ==> IsSpace(s[i])
    ensures n < |s| ==> !IsSpace(s[n])
  {
    LStripFacts(s);
    assert |LStrip(s)| > 0 ==> LStrip(s)[0] == s[|s| - |LStrip(s)|];
    |s| - |LStrip(s)|
  }

  /** `s.strip()`. */
  function Strip(s: string): (r: string)
    ensures |r| <= |s|
  {
    RStrip(LStrip(s))
  }

  /** `strip` gives a slice of `s` that neither starts nor ends with whitespace,
      outside of which there is only whitespace. */
  lemma StripFacts(s: string)
    ensures LeadingSpace(s) + |Strip(s)| <= |s|
    ensures Strip(s) == s[LeadingSpace(s)..LeadingSpace(s) + |Strip(s)|]
    ensures Strip(s) == [] || (!IsSpace(Strip(s)[0]) && !IsSpace(Strip(s)[|Strip(s)| - 1]))
    ensures forall i :: 0 <= i < LeadingSpace(s) ==> IsSpace(s[i])
    ensures forall i :: LeadingSpace(s) + |Strip(s)| <= i < |s| ==> IsSpace(s[i])
  {
    var l := LStrip(s);
    LStripFacts(s);
    RStripFacts(l);
    var k, r := LeadingSpace(s), RStrip(l);
    assert l == s[k..];
    assert r == l[..|r|];
    assert s[k..][..|r|] == s[k..k + |r|];
    forall i | k + |r| <= i < |s| ensures IsSpace(s[i]) {
      assert s[i] == l[i - k];
    }
  }

  /** A string that is already stripped is left as it is. */
  lemma StripStripped(s: string)
    requires s == [] || (!IsSpace(s[0]) && !IsSpace(s[|s| - 1]))
    ensures Strip(s) == s
  {
    StripFacts(s);
  }

  /** The stripped text is empty exactly when the input is all whitespace. */
  lemma StripEmpty(s: string)
    ensures Strip(s) == [] <==> forall i :: 0 <= i < |s| ==> IsSpace(s[i])
  {
    StripFacts(s);
    if Strip(s) != [] {
      var k := LeadingSpace(s);
      assert s[k] == Strip(s)[0];
    }
  }

  /** `s.startswith(p)`. */
  predicate StartsWith(s: string, p: string) {
    |p| <= |s| && s[..|p|] == p
  }

  /** `p in s`: `p` occurs in `s` as a contiguous substring. */
  predicate Contains(s: string, p: string)
    decreases |s|
  {
    |p| <= |s| && (s[..|p|] == p || Contains(s[1..], p))
  }

  /** The index of the first `c` in `s` (`s.find(c)` when it is not -1). */
  function IndexOf(s: string, c: char): (r: Option<nat>)
    ensures r.None? <==> c !in s
    ensures r.Some? ==> r.value < |s| && s[r.value] == c && c !in s[..r.value]
  {
    if s == [] then None
    else if s[0] == c then Some(0)
    else match IndexOf(s[1..], c)
      case None => None
      case Some(i) => assert s[..i + 1] == [s[0]] + s[1..][..i]; Some(i + 1)
  }

  /** The first occurrence of `c` in `a + b` is the first in `a` if `a` has one,
      and otherwise the first in `b`, shifted by `|a|`. */
  lemma {:induction false} IndexOfAppend(a: string, b: string, c: char)
    ensures IndexOf(a + b, c) ==
      if c in a then IndexOf(a, c)
      else match IndexOf(b, c)
        case None => None
        case Some(i) => Some(|a| + i)
  {
    if a == [] {
      assert a + b == b;
    } else {
      assert (a + b)[1..] == a[1..] + b;
      IndexOfAppend(a[1..], b, c);
    }
  }

  /** `s.split(sep)` for a one-character separator: never empty, no piece holds `sep`. */
  function Split(s: string, sep: char): (r: seq<string>)
    ensures |r| >= 1
    ensures forall k :: 0 <= k < |r| ==> sep !in r[k]
    decreases |s|
  {
    match IndexOf(s, sep)
    case None => [s]
    case Some(i) => [s[..i]] + Split(s[i + 1..], sep)
  }

  /** `sep.join(parts)`. */
  function Join(parts: seq<string>, sep: string): string
  {
    if |parts| == 0 then ""
    else if |parts| == 1 then parts[0]
    else parts[0] + sep + Join(parts[1..], sep)
  }

  /** Joining the pieces of a split with the separator gives back the text. */
  lemma {:induction false} JoinSplit(s: string, sep: char)
    ensures Join(Split(s, sep), [sep]) == s
    decreases |s|
  {
    match IndexOf(s, sep)
    case None =>
    case Some(i) =>
      var rest := Split(s[i + 1..], sep);
      JoinSplit(s[i + 1..], sep);
      assert Split(s, sep) == [s[..i]] + rest;
      assert s == s[..i] + [sep] + s[i + 1..];
  }

  /** `Join` over a list that grows at its end. */
  lemma {:induction false} JoinSnoc(parts: seq<string>, x: string, sep: string)
    ensures Join(parts + [x], sep) == if parts == [] then x else Join(parts, sep) + sep + x
    decreases |parts|
  {
    if |parts| > 1 {
      assert (parts + [x])[1..] == parts[1..] + [x];
      JoinSnoc(parts[1..], x, sep);
    } else if |parts| == 1 {
      assert parts + [x] == [parts[0], x];
    }
  }

  /** Every character of a join is in one of the parts or in the separator. */
  lemma {:induction false} JoinChars(parts: seq<string>, sep: string, c: char)
    requires c in Join(parts, sep)
    ensures c in sep || exists k :: 0 <= k < |parts| && c in parts[k]
    decreases |parts|
  {
    if |parts| > 1 {
      var rest := Join(parts[1..], sep);
      if c !in parts[0] && c !in sep {
        assert c in rest;
        JoinChars(parts[1..], sep, c);
        var k :| 0 <= k < |parts[1..]| && c in parts[1..][k];
        assert c in parts[k + 1];
      } else if c in parts[0] {
        assert c in parts[0];
      }
    } else if |parts| == 1 {
      assert c in parts[0];
    }
  }

  /** The length of the run of non-whitespace characters that starts `s`. */
  function WordLength(s: string): (n: nat)
    ensures n <= |s|
    ensures forall i :: 0 <= i < n ==> !IsSpace(s[i])
    ensures n < |s| ==> IsSpace(s[n])
  {
    if s == [] || IsSpace(s[0]) then 0 else 1 + WordLength(s[1..])
  }

  /** `s.split()`: the maximal runs of non-whitespace characters, in order. */
  function Words(s: string): (r: seq<string>)
    ensures forall k :: 0 <= k < |r| ==> r[k] != [] && forall i :: 0 <= i < |r[k]| ==> !IsSpace(r[k][i])
    decreases |s|
  {
    var t := LStrip(s);
    LStripFacts(s);
    if t == [] then []
    else
      var n := WordLength(t);
      [t[..n]] + Words(t[n..])
  }

  /** `' '.join(s.split())`: runs of whitespace become one space, none at either end.
      The only whitespace left is the plain space; no two spaces are adjacent. */
  function SingleSpaced(s: string): (r: string)
    ensures r == [] || (r[0] != ' ' && r[|r| - 1] != ' ')
    ensures forall i :: 0 <= i < |r| && IsSpace(r[i]) ==> r[i] == ' '
    ensures forall i :: 0 <= i < |r| - 1 ==> !(r[i] == ' ' && r[i + 1] == ' ')
  {
    JoinWordsSpaced(Words(s));
    Join(Words(s), " ")
  }

  /** The words of `s` are made of characters of `s`. */
  lemma {:induction false} WordsChars(s: string, c: char)
    ensures forall k :: 0 <= k < |Words(s)| && c in Words(s)[k] ==> c in s
    decreases |s|
  {
    var t := LStrip(s);
    LStripFacts(s);
    if t != [] {
      var n := WordLength(t);
      WordsChars(t[n..], c);
      assert Words(s) == [t[..n]] + Words(t[n..]);
      forall k | 0 <= k < |Words(s)| && c in Words(s)[k] ensures c in s {
        if k == 0 {
          assert c in t[..n];
        } else {
          assert Words(s)[k] == Words(t[n..])[k - 1];
          assert c in t[n..];
        }
        assert c in t;
      }
    }
  }

  /** `' '.join(s.split())` adds no character but the space. */
  lemma SingleSpacedChars(s: string, c: char)
    requires c in SingleSpaced(s)
    ensures c == ' ' || c in s
  {
    JoinChars(Words(s), " ", c);
    WordsChars(s, c);
  }

  lemma {:induction false} JoinWordsSpaced(ws: seq<string>)
    requires forall k :: 0 <= k < |ws| ==> ws[k] != [] && forall i :: 0 <= i < |ws[k]| ==> !IsSpace(ws[k][i])
    ensures var r := Join(ws, " ");
      && (r == [] || (r[0] != ' ' && r[|r| - 1] != ' '))
      && (forall i :: 0 <= i < |r| && IsSpace(r[i]) ==> r[i] == ' ')
      && (forall i :: 0 <= i < |r| - 1 ==> !(r[i] == ' ' && r[i + 1] == ' '))
    decreases |ws|
  {
    if |ws| > 1 {
      JoinWordsSpaced(ws[1..]);
      var w, rest := ws[0], Join(ws[1..], " ");
      var r := w + " " + rest;
      assert r == Join(ws, " ");
      assert rest != [] by { assert ws[1..][0] != []; JoinHead(ws[1..], " "); }
      forall i | 0 <= i < |r| && IsSpace(r[i]) ensures r[i] == ' ' {
        if i > |w| { assert r[i] == rest[i - |w| - 1]; }
      }
      forall i | 0 <= i < |r| - 1 ensures !(r[i] == ' ' && r[i + 1] == ' ') {
        if i + 1 < |w| { assert r[i + 1] == w[i + 1]; }
        else if i + 1 == |w| { assert r[i] == w[|w| - 1]; }
        else if i == |w| { assert r[i + 1] == rest[0]; }
        else { assert r[i] == rest[i - |w| - 1] && r[i + 1] == rest[i - |w|]; }
      }
    } else if |ws| == 1 {
      assert Join(ws, " ") == ws[0];
    }
  }

  /** A join of a non-empty list starts with its first part. */
  lemma JoinHead(parts: seq<string>, sep: string)
    requires parts != [] && parts[0] != []
    ensures Join(parts, sep) != [] && Join(parts, sep)[0] == parts[0][0]
  {
  }

  /** The first pattern of `pats` that starts `s`, if any. */
  function FirstPrefix(s: string, pats: seq<string>): (r: Option<string>)
    ensures r.Some? ==> r.value in pats && StartsWith(s, r.value)
    ensures r.None? ==> forall k :: 0 <= k < |pats| ==> !StartsWith(s, pats[k])
  {
    if pats == [] then None
    else if StartsWith(s, pats[0]) then Some(pats[0])
    else FirstPrefix(s, pats[1..])
  }

  /** A left-to-right scan that replaces every non-overlapping occurrence of one of
      `pats` by `rep`: `str.replace` for one pattern, `re.sub` for a literal
      alternation such as `</?figure>`. */
  function ReplaceAny(s: string, pats: seq<string>, rep: string): (r: string)
    requires forall k :: 0 <= k < |pats| ==> pats[k] != []
    ensures (forall k :: 0 <= k < |pats| ==> |rep| <= |pats[k]|) ==> |r| <= |s|
    decreases |s|
  {
    if s == [] then []
    else match FirstPrefix(s, pats)
      case Some(p) => rep + ReplaceAny(s[|p|..], pats, rep)
      case None => [s[0]] + ReplaceAny(s[1..], pats, rep)
  }

  /** `s.replace(pat, rep)`. */
  function Replace(s: string, pat: string, rep: string): (r: string)
    requires pat != []
    ensures |rep| <= |pat| ==> |r| <= |s|
  {
    ReplaceAny(s, [pat], rep)
  }

  /** Replacing one character by another leaves no occurrence of the first. */
  lemma {:induction false} ReplaceCharGone(s: string, a: char, b: char)
    requires a != b
    ensures a !in Replace(s, [a], [b])
    ensures |Replace(s, [a], [b])| == |s|
    ensures forall i :: 0 <= i < |s| ==> Replace(s, [a], [b])[i] == if s[i] == a then b else s[i]
    decreases |s|
  {
    if s != [] {
      ReplaceCharGone(s[1..], a, b);
    }
  }

  /** `c.lower()` for the letters of ASCII and of Latin-1 (so `Ø` becomes `ø`). */
  function LowerChar(c: char): char {
    if 'A' <= c <= 'Z' then (c as int + 32) as char
    else if ('\U{00C0}' <= c <= '\U{00DE}') && c != '\U{00D7}' then (c as int + 32) as char
    else c
  }

  /** `s.lower()`, character by character. */
  function Lower(s: string): (r: string)
    ensures |r| == |s| && forall i :: 0 <= i < |s| ==> r[i] == LowerChar(s[i])
  {
    seq(|s|, i requires 0 <= i < |s| => LowerChar(s[i]))
  }

  /** The decimal digit for `d < 10`. */
  function Digit(d: nat): (c: char)
    requires d < 10
    ensures '0' <= c <= '9'
  {
    ('0' as int + d) as char
  }

  /** `str(n)` for a natural number: its decimal digits, most significant first. */
  function NatToString(n: nat): (r: string)
    ensures r != [] && forall i :: 0 <= i < |r| ==> '0' <= r[i] <= '9'
  {
    if n < 10 then [Digit(n)] else NatToString(n / 10) + [Digit(n % 10)]
  }

  /** Python's `string.digits` test for one character (`\d` on ASCII text). */
  predicate IsDigit(c: char) {
    '0' <= c <= '9'
  }
}
