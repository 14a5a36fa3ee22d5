/** `pathlib.PurePath.suffix` and `.stem` on a file name (the last path component). */
module PathNames {
  import opened Wrappers
  import opened PyText

  /** `name.rfind(c)` when it is not -1: the index of the last `c`. */
  function LastIndexOf(name: string, c: char): (r: Option<nat>)
    ensures r.None? <==> c !in name
    ensures r.Some? ==> r.value < |name| && name[r.value] == c && c !in name[r.value + 1..]
  {
    if name == [] then None
    else if name[|name| - 1] == c then Some(|name| - 1)
    else
      var r := LastIndexOf(name[..|name| - 1], c);
      assert r.Some? ==> name[r.value + 1..] == name[..|name| - 1][r.value + 1..] + [name[|name| - 1]];
      r
  }

  /** Where the suffix starts: the last dot, unless it begins or ends the name. */
  function SuffixStart(name: string): (r: Option<nat>)
    ensures r.Some? ==> 0 < r.value < |name| - 1 && name[r.value] == '.'
  {
    match LastIndexOf(name, '.')
    case Some(i) => if 0 < i < |name| - 1 then Some(i) else None
    case None => None
  }

  /** `Path(name).suffix`: from the last dot on, or "" for a name without one. */
  function Suffix(name: string): string {
    match SuffixStart(name)
    case Some(i) => name[i..]
    case None => ""
  }

  /** `Path(name).stem`: the name without its suffix. */
  function Stem(name: string): string {
    match SuffixStart(name)
    case Some(i) => name[..i]
    case None => name
  }

  /** The stem and the suffix put back together give the name; a non-empty
      suffix starts with the dot and holds no other dot. */
  lemma StemSuffix(name: string)
    ensures Stem(name) + Suffix(name) == name
    ensures Suffix(name) != [] ==> Suffix(name)[0] == '.' && '.' !in Suffix(name)[1..]
    ensures Suffix(name) == [] <==> SuffixStart(name).None?
  {
    match SuffixStart(name)
    case Some(i) =>
      assert name == name[..i] + name[i..];
      assert Suffix(name)[1..] == name[i + 1..];
    case None =>
  }

  /** The stem with `-` and `_` turned into spaces, as titles are made from file names. */
  function StemWords(filename: string): (r: string)
    ensures '-' !in r && '_' !in r
    ensures |r| == |Stem(filename)|
  {
    var stem := Stem(filename);
    var dashless := Replace(stem, "-", " ");
    ReplaceCharGone(stem, '-', ' ');
    ReplaceCharGone(dashless, '_', ' ');
    Replace(dashless, "_", " ")
  }

  /** The order `sorted` puts file names of one directory in: code point by
      code point, a proper prefix first. */
  predicate NameLe(a: string, b: string)
    decreases |a|
  {
    a == [] || (b != [] && (a[0] < b[0] || (a[0] == b[0] && NameLe(a[1..], b[1..]))))
  }

  /** Any two names are ordered one way or the other. */
  lemma {:induction false} NameLeTotal(a: string, b: string)
    ensures NameLe(a, b) || NameLe(b, a)
    decreases |a|
  {
    if a != [] && b != [] && a[0] == b[0] {
      NameLeTotal(a[1..], b[1..]);
    }
  }

  /** Two names ordered both ways are equal. */
  lemma {:induction false} NameLeAntisymmetric(a: string, b: string)
    requires NameLe(a, b) && NameLe(b, a)
    ensures a == b
    decreases |a|
  {
    if a != [] {
      NameLeAntisymmetric(a[1..], b[1..]);
      assert a == [a[0]] + a[1..] && b == [b[0]] + b[1..];
    }
  }
}
