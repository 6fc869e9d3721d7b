/** Names of a FAT directory: 8.3 names with case flags, and long ones. Names here are of
    ASCII characters.
 */
module FatNames {

  type Byte = x: int | 0 <= x < 256
  type Name = seq<Byte>

  const DOT: Byte := 46
  const SPACE: Byte := 32

  // ----- Case -----

  predicate IsLower(c: Byte) {
    97 <= c <= 122
  }

  predicate IsUpper(c: Byte) {
    65 <= c <= 90
  }

  function UpperChar(c: Byte): Byte {
    if IsLower(c) then c - 32 else c
  }

  function LowerChar(c: Byte): Byte {
    if IsUpper(c) then c + 32 else c
  }

  function Upper(s: Name): (r: Name)
    ensures |r| == |s| && forall i | 0 <= i < |s| :: r[i] == UpperChar(s[i])
  {
    seq(|s|, i requires 0 <= i < |s| => UpperChar(s[i]))
  }

  function Lower(s: Name): (r: Name)
    ensures |r| == |s| && forall i | 0 <= i < |s| :: r[i] == LowerChar(s[i])
  {
    seq(|s|, i requires 0 <= i < |s| => LowerChar(s[i]))
  }

  /** islower(): a letter, and no upper-case one */
  predicate AllLower(s: Name) {
    (exists i :: 0 <= i < |s| && IsLower(s[i])) && forall i | 0 <= i < |s| :: !IsUpper(s[i])
  }

  // ----- 8.3 names -----

  /** Letters, digits and _-~!#$%&'()@^`{} */
  predicate Allowed(c: Byte) {
    || IsUpper(c) || 48 <= c <= 57 || 35 <= c <= 41 || 94 <= c <= 96
    || c == 45 || c == 126 || c == 33 || c == 64 || c == 123 || c == 125
  }

  predicate AllowedPart(s: Name) {
    forall i | 0 <= i < |s| :: Allowed(UpperChar(s[i]))
  }

  predicate OneCase(s: Name) {
    s == Lower(s) || s == Upper(s)
  }

  function FirstDot(s: Name): (n: nat)
    ensures n <= |s| && (n < |s| ==> s[n] == DOT) && forall i | 0 <= i < n :: s[i] != DOT
  {
    if s == [] || s[0] == DOT then 0 else 1 + FirstDot(s[1..])
  }

  /** name.partition(".") */
  function Base(name: Name): Name {
    name[..FirstDot(name)]
  }

  function Extension(name: Name): Name {
    if FirstDot(name) < |name| then name[FirstDot(name) + 1..] else []
  }

  predicate IsShort(name: Name) {
    var base, ext := Base(name), Extension(name);
    && 0 < |base| <= 8 && |ext| <= 3 && DOT !in ext
    && AllowedPart(base) && AllowedPart(ext) && OneCase(base) && OneCase(ext)
  }

  function Spaces(n: nat): (s: Name)
    ensures |s| == n && forall i | 0 <= i < n :: s[i] == SPACE
  {
    seq(n, i => SPACE)
  }

  function Padded(s: Name, n: nat): (r: Name)
    requires |s| <= n
    ensures |r| == n
  {
    s + Spaces(n - |s|)
  }

  type Raw = s: seq<Byte> | |s| == 11 witness seq(11, i => SPACE)

  /** An 11-byte name, and the case flags */
  datatype Short = Short(raw: Raw, lowerBase: bool, lowerExtension: bool)

  /** short_name, of a name it accepts */
  function ShortName(name: Name): Short
    requires IsShort(name)
  {
    var base, ext := Base(name), Extension(name);
    Short(Padded(Upper(base), 8) + Padded(Upper(ext), 3), AllLower(base), AllLower(ext))
  }

  /** Without the spaces at the end */
  function Stripped(s: Name): Name {
    if s != [] && s[|s| - 1] == SPACE then Stripped(s[..|s| - 1]) else s
  }

  /** The name that a reader shows */
  function ShownName(s: Short): Name {
    var base, ext := Stripped(s.raw[..8]), Stripped(s.raw[8..]);
    var shownBase := if s.lowerBase then Lower(base) else base;
    var shownExt := if s.lowerExtension then Lower(ext) else ext;
    if ext == [] then shownBase else shownBase + [DOT] + shownExt
  }

  lemma {:induction false} StrippedPadding(s: Name, n: nat)
    requires s == [] || s[|s| - 1] != SPACE
    ensures Stripped(s + Spaces(n)) == s
    decreases n
  {
    if n == 0 {
      assert s + Spaces(0) == s;
    } else {
      StrippedPadding(s, n - 1);
      assert (s + Spaces(n))[..|s| + n - 1] == s + Spaces(n - 1);
    }
  }

  lemma PartShown(s: Name)
    requires AllowedPart(s) && OneCase(s)
    ensures (if AllLower(s) then Lower(Upper(s)) else Upper(s)) == s
  {
    if AllLower(s) {
      assert Lower(Upper(s)) == s;
    } else if s == Lower(s) {
      forall i | 0 <= i < |s|
        ensures Upper(s)[i] == s[i]
      {
        assert s[i] == LowerChar(s[i]);
      }
      assert Upper(s) == s;
    }
  }

  lemma PartStripped(s: Name, n: nat)
    requires AllowedPart(s) && |s| <= n
    ensures Stripped(Padded(Upper(s), n)) == Upper(s)
  {
    if s != [] {
      assert Allowed(UpperChar(s[|s| - 1]));
    }
    StrippedPadding(Upper(s), n - |s|);
  }

  lemma ShownParts(name: Name)
    requires IsShort(name)
    ensures ShownName(ShortName(name)) ==
            if Extension(name) == [] then Base(name) else Base(name) + [DOT] + Extension(name)
  {
    hide Stripped, Padded, AllowedPart, OneCase, AllLower, Upper, Lower, Base, Extension;
    var base, ext := Base(name), Extension(name);
    PartStripped(base, 8);
    PartStripped(ext, 3);
    PartShown(base);
    PartShown(ext);
    RawParts(Padded(Upper(base), 8), Padded(Upper(ext), 3));
  }

  lemma RawParts(base: Name, ext: Name)
    requires |base| == 8 && |ext| == 3
    ensures (base + ext)[..8] == base && (base + ext)[8..] == ext
  {
  }

  /** An 8.3 name is shown as it was, unless it ends in a dot with nothing after it: then
      the dot is lost */
  lemma ShortRoundTrip(name: Name)
    requires IsShort(name)
    ensures ShownName(ShortName(name)) == name <==> name[|name| - 1] != DOT
    ensures name[|name| - 1] == DOT ==> ShownName(ShortName(name)) == name[..|name| - 1]
  {
    hide ShortName, ShownName, AllowedPart, OneCase, FirstDot;
    ShownParts(name);
    var n := FirstDot(name);
    if n == |name| {
      assert name[..n] == name;
      LastIsNot(name);
    } else if n == |name| - 1 {
      assert Extension(name) == [];
    } else {
      assert name == name[..n] + [name[n]] + name[n + 1..];
      LastIsNot(Extension(name));
      assert name[|name| - 1] == Extension(name)[|Extension(name)| - 1];
    }
  }

  lemma LastIsNot(s: Name)
    requires DOT !in s && s != []
    ensures s[|s| - 1] != DOT
  {
  }
}
