/** The characters of `$((...))`: blanks, names and numbers, and the text a
    variable's number is kept as.

    A C string is a `string` here; reading at or past its end gives NUL.
 */
module ArithText {
  import opened Common
  import opened Machine64

  const NUL: char := '\0'

  function At(t: string, i: nat): char {
    if i < |t| then t[i] else NUL
  }

  predicate IsBlank(c: char) {
    c == ' ' || c == '\t'
  }

  predicate IsDigit(c: char) {
    '0' <= c <= '9'
  }

  predicate IsNameChar(c: char) {
    'a' <= c <= 'z' || 'A' <= c <= 'Z' || '0' <= c <= '9' || c == '_'
  }

  /** Blanks, and newlines too where the evaluator skips both */
  predicate IsSkipped(c: char, newlines: bool) {
    IsBlank(c) || (newlines && c == '\n')
  }

  /** The first position from `i` on that is not skipped */
  function Skip(t: string, i: nat, newlines: bool): (r: nat)
    requires i <= |t|
    ensures i <= r <= |t|
    ensures forall k | i <= k < r :: IsSkipped(t[k], newlines)
    ensures !IsSkipped(At(t, r), newlines)
    decreases |t| - i
  {
    if IsSkipped(At(t, i), newlines) then Skip(t, i + 1, newlines) else i
  }

  // ----- Names -----

  /** The end of the name characters from `i` on, at most `limit` of them */
  function NameEnd(t: string, i: nat, limit: nat): (r: nat)
    requires i <= |t|
    ensures i <= r <= |t| && r - i <= limit
    ensures forall k | i <= k < r :: IsNameChar(t[k])
    ensures r - i < limit ==> !IsNameChar(At(t, r))
    decreases limit
  {
    if limit > 0 && IsNameChar(At(t, i)) then NameEnd(t, i + 1, limit - 1) else i
  }

  const NAME_LIMIT: nat := 31

  /** A letter or '_', then letters, digits and '_' */
  predicate IsName(name: string) {
    && name != ""
    && !IsDigit(name[0])
    && forall k | 0 <= k < |name| :: IsNameChar(name[k])
  }

  /** How long the name at `i` is: 0 if there is none, or it is longer than
      any variable's */
  function PeekName(t: string, i: nat): (n: nat)
    requires i <= |t|
    ensures i + n <= |t| && n <= NAME_LIMIT
    ensures n > 0 ==> IsName(t[i..i + n]) && !IsNameChar(At(t, i + n))
  {
    if !IsNameChar(At(t, i)) || IsDigit(At(t, i)) then 0
    else
      var e := NameEnd(t, i, NAME_LIMIT);
      if IsNameChar(At(t, e)) then 0 else e - i
  }

  // ----- Constants -----

  predicate IsHex(c: char) {
    IsDigit(c) || 'a' <= c <= 'f' || 'A' <= c <= 'F'
  }

  function HexValue(c: char): (d: nat)
    requires IsHex(c)
    ensures d < 16
  {
    if IsDigit(c) then (c - '0') as nat
    else if 'a' <= c <= 'f' then (c - 'a') as nat + 10
    else (c - 'A') as nat + 10
  }

  function HexEnd(t: string, i: nat): (r: nat)
    requires i <= |t|
    ensures i <= r <= |t|
    ensures forall k | i <= k < r :: IsHex(t[k])
    ensures !IsHex(At(t, r))
    decreases |t| - i
  {
    if IsHex(At(t, i)) then HexEnd(t, i + 1) else i
  }

  predicate DigitsBelow(digits: string, base: nat) {
    forall k | 0 <= k < |digits| :: IsHex(digits[k]) && HexValue(digits[k]) < base
  }

  /** The number a string of digits stands for */
  function DigitsValue(digits: string, base: nat): nat
    requires DigitsBelow(digits, base)
  {
    if digits == "" then 0
    else DigitsValue(digits[..|digits| - 1], base) * base + HexValue(digits[|digits| - 1])
  }

  function BaseAt(t: string, i: nat): (base: nat)
    ensures base == 8 || base == 10 || base == 16
  {
    if At(t, i) == '0' && (At(t, i + 1) == 'x' || At(t, i + 1) == 'X') then 16
    else if At(t, i) == '0' then 8
    else 10
  }

  function DigitsStart(t: string, i: nat): (d: nat)
    requires i <= |t|
    ensures i <= d <= |t|
  {
    if BaseAt(t, i) == 16 then i + 2 else i
  }

  /** The constant at `i` and where it ends. All the hexadecimal digits that
      follow belong to it; it is one exactly when there are some, each is a
      digit of the base, no letter follows, and the value is below 2^64. */
  function Constant(t: string, i: nat): (r: Option<(Long, nat)>)
    requires i <= |t|
    ensures r.Some? ==> i < r.value.1 <= |t|
  {
    var base, d := BaseAt(t, i), DigitsStart(t, i);
    var e := HexEnd(t, d);
    if e > d && DigitsBelow(t[d..e], base) && DigitsValue(t[d..e], base) < TWO64 && !IsNameChar(At(t, e))
    then Some((Signed(DigitsValue(t[d..e], base)), e))
    else None
  }

  lemma {:induction false} DigitsValueGrows(digits: string, base: nat, n: nat)
    requires base > 0 && DigitsBelow(digits, base) && n <= |digits|
    ensures DigitsBelow(digits[..n], base)
    ensures DigitsValue(digits[..n], base) <= DigitsValue(digits, base)
  {
    if n == |digits| {
      assert digits[..n] == digits;
    } else {
      var init := digits[..|digits| - 1];
      DigitsValueGrows(init, base, n);
      assert init[..n] == digits[..n];
      var v := DigitsValue(init, base);
      assert v * base == v + v * (base - 1);
      ProductOfNaturals(v, base - 1);
    }
  }

  /** The test for a 65th bit never overflows itself, and is exact */
  lemma OverflowTest(v: ULong, d: nat, base: nat)
    requires d < 16 && base > 0
    ensures v > (TWO64 - 1 - d) / base <==> v * base + d >= TWO64
  {
    var q, r := (TWO64 - 1 - d) / base, (TWO64 - 1 - d) % base;
    assert TWO64 - 1 - d == base * q + r;
    if v > q {
      assert v * base == base * q + base + (v - q - 1) * base;
      ProductOfNaturals(v - q - 1, base);
    } else {
      assert v * base == base * q - (q - v) * base;
      ProductOfNaturals(q - v, base);
    }
  }

  /** The digits from `start` on, one at a time, giving up at the first that is
      too large for the base or would take the value past 64 bits */
  method ReadDigits(t: string, start: nat, base: nat) returns (r: Option<(ULong, nat)>)
    requires start <= |t| && base > 0
    ensures var e := HexEnd(t, start);
            r == if DigitsBelow(t[start..e], base) && DigitsValue(t[start..e], base) < TWO64
                 then Some((DigitsValue(t[start..e], base), e)) else None
  {
    var c := start;
    var v: ULong := 0;
    ghost var e := HexEnd(t, start);
    while IsHex(At(t, c))
      invariant start <= c <= e
      invariant HexEnd(t, c) == e
      invariant DigitsBelow(t[start..c], base)
      invariant v == DigitsValue(t[start..c], base)
      decreases |t| - c
    {
      var d := HexValue(t[c]);
      assert t[start..e][c - start] == t[c];
      if d >= base {
        return None;
      }
      NextDigit(t, start, c, e, base);
      OverflowTest(v, d, base);
      if v > (TWO64 - 1 - d) / base {
        return None;
      }
      v := v * base + d;
      c := c + 1;
    }
    r := Some((v, c));
  }

  lemma NextDigit(t: string, start: nat, c: nat, e: nat, base: nat)
    requires start <= c < e <= |t| && base > 0
    requires DigitsBelow(t[start..c], base) && IsHex(t[c]) && HexValue(t[c]) < base
    ensures DigitsBelow(t[start..c + 1], base)
    ensures DigitsValue(t[start..c + 1], base) == DigitsValue(t[start..c], base) * base + HexValue(t[c])
    ensures DigitsBelow(t[start..e], base) ==> DigitsValue(t[start..c + 1], base) <= DigitsValue(t[start..e], base)
  {
    var longer := t[start..c + 1];
    assert longer[..|longer| - 1] == t[start..c];
    if DigitsBelow(t[start..e], base) {
      assert t[start..e][..c + 1 - start] == longer;
      DigitsValueGrows(t[start..e], base, c + 1 - start);
    }
  }

  /** arith_constant: the base from the first characters, then the digits */
  method ArithConstant(t: string, i: nat) returns (r: Option<(Long, nat)>)
    requires i <= |t|
    ensures r == Constant(t, i)
  {
    var digits := i;
    var base := 10;
    if At(t, i) == '0' && (At(t, i + 1) == 'x' || At(t, i + 1) == 'X') {
      base := 16;
      digits := digits + 2;
    } else if At(t, i) == '0' {
      base := 8;
    }
    var read := ReadDigits(t, digits, base);
    if read.None? {
      return None;
    }
    var (v, c) := read.value;
    if c == digits && base != 8 {
      return None;
    }
    if IsNameChar(At(t, c)) {
      return None;
    }
    return Some((Signed(v), c));
  }

  // ----- The number a variable holds -----

  /** Blanks, an optional sign, a constant, blanks; nothing at all is 0 */
  function NumberOf(t: string): Option<Long> {
    var i := Skip(t, 0, false);
    if At(t, i) == NUL then Some(0)
    else
      var negative := At(t, i) == '-';
      var j := if negative || At(t, i) == '+' then i + 1 else i;
      match Constant(t, j)
      case None => None
      case Some((v, e)) =>
        if At(t, Skip(t, e, false)) == NUL then Some(if negative then NegateMachine(v) else v)
        else None
  }

  /** Past the blanks, as the `while (is_blank(*text)) text++` loops go */
  method SkipMethod(t: string, i: nat, newlines: bool) returns (r: nat)
    requires i <= |t|
    ensures r == Skip(t, i, newlines)
  {
    r := i;
    while IsSkipped(At(t, r), newlines)
      invariant i <= r <= |t|
      invariant Skip(t, r, newlines) == Skip(t, i, newlines)
      decreases |t| - r
    {
      r := r + 1;
    }
  }

  method ArithVariableText(t: string) returns (r: Option<Long>)
    ensures r == NumberOf(t)
  {
    hide Constant;
    var i := SkipMethod(t, 0, false);
    if At(t, i) == NUL {
      return Some(0);
    }
    var negative := At(t, i) == '-';
    if At(t, i) == '-' || At(t, i) == '+' {
      i := i + 1;
    }
    var constant := ArithConstant(t, i);
    if constant.Some? {
      var end := SkipMethod(t, constant.value.1, false);
      if At(t, end) == NUL {
        return Some(if negative then Signed(SubtractUnsigned(0, Unsigned(constant.value.0))) else constant.value.0);
      }
    }
    return None;
  }

  // ----- A number as text -----

  function DigitChar(d: nat): (c: char)
    requires d < 10
    ensures IsDigit(c) && HexValue(c) == d
  {
    '0' + d as char
  }

  function Digits(u: nat): (s: string)
    ensures s != ""
  {
    if u < 10 then [DigitChar(u)] else Digits(u / 10) + [DigitChar(u % 10)]
  }

  function Decimal(v: Long): string {
    if v < 0 then "-" + Digits(-(v as int)) else Digits(v)
  }

  function Power10(n: nat): (r: nat)
    ensures r > 0
  {
    if n == 0 then 1 else 10 * Power10(n - 1)
  }

  /** The characters from the last to the first */
  function Backwards(s: string): (r: string)
    ensures |r| == |s|
  {
    if s == "" then "" else [s[|s| - 1]] + Backwards(s[..|s| - 1])
  }

  lemma {:induction false} BackwardsAt(s: string, k: nat)
    requires k < |s|
    ensures Backwards(s)[k] == s[|s| - 1 - k]
  {
    if k > 0 {
      BackwardsAt(s[..|s| - 1], k - 1);
    }
  }

  /** Reading a number back from the text it is stored as gives the number,
      for every 64-bit value: the minimum's magnitude 2^63 wraps twice. */
  lemma TextRoundTrip(v: Long)
    ensures NumberOf(Decimal(v)) == Some(v)
  {
    hide Constant, Digits, DigitsValue, HexEnd;
    var t := Decimal(v);
    var j := if v < 0 then 1 else 0;
    var u: nat := if v < 0 then -(v as int) else v;
    assert t[j..] == Digits(u);
    ConstantOfDigits(t, j, u);
    assert Skip(t, 0, false) == 0;
    assert Skip(t, |t|, false) == |t|;
    assert v < 0 <==> At(t, 0) == '-';
    assert v < 0 ==> NegateMachine(Signed(u)) == v by {
      if v < 0 { NegateMeaning(Signed(u)); }
    }
  }

  lemma ConstantOfDigits(t: string, j: nat, u: ULong)
    requires j <= |t| && t[j..] == Digits(u)
    ensures Constant(t, j) == Some((Signed(u), |t|))
    ensures j < |t| && IsDigit(t[j])
  {
    DigitsOfNumber(u);
    assert forall k | j <= k < |t| :: t[k] == Digits(u)[k - j];
    if u == 0 {
      assert Digits(u) == "0" && |t| == j + 1;
      assert BaseAt(t, j) == 8;
      HexRun(t, j);
      assert t[j..|t|] == "0" && "0"[..0] == "";
      assert DigitsValue("0", 8) == 0;
    } else {
      assert BaseAt(t, j) == 10;
      HexRun(t, j);
      assert t[j..|t|] == Digits(u);
    }
  }

  /** Decimal digits: all below 10, worth the number, and no leading zero that
      would make them octal */
  lemma {:induction false} DigitsOfNumber(u: nat)
    ensures DigitsBelow(Digits(u), 10)
    ensures forall k | 0 <= k < |Digits(u)| :: IsDigit(Digits(u)[k])
    ensures DigitsValue(Digits(u), 10) == u
    ensures Digits(u)[0] == '0' <==> u == 0
  {
    if u >= 10 {
      DigitsOfNumber(u / 10);
      assert Digits(u)[..|Digits(u)| - 1] == Digits(u / 10);
    } else {
      assert Digits(u)[..|Digits(u)| - 1] == "";
    }
  }

  lemma {:induction false} HexRun(t: string, i: nat)
    requires i <= |t| && forall k | i <= k < |t| :: IsHex(t[k])
    ensures HexEnd(t, i) == |t|
    decreases |t| - i
  {
    if i < |t| {
      HexRun(t, i + 1);
    }
  }

  /** The first loop of long_text: the digits of `u` into tmp[24], the last
      digit first. At most 20 of them. */
  method LastDigitsFirst(u0: ULong, tmp: array<char>) returns (digits: nat)
    requires tmp.Length == 24
    modifies tmp
    ensures 1 <= digits <= 20
    ensures Backwards(tmp[..digits]) == Digits(u0)
  {
    hide Digits, Backwards;
    Power10Of20();
    FirstDigit(u0);
    tmp[0] := DigitChar(u0 % 10);
    digits := 1;
    var u: nat := u0 / 10;
    ghost var low := [DigitChar(u0 % 10)];
    assert tmp[..1] == low;
    assert u < Power10(19);
    while u > 0
      invariant 1 <= digits <= 20 && digits == |low|
      invariant u < Power10(20 - digits)
      invariant Backwards(tmp[..digits]) == low
      invariant Digits(u0) == if u == 0 then low else Digits(u) + low
    {
      var c := DigitChar(u % 10);
      ghost var before := tmp[..digits];
      BackwardsStep(before, c);
      DigitsStep(u, low);
      tmp[digits] := c;
      assert tmp[..digits + 1] == before + [c];
      low := [c] + low;
      digits := digits + 1;
      u := u / 10;
    }
  }

  lemma FirstDigit(u: nat)
    ensures var low := [DigitChar(u % 10)];
            && Backwards(low) == low
            && Digits(u) == if u / 10 == 0 then low else Digits(u / 10) + low
  {
  }

  lemma DigitsStep(u: nat, low: string)
    requires u > 0
    ensures Digits(u) + low
         == if u / 10 == 0 then [DigitChar(u % 10)] + low else Digits(u / 10) + ([DigitChar(u % 10)] + low)
  {
  }

  /** long_text: the digits from the last to the first into tmp[24], then the
      other way round after the sign. Neither buffer overflows. */
  method LongText(v: Long) returns (text: array<char>, n: nat)
    ensures fresh(text) && n <= text.Length == 24
    ensures text[..n] == Decimal(v)
  {
    hide Digits, Backwards;
    text := new char[24];
    var u: ULong := if v < 0 then SubtractUnsigned(0, Unsigned(v)) else Unsigned(v);
    assert u == if v < 0 then -(v as int) else v as int;
    var tmp := new char[24];
    var digits := LastDigitsFirst(u, tmp);
    n := 0;
    if v < 0 {
      text[n] := '-';
      n := 1;
    }
    n := CopyBackwards(tmp, digits, text, n);
  }

  /** The last loop of long_text */
  method CopyBackwards(tmp: array<char>, count: nat, text: array<char>, start: nat) returns (n: nat)
    requires tmp != text && count <= tmp.Length && start + count <= text.Length
    modifies text
    ensures n == start + count
    ensures text[..n] == old(text[..start]) + Backwards(tmp[..count])
  {
    n := start;
    var digits: nat := count;
    ghost var last := tmp[..count];
    while digits > 0
      invariant 0 <= digits <= count
      invariant n == start + (count - digits)
      invariant text[..n] == old(text[..start]) + Backwards(last)[..count - digits]
    {
      BackwardsAt(last, count - digits);
      digits := digits - 1;
      text[n] := tmp[digits];
      n := n + 1;
    }
    assert Backwards(last)[..count] == Backwards(last);
  }

  lemma BackwardsStep(s: string, c: char)
    ensures Backwards(s + [c]) == [c] + Backwards(s)
  {
    assert (s + [c])[..|s|] == s;
  }

  lemma Power10Of20()
    ensures TWO64 <= Power10(20)
  {
    assert Power10(5) == 100000;
    Power10Add(5, 5);
    Power10Add(10, 10);
  }

  lemma Power10Add(m: nat, n: nat)
    ensures Power10(m + n) == Power10(m) * Power10(n)
  {
    if m > 0 {
      Power10Add(m - 1, n);
    }
  }
}
