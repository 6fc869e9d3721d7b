/** Numbers at the front of a line, of any length, compared as text. */
module SortNumbers {
  type Byte = x: int | 0 <= x < 256

  const SPACE: Byte := 32
  const TAB: Byte := 9
  const MINUS: Byte := 45
  const POINT: Byte := 46
  const ZERO: Byte := 48
  const NINE: Byte := 57

  predicate Blank(c: Byte) {
    c == SPACE || c == TAB
  }

  predicate Digit(c: Byte) {
    ZERO <= c <= NINE
  }

  predicate Digits(s: seq<Byte>) {
    forall i | 0 <= i < |s| :: Digit(s[i])
  }

  // ----- What a number is worth -----

  function Pow10(n: nat): (r: nat)
    ensures r > 0
  {
    if n == 0 then 1 else 10 * Pow10(n - 1)
  }

  function Whole(s: seq<Byte>): nat
    requires Digits(s)
  {
    if s == [] then 0 else (s[0] - ZERO) * Pow10(|s| - 1) + Whole(s[1..])
  }

  /** Digits after a point */
  function Fraction(s: seq<Byte>): real
    requires Digits(s)
  {
    if s == [] then 0.0 else ((s[0] - ZERO) as real + Fraction(s[1..])) / 10.0
  }

  function SkipBlanks(s: seq<Byte>, i: nat): (r: nat)
    requires i <= |s|
    ensures i <= r <= |s| && (forall k | i <= k < r :: Blank(s[k])) && (r < |s| ==> !Blank(s[r]))
    decreases |s| - i
  {
    if i < |s| && Blank(s[i]) then SkipBlanks(s, i + 1) else i
  }

  function DigitsEnd(s: seq<Byte>, i: nat): (r: nat)
    requires i <= |s|
    ensures i <= r <= |s| && Digits(s[i..r]) && (r < |s| ==> !Digit(s[r]))
    decreases |s| - i
  {
    if i < |s| && Digit(s[i]) then
      var r := DigitsEnd(s, i + 1);
      assert s[i..r] == [s[i]] + s[i + 1..r];
      r
    else i
  }

  /** Where the sign, and the digits before and after the point are */
  function SignAt(s: seq<Byte>): nat {
    SkipBlanks(s, 0)
  }

  predicate Negative(s: seq<Byte>) {
    SignAt(s) < |s| && s[SignAt(s)] == MINUS
  }

  function WholeAt(s: seq<Byte>): (r: nat)
    ensures r <= |s|
  {
    SignAt(s) + if Negative(s) then 1 else 0
  }

  function FractionAt(s: seq<Byte>): (r: nat)
    ensures r <= |s|
  {
    var e := DigitsEnd(s, WholeAt(s));
    if e < |s| && s[e] == POINT then e + 1 else |s|
  }

  function WholeOf(s: seq<Byte>): (r: seq<Byte>)
    ensures Digits(r)
  {
    s[WholeAt(s)..DigitsEnd(s, WholeAt(s))]
  }

  function FractionOf(s: seq<Byte>): (r: seq<Byte>)
    ensures Digits(r)
  {
    s[FractionAt(s)..DigitsEnd(s, FractionAt(s))]
  }

  /** The value of the number that a key starts with, all its digits counted; 0 if it
      starts with none */
  function Value(s: seq<Byte>): real {
    var magnitude := Whole(WholeOf(s)) as real + Fraction(FractionOf(s));
    if Negative(s) then -magnitude else magnitude
  }

  // ----- Reading it -----

  /** number_t */
  datatype Number = Number(negative: bool, whole: seq<Byte>, fraction: seq<Byte>) {
    /** No zeros that do not count, and no minus on 0 */
    predicate Valid() {
      && Digits(whole) && (whole != [] ==> whole[0] != ZERO)
      && Digits(fraction) && (fraction != [] ==> fraction[|fraction| - 1] != ZERO)
      && (negative ==> whole != [] || fraction != [])
    }

    function Magnitude(): real
      requires Valid()
    {
      Whole(whole) as real + Fraction(fraction)
    }
  }

  function Signed(negative: bool, magnitude: real): real {
    if negative then -magnitude else magnitude
  }

  lemma LeadingZero(s: seq<Byte>)
    requires Digits(s) && s != [] && s[0] == ZERO
    ensures Digits(s[1..]) && Whole(s) == Whole(s[1..])
  {
  }

  lemma {:induction false} TrailingZero(s: seq<Byte>)
    requires Digits(s) && s != [] && s[|s| - 1] == ZERO
    ensures Digits(s[..|s| - 1]) && Fraction(s) == Fraction(s[..|s| - 1])
  {
    if |s| > 1 {
      TrailingZero(s[1..]);
      assert s[1..][..|s| - 2] == s[..|s| - 1][1..];
    }
  }

  /** read_number */
  method ReadNumber(s: seq<Byte>) returns (n: Number)
    ensures n.Valid() && Signed(n.negative, n.Magnitude()) == Value(s)
  {
    hide Whole, Fraction, SkipBlanks, DigitsEnd;
    var i := 0;
    while i < |s| && Blank(s[i])
      invariant 0 <= i <= |s| && forall k | 0 <= k < i :: Blank(s[k])
    {
      i := i + 1;
    }
    SameSkip(s, i);
    var negative := false;
    if i < |s| && s[i] == MINUS {
      negative := true;
      i := i + 1;
    }
    var whole, end := ReadWhole(s, i);
    var fraction := [];
    if end < |s| && s[end] == POINT {
      fraction := ReadFraction(s, end + 1);
    } else {
      NoFraction(s);
    }
    if whole == [] && fraction == [] {
      negative := false;
      Zero();
    }
    n := Number(negative, whole, fraction);
  }

  lemma SameSkip(s: seq<Byte>, i: nat)
    requires i <= |s| && (forall k | 0 <= k < i :: Blank(s[k])) && (i < |s| ==> !Blank(s[i]))
    ensures SkipBlanks(s, 0) == i
  {
    var r := SkipBlanks(s, 0);
    if r < i {
      assert false;
    }
    if i < r {
      assert false;
    }
  }

  lemma SameDigitsEnd(s: seq<Byte>, at: nat, i: nat)
    requires at <= i <= |s| && (forall k | at <= k < i :: Digit(s[k])) && (i < |s| ==> !Digit(s[i]))
    ensures DigitsEnd(s, at) == i
  {
    var r := DigitsEnd(s, at);
    if r < i {
      assert false;
    }
    if i < r {
      assert false;
    }
  }

  lemma NoFraction(s: seq<Byte>)
    requires FractionAt(s) == |s|
    ensures FractionOf(s) == [] && Fraction([]) == 0.0
  {
  }

  lemma Zero()
    ensures Whole([]) == 0 && Fraction([]) == 0.0
  {
  }

  method ReadWhole(s: seq<Byte>, at: nat) returns (whole: seq<Byte>, end: nat)
    requires at <= |s|
    ensures at <= end <= |s| && end == DigitsEnd(s, at)
    ensures Digits(whole) && (whole != [] ==> whole[0] != ZERO)
    ensures Whole(whole) == Whole(s[at..end])
  {
    hide Whole, DigitsEnd;
    var i := at;
    while i < |s| && s[i] == ZERO
      invariant at <= i <= |s| && forall k | at <= k < i :: s[k] == ZERO
    {
      i := i + 1;
    }
    var start := i;
    while i < |s| && Digit(s[i])
      invariant start <= i <= |s| && forall k | start <= k < i :: Digit(s[k])
    {
      i := i + 1;
    }
    end := i;
    whole := s[start..end];
    SameDigitsEnd(s, at, end);
    ZerosSkipped(s, at, start, end);
  }

  lemma {:induction false} ZerosSkipped(s: seq<Byte>, at: nat, start: nat, end: nat)
    requires at <= start <= end <= |s| && (forall k | at <= k < start :: s[k] == ZERO) && Digits(s[start..end])
    ensures Digits(s[at..end]) && Whole(s[at..end]) == Whole(s[start..end])
    decreases start - at
  {
    if at < start {
      ZerosSkipped(s, at + 1, start, end);
      assert s[at..end] == [s[at]] + s[at + 1..end];
      LeadingZero(s[at..end]);
    }
  }

  method ReadFraction(s: seq<Byte>, at: nat) returns (fraction: seq<Byte>)
    requires at <= |s|
    ensures Digits(fraction) && (fraction != [] ==> fraction[|fraction| - 1] != ZERO)
    ensures Fraction(fraction) == Fraction(s[at..DigitsEnd(s, at)])
  {
    hide Fraction, DigitsEnd;
    var i := at;
    while i < |s| && Digit(s[i])
      invariant at <= i <= |s| && forall k | at <= k < i :: Digit(s[k])
    {
      i := i + 1;
    }
    SameDigitsEnd(s, at, i);
    var length := i - at;
    while length > 0 && s[at + length - 1] == ZERO
      invariant 0 <= length <= i - at && Fraction(s[at..at + length]) == Fraction(s[at..i])
    {
      TrailingZero(s[at..at + length]);
      assert s[at..at + length][..length - 1] == s[at..at + length - 1];
      length := length - 1;
    }
    fraction := s[at..at + length];
  }

  // ----- Comparing -----

  function Order(a: real, b: real): int {
    if a < b then -1 else if a > b then 1 else 0
  }

  /** memcmp of the first `n` bytes, as -1, 0 or 1 */
  function Memcmp(a: seq<Byte>, b: seq<Byte>, n: nat): int
    requires n <= |a| && n <= |b|
  {
    if n == 0 then 0
    else if a[0] < b[0] then -1
    else if a[0] > b[0] then 1
    else Memcmp(a[1..], b[1..], n - 1)
  }

  /** compare_magnitude */
  function CompareMagnitude(a: Number, b: Number): int {
    if |a.whole| != |b.whole| then (if |a.whole| < |b.whole| then -1 else 1)
    else
      var c := Memcmp(a.whole, b.whole, |a.whole|);
      if c != 0 then c
      else
        var common := if |a.fraction| < |b.fraction| then |a.fraction| else |b.fraction|;
        var d := Memcmp(a.fraction, b.fraction, common);
        if d != 0 then d
        else if |a.fraction| < |b.fraction| then -1
        else if |a.fraction| > |b.fraction| then 1
        else 0
  }

  lemma {:induction false} WholeBound(s: seq<Byte>)
    requires Digits(s)
    ensures Whole(s) < Pow10(|s|)
  {
    if s != [] {
      WholeBound(s[1..]);
      Times(s[0] - ZERO, 9, Pow10(|s| - 1));
    }
  }

  lemma Times(x: int, y: int, p: nat)
    requires x <= y
    ensures x * p <= y * p
  {
  }

  lemma {:induction false} PowGrows(m: nat, n: nat)
    requires m <= n
    ensures Pow10(m) <= Pow10(n)
  {
    if m < n {
      PowGrows(m, n - 1);
    }
  }

  /** More digits, more */
  lemma LongerIsMore(s: seq<Byte>, t: seq<Byte>)
    requires Digits(s) && Digits(t) && |s| < |t| && t[0] != ZERO
    ensures Whole(s) + 1 <= Whole(t)
  {
    WholeBound(s);
    PowGrows(|s|, |t| - 1);
    Times(1, t[0] - ZERO, Pow10(|t| - 1));
  }

  /** As many digits: the first that differs decides */
  lemma {:induction false} SameLength(s: seq<Byte>, t: seq<Byte>)
    requires Digits(s) && Digits(t) && |s| == |t|
    ensures Memcmp(s, t, |s|) < 0 ==> Whole(s) + 1 <= Whole(t)
    ensures Memcmp(s, t, |s|) > 0 ==> Whole(t) + 1 <= Whole(s)
    ensures Memcmp(s, t, |s|) == 0 ==> s == t
  {
    if s != [] {
      if s[0] < t[0] {
        FirstDecides(s, t);
      } else if s[0] > t[0] {
        FirstDecides(t, s);
      } else {
        SameLength(s[1..], t[1..]);
        if Memcmp(s, t, |s|) == 0 {
          assert s == [s[0]] + s[1..] && t == [t[0]] + t[1..];
        }
      }
    }
  }

  lemma FirstDecides(s: seq<Byte>, t: seq<Byte>)
    requires Digits(s) && Digits(t) && |s| == |t| > 0 && s[0] < t[0]
    ensures Whole(s) + 1 <= Whole(t)
  {
    WholeBound(s[1..]);
    FirstTimes(s[0] - ZERO, t[0] - ZERO, Pow10(|s| - 1), Whole(s[1..]));
  }

  lemma FirstTimes(x: int, y: int, p: nat, rest: nat)
    requires x < y && rest < p
    ensures x * p + rest + 1 <= y * p
  {
    Times(x + 1, y, p);
    assert (x + 1) * p == x * p + p;
  }

  lemma {:induction false} FractionBound(s: seq<Byte>)
    requires Digits(s)
    ensures 0.0 <= Fraction(s) < 1.0
  {
    if s != [] {
      FractionBound(s[1..]);
    }
  }

  lemma {:induction false} FractionPositive(s: seq<Byte>)
    requires Digits(s) && s != [] && s[|s| - 1] != ZERO
    ensures Fraction(s) > 0.0
  {
    if |s| > 1 {
      FractionPositive(s[1..]);
    }
  }

  lemma {:induction false} FractionOrder(s: seq<Byte>, t: seq<Byte>)
    requires Digits(s) && Digits(t)
    requires (s != [] ==> s[|s| - 1] != ZERO) && (t != [] ==> t[|t| - 1] != ZERO)
    ensures var n := if |s| < |t| then |s| else |t|;
            var d := Memcmp(s, t, n);
            Order(Fraction(s), Fraction(t))
            == if d != 0 then d else if |s| < |t| then -1 else if |s| > |t| then 1 else 0
  {
    if s == [] {
      if t != [] {
        FractionPositive(t);
      }
    } else if t == [] {
      FractionPositive(s);
    } else {
      FractionBound(s[1..]);
      FractionBound(t[1..]);
      if s[0] == t[0] {
        FractionOrder(s[1..], t[1..]);
      }
    }
  }

  lemma MagnitudeOrder(a: Number, b: Number)
    requires a.Valid() && b.Valid()
    ensures CompareMagnitude(a, b) == Order(a.Magnitude(), b.Magnitude())
  {
    hide Whole, Fraction, Memcmp;
    FractionBound(a.fraction);
    FractionBound(b.fraction);
    if |a.whole| < |b.whole| {
      LongerIsMore(a.whole, b.whole);
    } else if |a.whole| > |b.whole| {
      LongerIsMore(b.whole, a.whole);
    } else {
      SameLength(a.whole, b.whole);
      FractionOrder(a.fraction, b.fraction);
      MemcmpSign(a.whole, b.whole, |a.whole|);
    }
  }

  lemma {:induction false} MemcmpSign(a: seq<Byte>, b: seq<Byte>, n: nat)
    requires n <= |a| && n <= |b|
    ensures -1 <= Memcmp(a, b, n) <= 1
  {
    if n > 0 {
      MemcmpSign(a[1..], b[1..], n - 1);
    }
  }

  lemma {:induction false} WholePositive(s: seq<Byte>)
    requires Digits(s) && s != [] && s[0] != ZERO
    ensures Whole(s) > 0
  {
    Times(1, s[0] - ZERO, Pow10(|s| - 1));
  }

  lemma MagnitudePositive(n: Number)
    requires n.Valid()
    ensures n.Magnitude() >= 0.0 && (n.whole != [] || n.fraction != [] ==> n.Magnitude() > 0.0)
  {
    hide Whole, Fraction;
    FractionBound(n.fraction);
    if n.whole != [] {
      WholePositive(n.whole);
    } else if n.fraction != [] {
      FractionPositive(n.fraction);
    }
  }

  /** With -n keys are in the order of their values, whatever their lengths */
  method CompareNumbers(a: seq<Byte>, b: seq<Byte>) returns (c: int)
    ensures c == Order(Value(a), Value(b))
  {
    hide Value, CompareMagnitude;
    var x := ReadNumber(a);
    var y := ReadNumber(b);
    MagnitudePositive(x);
    MagnitudePositive(y);
    MagnitudeOrder(x, y);
    if x.negative != y.negative {
      return if x.negative then -1 else 1;
    }
    c := CompareMagnitude(x, y);
    if x.negative {
      c := -c;
    }
  }
}
