/** The operators of `$((...))` by what C says of them, apart from how they are computed:
    division by its equation, the bit operators bit by bit, shifts and wrapping by
    congruence.
 */
module ArithLaws {
  import opened Machine64

  const MINIMUM: Long := -0x8000_0000_0000_0000

  // ----- Division -----

  function Magnitude(x: int): nat {
    if x < 0 then -x else x
  }

  /** Quotient and remainder of C's division: the remainder is smaller than the divisor
      and is 0 or has the sign of the dividend, so that the quotient is rounded toward
      zero */
  predicate DividesToward0(v: int, w: int, q: int, r: int) {
    && v == q * w + r
    && Magnitude(r) < Magnitude(w)
    && (r == 0 || (r > 0 <==> v > 0))
  }

  lemma TruncatedDivides(v: int, w: int)
    requires w != 0
    ensures DividesToward0(v, w, Truncated(v, w), v - Truncated(v, w) * w)
  {
    var a := Magnitude(v);
    var q, r := a / w, a % w;
    TruncatedParts(v, w, q, r, if v < 0 then -q else q);
  }

  lemma TruncatedParts(v: int, w: int, q: int, r: int, t: int)
    requires w != 0 && Magnitude(v) == w * q + r && 0 <= r < Magnitude(w) && t == if v < 0 then -q else q
    requires v == 0 ==> r == 0
    ensures DividesToward0(v, w, t, v - t * w)
  {
    NegatedProduct(q, w);
    PartsOf(v, w, t, w * q, r, t * w);
  }

  lemma PartsOf(v: int, w: int, t: int, m: int, r: int, product: int)
    requires Magnitude(v) == m + r && 0 <= r < Magnitude(w) && product == t * w && product == if v < 0 then -m else m
    requires v == 0 ==> r == 0
    ensures DividesToward0(v, w, t, v - product)
  {
  }

  lemma NegatedProduct(q: int, w: int)
    ensures -q * w == -(w * q) && q * w == w * q
  {
  }

  /** There is only one such pair */
  lemma DivisionIsUnique(v: int, w: int, q: int, r: int, q': int, r': int)
    requires w != 0 && DividesToward0(v, w, q, r) && DividesToward0(v, w, q', r')
    ensures q == q' && r == r'
  {
    var d := q - q';
    assert d * w == r' - r by {
      assert d * w == q * w - q' * w;
    }
    assert Magnitude(r' - r) < Magnitude(w);
    SmallMultiple(d, w);
  }

  lemma SmallMultiple(d: int, w: int)
    requires w != 0 && Magnitude(d * w) < Magnitude(w)
    ensures d == 0
  {
    if d > 0 {
      assert d * w == w + (d - 1) * w;
      SameSign(d - 1, w);
    } else if d < 0 {
      assert d * w == -w - (-d - 1) * w;
      SameSign(-d - 1, w);
    }
  }

  lemma SameSign(n: nat, w: int)
    ensures w >= 0 ==> n * w >= 0
    ensures w <= 0 ==> n * w <= 0
  {
    if w >= 0 {
      ProductOfNaturals(n, w);
    } else {
      ProductOfNaturals(n, -w);
      assert n * w == -(n * -w);
    }
  }

  /** `/` and `%` are C's division, for all operands but the one pair whose quotient is not
      a 64-bit number; that quotient wraps to the minimum, and the remainder is 0 */
  lemma DivisionIsCs(v: Long, w: Long)
    requires w != 0
    ensures var q, r := Machine(Divide, v, w), Machine(Remainder, v, w);
            if v == MINIMUM && w == -1 then q == MINIMUM && r == 0
            else DividesToward0(v, w, q, r)
  {
    hide Machine;
    MachineMeetsMeaning(Divide, v, w);
    MachineMeetsMeaning(Remainder, v, w);
    TruncatedDivides(v, w);
    QuotientFits(v, w);
  }

  lemma QuotientFits(v: Long, w: Long)
    requires w != 0
    ensures var q := Truncated(v, w);
            if v == MINIMUM && w == -1 then q == TWO63 && Wrap(q) == MINIMUM && v - q * w == 0
            else -TWO63 <= q < TWO63 && Wrap(q) == q && Wrap(v - q * w) == v - q * w
  {
    var q := Truncated(v, w);
    TruncatedBounds(v, w);
    if w == -1 {
      TruncatedByMinusOne(v);
      assert q * w == v;
      WrapIdentity(0);
      if v == MINIMUM {
        WrapUnique(TWO63, MINIMUM, 1);
      } else {
        WrapIdentity(q);
      }
    } else {
      WrapIdentity(q);
      WrapIdentity(v - q * w);
    }
  }

  /** Toward zero, not down: -7 / 2 and -7 % 2 */
  lemma MinusSevenByTwo()
    ensures Machine(Divide, -7, 2) == -3 && Machine(Remainder, -7, 2) == -1
  {
    DivisionIsCs(-7, 2);
    DivisionIsUnique(-7, 2, Machine(Divide, -7, 2), Machine(Remainder, -7, 2), -3, -1);
  }

  // ----- Bits -----

  /** Bit `i` of a number in two's complement: halved and rounded down `i` times, it is odd */
  predicate BitOf(v: int, i: nat) {
    v / Power2(i) % 2 == 1
  }

  /** Halving `i` + 1 times is halving once and then `i` times */
  lemma HalveFirst(v: int, i: nat)
    ensures v / Power2(i + 1) == v / 2 / Power2(i)
  {
    var d := Power2(i);
    assert Power2(i + 1) == 2 * d;
    var h, q := v / 2, v / 2 / d;
    var r, s := v % 2, h % d;
    assert v == 2 * h + r && h == d * q + s;
    assert 2 * h == 2 * d * q + 2 * s by { assert 2 * (d * q) == 2 * d * q; }
    FloorIs(v, 2 * d, q, 2 * s + r);
  }

  lemma FloorIs(v: int, d: int, q: int, r: int)
    requires d > 0 && v == d * q + r && 0 <= r < d
    ensures v / d == q
  {
    var q', r' := v / d, v % d;
    assert v == d * q' + r';
    assert (q - q') * d == r' - r by { assert (q - q') * d == d * q - d * q'; }
    SmallMultiple(q - q', d);
  }

  /** Negative numbers have the bits of the unsigned number that they are cast to */
  lemma {:induction false} SameBits(v: int, width: nat, i: nat)
    requires i < width
    ensures BitOf(v + Power2(width), i) == BitOf(v, i)
    decreases i
  {
    var u := v + Power2(width);
    assert Power2(width) == 2 * Power2(width - 1);
    if i == 0 {
      assert u / 1 == u && v / 1 == v;
    } else {
      assert u / 2 == v / 2 + Power2(width - 1);
      HalveFirst(u, i - 1);
      HalveFirst(v, i - 1);
      SameBits(v / 2, width - 1, i - 1);
    }
  }

  lemma CastBits(v: Long, i: nat)
    requires i < 64
    ensures BitOf(Unsigned(v), i) == BitOf(v, i)
  {
    hide Power2, BitOf;
    Power2Of64();
    if v < 0 {
      SameBits(v, 64, i);
    }
  }

  /** Whether a bit of the result is set, the bits of the operands being `b` and `c` */
  predicate Combined(op: BitOperator, b: bool, c: bool, result: bool) {
    match op
    case And => result <==> (b && c)
    case Or => result <==> (b || c)
    case Xor => result <==> ((b && !c) || (!b && c))
  }

  lemma {:induction false} BitwiseBits(op: BitOperator, u: nat, w: nat, width: nat, i: nat)
    requires i < width
    ensures Combined(op, BitOf(u, i), BitOf(w, i), BitOf(Bitwise(op, u, w, width), i))
    decreases i
  {
    var r := Bitwise(op, u, w, width);
    assert r / 2 == Bitwise(op, u / 2, w / 2, width - 1);
    if i == 0 {
      assert u / 1 == u && w / 1 == w && r / 1 == r;
    } else {
      HalveFirst(u, i - 1);
      HalveFirst(w, i - 1);
      HalveFirst(r, i - 1);
      BitwiseBits(op, u / 2, w / 2, width - 1, i - 1);
    }
  }

  /** `&`, `|` and `^`, bit by bit */
  lemma BitsAreCombined(op: BitOperator, v: Long, w: Long, i: nat)
    requires i < 64
    ensures Combined(op, BitOf(v, i), BitOf(w, i), BitOf(Machine(Bits(op), v, w), i))
  {
    hide BitOf, Bitwise, Power2, Combined;
    Power2Of64();
    var u := Bitwise(op, Unsigned(v), Unsigned(w), 64);
    BitwiseBits(op, Unsigned(v), Unsigned(w), 64, i);
    CastBits(v, i);
    CastBits(w, i);
    CastBits(Machine(Bits(op), v, w), i);
    assert Unsigned(Signed(u)) == u;
  }

  // ----- The rest -----

  /** Sums, differences and products are the exact ones up to a multiple of 2^64 */
  lemma ExactModulo(v: Long, w: Long)
    ensures (Machine(Plus, v, w) - (v + w)) % TWO64 == 0
    ensures (Machine(Minus, v, w) - (v - w)) % TWO64 == 0
    ensures (Machine(Times, v, w) - v * w) % TWO64 == 0
  {
    hide Machine;
    MachineMeetsMeaning(Plus, v, w);
    MachineMeetsMeaning(Minus, v, w);
    MachineMeetsMeaning(Times, v, w);
    WrapIsCongruent(v + w);
    WrapIsCongruent(v - w);
    WrapIsCongruent(v * w);
  }

  lemma WrapIsCongruent(x: int)
    ensures (Wrap(x) - x) % TWO64 == 0
  {
    var k := (x + TWO63) / TWO64;
    assert Wrap(x) - x == -k * TWO64;
    MultipleModulo(-k);
  }

  lemma MultipleModulo(k: int)
    ensures k * TWO64 % TWO64 == 0
  {
  }

  /** A shift to the left by one more doubles, and wraps */
  lemma ShiftsLeftByOne(v: Long, n: nat)
    requires n < 63
    ensures Machine(ShiftLeft, v, 0) == v
    ensures Machine(ShiftLeft, v, n + 1) == Wrap(2 * Machine(ShiftLeft, v, n))
  {
    hide Machine, Power2, Wrap;
    ShiftMeanings(v, 0);
    ShiftMeanings(v, n);
    ShiftMeanings(v, n + 1);
    SmallCount(n);
    WrapIdentity(v);
    PowersOf2(n);
    assert Machine(ShiftLeft, v, n + 1) == Wrap(2 * (v * Power2(n))) by {
      DoubledProduct(v, Power2(n));
    }
    DoubleWrapped(v * Power2(n));
  }

  lemma SmallCount(n: nat)
    requires n < 63
    ensures n % 64 == n && (n + 1) % 64 == n + 1 && 0 % 64 == 0
  {
  }

  /** A shift to the right by one more halves, and rounds down */
  lemma ShiftsRightByOne(v: Long, n: nat)
    requires n < 63
    ensures Machine(ShiftRight, v, 0) == v
    ensures Machine(ShiftRight, v, n + 1) == Machine(ShiftRight, v, n) / 2
  {
    hide Machine, Power2, Wrap;
    ShiftMeanings(v, 0);
    ShiftMeanings(v, n);
    ShiftMeanings(v, n + 1);
    SmallCount(n);
    PowersOf2(n);
    WrapIdentity(v);
    ShiftRightBounds(v, Power2(n));
    ShiftRightBounds(v, Power2(n + 1));
    WrapIdentity(v / Power2(n));
    WrapIdentity(v / Power2(n + 1));
    HalveLast(v, n);
  }

  /** Only the low six bits of the count are used */
  lemma ShiftCountIsMasked(v: Long, w: Long, k: int)
    requires -TWO63 <= w + 64 * k < TWO63
    ensures Machine(ShiftLeft, v, w + 64 * k) == Machine(ShiftLeft, v, w)
    ensures Machine(ShiftRight, v, w + 64 * k) == Machine(ShiftRight, v, w)
  {
    hide Machine, Power2, Wrap;
    ShiftMeanings(v, w);
    ShiftMeanings(v, w + 64 * k);
    assert (w + 64 * k) % 64 == w % 64;
  }

  lemma PowersOf2(n: nat)
    ensures Power2(0) == 1 && Power2(n + 1) == 2 * Power2(n)
  {
  }

  lemma DoubledProduct(v: int, d: int)
    ensures v * (2 * d) == 2 * (v * d)
  {
  }

  lemma ShiftMeanings(v: Long, w: Long)
    ensures Machine(ShiftLeft, v, w) == Wrap(v * Power2(w % 64))
    ensures Machine(ShiftRight, v, w) == Wrap(v / Power2(w % 64))
  {
    MachineMeetsMeaning(ShiftLeft, v, w);
    MachineMeetsMeaning(ShiftRight, v, w);
  }

  lemma HalveLast(v: int, n: nat)
    ensures v / Power2(n + 1) == v / Power2(n) / 2
  {
    var d := Power2(n);
    PowersOf2(n);
    HalveQuotient(v, d, v / d, v % d, v / d / 2, v / d % 2);
  }

  lemma HalveQuotient(v: int, d: int, q: int, s: int, h: int, r: int)
    requires d > 0 && v == d * q + s && 0 <= s < d && q == 2 * h + r && 0 <= r < 2
    ensures v / (2 * d) == h
  {
    assert d * q == 2 * d * h + d * r by {
      assert d * (2 * h + r) == d * (2 * h) + d * r;
      assert d * (2 * h) == 2 * d * h;
    }
    assert d * r == if r == 0 then 0 else d;
    FloorIs(v, 2 * d, h, d * r + s);
  }

  lemma DoubleWrapped(x: int)
    ensures Wrap(2 * Wrap(x)) == Wrap(2 * x)
  {
    var k := (x + TWO63) / TWO64;
    assert Wrap(x) == x - k * TWO64;
    var j := (2 * Wrap(x) + TWO63) / TWO64;
    assert Wrap(2 * Wrap(x)) == 2 * Wrap(x) - j * TWO64;
    WrapUnique(2 * x, Wrap(2 * Wrap(x)), 2 * k + j);
  }
}
