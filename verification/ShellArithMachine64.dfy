/** C's 64-bit integers, and the arithmetic that `$((...))` does with them.

    `Machine` is what the evaluator's C text computes: everything by way of
    `unsigned long`, which wraps. `Meaning` is the arithmetic the
    comment above the evaluator promises: the exact result, brought back into range as two's
    complement. `MachineMeetsMeaning` proves that they are the same function.
 */
module Machine64 {

  const TWO63: int := 0x8000_0000_0000_0000
  const TWO64: int := 0x1_0000_0000_0000_0000

  /** C's `long` and `unsigned long` */
  type Long = v: int | -TWO63 <= v < TWO63
  type ULong = u: int | 0 <= u < TWO64

  /** The casts between them */
  function Unsigned(v: Long): ULong {
    if v < 0 then v + TWO64 else v
  }

  function Signed(u: ULong): Long {
    if u < TWO63 then u else u - TWO64
  }

  datatype BinaryOperator =
    | Times | Divide | Remainder
    | Plus | Minus
    | ShiftLeft | ShiftRight
    | Less | LessEqual | Greater | GreaterEqual
    | Equal | NotEqual
    | Bits(bit: BitOperator)
    | AndAlso | OrElse

  datatype BitOperator = And | Xor | Or

  predicate Divides(op: BinaryOperator) {
    op.Divide? || op.Remainder?
  }

  function Truth(b: bool): Long {
    if b then 1 else 0
  }

  function Power2(n: nat): (r: nat)
    ensures r > 0
  {
    if n == 0 then 1 else 2 * Power2(n - 1)
  }

  function Bit(op: BitOperator, b: bool, c: bool): bool {
    match op
    case And => b && c
    case Xor => b != c
    case Or => b || c
  }

  /** `width` bits of `u` and `w` combined one by one */
  function Bitwise(op: BitOperator, u: nat, w: nat, width: nat): (r: nat)
    ensures r < Power2(width)
  {
    if width == 0 then 0
    else 2 * Bitwise(op, u / 2, w / 2, width - 1) + (if Bit(op, u % 2 == 1, w % 2 == 1) then 1 else 0)
  }

  function BitwiseLong(op: BitOperator, v: Long, w: Long): Long {
    Power2Of64();
    Signed(Bitwise(op, Unsigned(v), Unsigned(w), 64))
  }

  lemma Power2Add(m: nat, n: nat)
    ensures Power2(m + n) == Power2(m) * Power2(n)
  {
    if m > 0 {
      Power2Add(m - 1, n);
    }
  }

  lemma Power2Of16()
    ensures Power2(16) == 0x1_0000
  {
    assert Power2(4) == 16;
    Power2Add(4, 4);
    Power2Add(8, 8);
  }

  lemma Power2Of64()
    ensures Power2(64) == TWO64
  {
    hide Power2;
    Power2Of16();
    Power2Add(16, 16);
    Power2Add(32, 32);
  }

  /** C's `/` on `long` rounds toward zero, and `%` takes what is left */
  function Truncated(v: int, w: int): int
    requires w != 0
  {
    if v >= 0 then v / w else -((-v) / w)
  }

  lemma TruncatedBounds(v: int, w: int)
    requires w != 0
    ensures v >= 0 ==> -v <= Truncated(v, w) <= v
    ensures v < 0 ==> v <= Truncated(v, w) <= -v
    ensures v < 0 && w != -1 ==> Truncated(v, w) <= -v - 1
    ensures -w < v - Truncated(v, w) * w < w || w < v - Truncated(v, w) * w < -w
  {
    var a := if v < 0 then -v else v;
    var q, r := a / w, a % w;
    QuotientBounds(a, w, q, r);
    assert Truncated(v, w) * w == if v < 0 then -(q * w) else q * w;
  }

  lemma QuotientBounds(a: int, w: int, q: int, r: int)
    requires w != 0 && 0 <= a == w * q + r && 0 <= r && (r < w || r < -w)
    ensures -a <= q <= a
    ensures a > 0 && w != -1 ==> -a < q
  {
    if w > 0 {
      PositiveQuotient(a, w, q, r);
    } else {
      assert w * q == (-w) * (-q);
      PositiveQuotient(a, -w, -q, r);
    }
  }

  lemma PositiveQuotient(a: int, w: int, q: int, r: int)
    requires 0 <= a == w * q + r && 0 <= r < w
    ensures 0 <= q <= a
    ensures a > 0 && w > 1 ==> q < a
  {
    if q < 0 {
      var n := -q - 1;
      assert w * q == -w - w * n;
      ProductOfNaturals(w, n);
      assert false;
    }
    assert w * q == q + (w - 1) * q;
    ProductOfNaturals(w - 1, q);
    if w > 1 && q > 0 {
      assert (w - 1) * q == q + (w - 2) * q;
      ProductOfNaturals(w - 2, q);
    }
  }

  lemma ProductOfNaturals(a: nat, b: nat)
    ensures a * b >= 0
  {
  }

  // ----- What the C text computes -----

  function AddUnsigned(u: ULong, w: ULong): ULong { (u + w) % TWO64 }

  function SubtractUnsigned(u: ULong, w: ULong): ULong { (u - w) % TWO64 }

  function MultiplyUnsigned(u: ULong, w: ULong): ULong { (u * w) % TWO64 }

  /** `v` op `w` as the loops of the evaluator compute it. Division by zero
      gives 0 here; that it is an error is not the operator's business. */
  function Machine(op: BinaryOperator, v: Long, w: Long): Long {
    match op
    case Times => Signed(MultiplyUnsigned(Unsigned(v), Unsigned(w)))
    case Divide =>
      if w == 0 then 0
      else if w == -1 then Signed(SubtractUnsigned(0, Unsigned(v)))
      else TruncatedBounds(v, w); Truncated(v, w)
    case Remainder =>
      if w == 0 || w == -1 then 0
      else TruncatedBounds(v, w); v - Truncated(v, w) * w
    case Plus => Signed(AddUnsigned(Unsigned(v), Unsigned(w)))
    case Minus => Signed(SubtractUnsigned(Unsigned(v), Unsigned(w)))
    case ShiftLeft => Signed((Unsigned(v) * Power2(Unsigned(w) % 64)) % TWO64)
    case ShiftRight => ShiftRightBounds(v, Power2(Unsigned(w) % 64)); v / Power2(Unsigned(w) % 64)
    case Less => Truth(v < w)
    case LessEqual => Truth(v <= w)
    case Greater => Truth(v > w)
    case GreaterEqual => Truth(v >= w)
    case Equal => Truth(v == w)
    case NotEqual => Truth(v != w)
    case Bits(bit) => BitwiseLong(bit, v, w)
    case AndAlso => Truth(v != 0 && w != 0)
    case OrElse => Truth(v != 0 || w != 0)
  }

  lemma ShiftRightBounds(v: int, divisor: nat)
    requires divisor > 0
    ensures v >= 0 ==> 0 <= v / divisor <= v
    ensures v < 0 ==> v <= v / divisor < 0
  {
    FloorParts(v, divisor, v / divisor, v % divisor);
  }

  lemma FloorParts(v: int, d: int, q: int, r: int)
    requires v == d * q + r && 0 <= r < d
    ensures v >= 0 ==> 0 <= q <= v
    ensures v < 0 ==> v <= q < 0
  {
    if q >= 0 {
      assert d * q == q + (d - 1) * q;
      ProductOfNaturals(d - 1, q);
    } else {
      var n := -q - 1;
      assert d * q == -d - n - (d - 1) * n;
      ProductOfNaturals(d - 1, n);
    }
  }

  /** `0UL - v`, `v + 1UL`, `v + ~0UL` and `~v` */
  function NegateMachine(v: Long): Long { Signed(SubtractUnsigned(0, Unsigned(v))) }

  function StepMachine(v: Long, up: bool): Long { Signed(AddUnsigned(Unsigned(v), if up then 1 else TWO64 - 1)) }

  function ComplementMachine(v: Long): Long { Signed(TWO64 - 1 - Unsigned(v)) }

  // ----- What the arithmetic means -----

  /** The 64-bit number congruent to `x` modulo 2^64 */
  function Wrap(x: int): Long {
    (x + TWO63) % TWO64 - TWO63
  }

  lemma WrapUnique(x: int, v: Long, k: int)
    requires x == v + k * TWO64
    ensures Wrap(x) == v
  {
    assert x + TWO63 == (v + TWO63) + k * TWO64;
    ModuloUnique(x + TWO63, k, v + TWO63);
  }

  lemma ModuloUnique(x: int, k: int, r: int)
    requires x == r + k * TWO64 && 0 <= r < TWO64
    ensures x % TWO64 == r
  {
  }

  /** The operators as documented: exact results, wrapped around; shift counts
      modulo 64; `>>` keeps the sign (it rounds down) */
  function Meaning(op: BinaryOperator, v: Long, w: Long): Long
    requires Divides(op) ==> w != 0
  {
    match op
    case Times => Wrap(v * w)
    case Divide => Wrap(Truncated(v, w))
    case Remainder => Wrap(v - Truncated(v, w) * w)
    case Plus => Wrap(v + w)
    case Minus => Wrap(v - w)
    case ShiftLeft => Wrap(v * Power2(w % 64))
    case ShiftRight => Wrap(v / Power2(w % 64))
    case Less => Truth(v < w)
    case LessEqual => Truth(v <= w)
    case Greater => Truth(v > w)
    case GreaterEqual => Truth(v >= w)
    case Equal => Truth(v == w)
    case NotEqual => Truth(v != w)
    case Bits(bit) => BitwiseLong(bit, v, w)
    case AndAlso => Truth(v != 0 && w != 0)
    case OrElse => Truth(v != 0 || w != 0)
  }

  lemma WrapOfUnsigned(x: int, u: int)
    requires exists k :: x == u + k * TWO64
    ensures Signed(u % TWO64) == Wrap(x)
  {
    var k :| x == u + k * TWO64;
    var r := u % TWO64;
    var j := u / TWO64;
    assert u == r + j * TWO64;
    WrapUnique(x, Signed(r), if r < TWO63 then k + j else k + j + 1);
  }

  lemma UnsignedCongruent(v: Long) returns (k: int)
    ensures v == Unsigned(v) + k * TWO64 && (k == 0 || k == -1)
  {
    k := if v < 0 then -1 else 0;
  }

  lemma TimesWraps(v: Long, w: int, u: int)
    requires w == u || w == u - TWO64
    ensures Signed((Unsigned(v) * u) % TWO64) == Wrap(v * w)
  {
    var k := UnsignedCongruent(v);
    var j := if w == u then 0 else -1;
    calc {
      v * w;
      (Unsigned(v) + k * TWO64) * (u + j * TWO64);
      Unsigned(v) * u + Unsigned(v) * (j * TWO64) + (k * TWO64) * (u + j * TWO64);
      Unsigned(v) * u + (Unsigned(v) * j + k * (u + j * TWO64)) * TWO64;
    }
    WrapOfUnsigned(v * w, Unsigned(v) * u);
  }

  lemma WrapIdentity(v: Long)
    ensures Wrap(v) == v
  {
    WrapUnique(v, v, 0);
  }

  /** Going through `unsigned long` computes the documented arithmetic: the
      casts, the special case for -1 and the masked shift counts are all
      the exact result wrapped around. */
  lemma MachineMeetsMeaning(op: BinaryOperator, v: Long, w: Long)
    requires Divides(op) ==> w != 0
    ensures Machine(op, v, w) == Meaning(op, v, w)
  {
    match op
    case Times => TimesWraps(v, w, Unsigned(w));
    case Divide => DivisionMeaning(v, w);
    case Remainder => DivisionMeaning(v, w);
    case Plus => SumMeaning(v, w);
    case Minus => SumMeaning(v, w);
    case ShiftLeft =>
      assert Unsigned(w) % 64 == w % 64;
      TimesWraps(v, Power2(w % 64), Power2(w % 64));
    case ShiftRight =>
      assert Unsigned(w) % 64 == w % 64;
      ShiftRightBounds(v, Power2(w % 64));
      WrapIdentity(v / Power2(w % 64));
    case _ =>
  }

  lemma SumMeaning(v: Long, w: Long)
    ensures Signed(AddUnsigned(Unsigned(v), Unsigned(w))) == Wrap(v + w)
    ensures Signed(SubtractUnsigned(Unsigned(v), Unsigned(w))) == Wrap(v - w)
  {
    var k := UnsignedCongruent(v);
    var j := UnsignedCongruent(w);
    assert v + w == Unsigned(v) + Unsigned(w) + (k + j) * TWO64;
    WrapOfUnsigned(v + w, Unsigned(v) + Unsigned(w));
    assert v - w == Unsigned(v) - Unsigned(w) + (k - j) * TWO64;
    WrapOfUnsigned(v - w, Unsigned(v) - Unsigned(w));
  }

  lemma DivisionMeaning(v: Long, w: Long)
    requires w != 0
    ensures Machine(Divide, v, w) == Wrap(Truncated(v, w))
    ensures Machine(Remainder, v, w) == Wrap(v - Truncated(v, w) * w)
  {
    if w == -1 {
      TruncatedByMinusOne(v);
      NegateMeaning(v);
      assert Truncated(v, w) * w == v;
      WrapIdentity(0);
    } else {
      TruncatedBounds(v, w);
      WrapIdentity(Truncated(v, w));
      WrapIdentity(v - Truncated(v, w) * w);
    }
  }

  lemma TruncatedByMinusOne(v: int)
    ensures Truncated(v, -1) == -v
  {
  }

  /** Negation (the minimum stays where it is), the steps of `++` and `--`,
      and `~`, which is -v - 1 */
  lemma NegateMeaning(v: Long)
    ensures NegateMachine(v) == Wrap(-(v as int))
  {
    var k := UnsignedCongruent(v);
    var x: int, u: int := v, Unsigned(v);
    assert -x == -u + (-k) * TWO64;
    WrapOfUnsigned(-x, -u);
  }

  lemma StepMeaning(v: Long, up: bool)
    ensures StepMachine(v, up) == Wrap(if up then v + 1 else v - 1)
  {
    var k := UnsignedCongruent(v);
    var x := if up then v + 1 else v - 1;
    var u := Unsigned(v) + (if up then 1 else TWO64 - 1);
    assert x == u + (if up then k else k - 1) * TWO64;
    WrapOfUnsigned(x, u);
  }

  lemma ComplementMeaning(v: Long)
    ensures ComplementMachine(v) as int == -1 - (v as int)
  {
  }
}
