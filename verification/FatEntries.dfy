/** Directory entries of 32 bytes: written for a list of names, and read back. */
module FatEntries {
  import opened FatNames
  import opened FatChecksum

  const ATTR_DIRECTORY: Byte := 0x10
  const ATTR_ARCHIVE: Byte := 0x20
  const ATTR_LONG: Byte := 0x0F
  const FAT_DATE: nat := 23585
  const FAT_TIME: nat := 0

  /** A name in a directory */
  datatype Entry = Entry(name: Name, attr: Byte, cluster: nat, size: nat)

  // ----- Numbers -----

  function Two(v: nat): (s: seq<Byte>)
    ensures |s| == 2
  {
    [v % 256, v / 256 % 256]
  }

  function Four(v: nat): (s: seq<Byte>)
    ensures |s| == 4
  {
    Two(v % 65536) + Two(v / 65536)
  }

  function Read2(s: seq<Byte>): nat
    requires |s| == 2
  {
    (s[0] as int) + 256 * (s[1] as int)
  }

  function Read4(s: seq<Byte>): nat
    requires |s| == 4
  {
    Read2(s[..2]) + 65536 * Read2(s[2..])
  }

  lemma TwoRoundTrip(v: nat)
    requires v < 65536
    ensures Read2(Two(v)) == v
  {
  }

  lemma FourRoundTrip(v: nat)
    requires v < 0x1_0000_0000
    ensures Read4(Four(v)) == v
  {
    TwoRoundTrip(v % 65536);
    TwoRoundTrip(v / 65536);
    assert Four(v)[..2] == Two(v % 65536) && Four(v)[2..] == Two(v / 65536);
  }

  // ----- The entry itself -----

  function FlagsOf(s: Short): Byte {
    (if s.lowerBase then 0x08 else 0) + (if s.lowerExtension then 0x10 else 0)
  }

  function Front(attr: Byte, flags: Byte): (s: seq<Byte>)
    ensures |s| == 9 && s[0] == attr && s[1] == flags
  {
    [attr, flags, 0] + Two(FAT_TIME) + Two(FAT_DATE) + Two(FAT_DATE)
  }

  function WrittenAt(): (s: seq<Byte>)
    ensures |s| == 4
  {
    Two(FAT_TIME) + Two(FAT_DATE)
  }

  function ShortEntry(s: Short, attr: Byte, cluster: nat, size: nat): (b: seq<Byte>)
    ensures |b| == 32
  {
    s.raw + Front(attr, FlagsOf(s)) + Two(cluster / 65536) + WrittenAt() + Two(cluster % 65536) + Four(size)
  }

  /** The entry, read */
  datatype Slot =
    | End
    | LongSlot(ordinal: Byte, checksum: Byte, units: seq<nat>)
    | ShortSlot(short: Short, attr: Byte, cluster: nat, size: nat)

  function SlotOf(b: seq<Byte>): Slot
    requires |b| == 32
  {
    if b[0] == 0 then End
    else if b[11] == ATTR_LONG
    then LongSlot(b[0], b[13], ReadUnits(b[1..11]) + ReadUnits(b[14..26]) + ReadUnits(b[28..32]))
    else ShortSlot(Short(b[..11], b[12] / 8 % 2 == 1, b[12] / 16 % 2 == 1), b[11],
                   Read2(b[20..22]) * 65536 + Read2(b[26..28]), Read4(b[28..32]))
  }

  function ReadUnits(s: seq<Byte>): seq<nat>
    requires |s| % 2 == 0
  {
    if s == [] then [] else [Read2(s[..2])] + ReadUnits(s[2..])
  }

  lemma SixParts(a: seq<Byte>, b: seq<Byte>, c: seq<Byte>, d: seq<Byte>, e: seq<Byte>, f: seq<Byte>)
    requires |a| == 11 && |b| == 9 && |c| == 2 && |d| == 4 && |e| == 2 && |f| == 4
    ensures var s := a + b + c + d + e + f;
            && s[0] == a[0] && s[..11] == a && s[11] == b[0] && s[12] == b[1] && s[20..22] == c && s[26..28] == e
            && s[28..32] == f
  {
  }

  lemma ShortSlotRead(s: Short, attr: Byte, cluster: nat, size: nat)
    requires s.raw[0] != 0 && attr != ATTR_LONG && cluster < 0x1_0000_0000 && size < 0x1_0000_0000
    ensures SlotOf(ShortEntry(s, attr, cluster, size)) == ShortSlot(s, attr, cluster, size)
  {
    hide Two, Four, Read2, Read4, Front, WrittenAt, FlagsOf;
    SixParts(s.raw, Front(attr, FlagsOf(s)), Two(cluster / 65536), WrittenAt(), Two(cluster % 65536), Four(size));
    TwoRoundTrip(cluster / 65536);
    TwoRoundTrip(cluster % 65536);
    FourRoundTrip(size);
    FlagsRead(s);
  }

  lemma FlagsRead(s: Short)
    ensures (FlagsOf(s) / 8 % 2 == 1) == s.lowerBase && (FlagsOf(s) / 16 % 2 == 1) == s.lowerExtension
  {
  }

  // ----- Long names -----

  predicate IsLong(name: Name) {
    |name| <= 127 && forall i | 0 <= i < |name| :: 32 <= name[i] < 127 && !Forbidden(name[i])
  }

  /** "*\/:<>?|, each of which means something in a path or a pattern */
  predicate Forbidden(c: Byte) {
    c == 34 || c == 42 || c == 47 || c == 58 || c == 60 || c == 62 || c == 63 || c == 92 || c == 124
  }

  function Pieces(name: Name): nat {
    (|name| + 12) / 13
  }

  /** The name, a zero if there is room for it, and padding */
  function Units(name: Name): (u: seq<nat>)
    ensures |u| == 13 * Pieces(name)
    ensures forall i | 0 <= i < |name| :: u[i] == name[i]
    ensures forall i | |name| <= i < |u| :: u[i] == if i == |name| then 0 else 0xFFFF
  {
    var count := Pieces(name);
    seq(13 * count, i requires 0 <= i < 13 * count =>
        if i < |name| then name[i] as int else if i == |name| then 0 else 0xFFFF)
  }

  function UnitBytes(u: seq<nat>): (s: seq<Byte>)
    ensures |s| == 2 * |u|
  {
    if u == [] then [] else Two(u[0]) + UnitBytes(u[1..])
  }

  lemma {:induction false} UnitsRoundTrip(u: seq<nat>)
    requires forall i | 0 <= i < |u| :: u[i] < 65536
    ensures ReadUnits(UnitBytes(u)) == u
  {
    hide Two, Read2;
    if u != [] {
      UnitsRoundTrip(u[1..]);
      TwoRoundTrip(u[0]);
      var s := UnitBytes(u);
      assert s[..2] == Two(u[0]) && s[2..] == UnitBytes(u[1..]);
    }
  }

  function LongEntry(ordinal: Byte, u: seq<nat>, checksum: Byte): (b: seq<Byte>)
    requires |u| == 13
    ensures |b| == 32
  {
    [ordinal] + UnitBytes(u[..5]) + [ATTR_LONG, 0, checksum] + UnitBytes(u[5..11]) + [0, 0] + UnitBytes(u[11..])
  }

  lemma LongParts(a: seq<Byte>, b: seq<Byte>, c: seq<Byte>, d: seq<Byte>, e: seq<Byte>, f: seq<Byte>)
    requires |a| == 1 && |b| == 10 && |c| == 3 && |d| == 12 && |e| == 2 && |f| == 4
    ensures var s := a + b + c + d + e + f;
            && s[0] == a[0] && s[1..11] == b && s[11] == c[0] && s[13] == c[2] && s[14..26] == d && s[28..32] == f
  {
  }

  lemma LongSlotRead(ordinal: Byte, u: seq<nat>, checksum: Byte)
    requires |u| == 13 && ordinal != 0 && forall i | 0 <= i < 13 :: u[i] < 65536
    ensures SlotOf(LongEntry(ordinal, u, checksum)) == LongSlot(ordinal, checksum, u)
  {
    hide UnitBytes, ReadUnits, Read2, Read4;
    LongParts([ordinal], UnitBytes(u[..5]), [ATTR_LONG, 0, checksum], UnitBytes(u[5..11]), [0, 0], UnitBytes(u[11..]));
    UnitsRoundTrip(u[..5]);
    UnitsRoundTrip(u[5..11]);
    UnitsRoundTrip(u[11..]);
    assert u[..5] + u[5..11] + u[11..] == u;
  }

  // ----- Reading a directory -----

  /** The long name that is being put together, from its end: the piece it has come to */
  datatype Pending = Nothing | Piece(ordinal: nat, checksum: Byte, units: seq<nat>)

  /** A long entry continues the name only in order and with the same checksum */
  function Collect(p: Pending, ordinal: Byte, checksum: Byte, units: seq<nat>): Pending {
    if ordinal >= 0x40 then Piece(ordinal - 0x40, checksum, units)
    else if p.Piece? && ordinal == p.ordinal - 1 && checksum == p.checksum
    then Piece(ordinal, checksum, units + p.units)
    else Nothing
  }

  /** The units before the zero */
  function UnitsName(units: seq<nat>): seq<nat> {
    if units == [] || units[0] == 0 then [] else [units[0]] + UnitsName(units[1..])
  }

  /** The long name, if it is whole and belongs to this short one */
  function ReadName(p: Pending, short: Short): seq<nat> {
    if p.Piece? && p.ordinal == 1 && p.checksum == Number(KernelSum(short.raw)) then UnitsName(p.units)
    else ShownName(short)
  }

  /** An entry as a reader gets it; characters are 16 bits wide */
  datatype Found = Found(name: seq<nat>, attr: Byte, cluster: nat, size: nat)

  /** Every entry up to the first that starts with a zero, or the end */
  function ReadEntries(bytes: seq<Byte>, p: Pending): seq<Found>
    decreases |bytes|
  {
    if |bytes| < 32 then []
    else
      match SlotOf(bytes[..32])
      case End => []
      case LongSlot(ordinal, checksum, units) => ReadEntries(bytes[32..], Collect(p, ordinal, checksum, units))
      case ShortSlot(short, attr, cluster, size) =>
        [Found(ReadName(p, short), attr, cluster, size)] + ReadEntries(bytes[32..], Nothing)
  }

  lemma ReadZeros(bytes: seq<Byte>)
    requires |bytes| > 0 ==> bytes[0] == 0
    ensures ReadEntries(bytes, Nothing) == []
  {
  }

  lemma FirstSlot(entry: seq<Byte>, rest: seq<Byte>)
    requires |entry| == 32
    ensures (entry + rest)[..32] == entry && (entry + rest)[32..] == rest
  {
  }

  // ----- Writing long names -----

  /** The entries of pieces `n` down to 1 of a name of `count` */
  function LongEntries(units: seq<nat>, count: nat, n: nat, checksum: Byte): (b: seq<Byte>)
    requires n <= count < 0x40 && |units| == 13 * count
    ensures |b| == 32 * n
  {
    if n == 0 then []
    else
      LongEntry(if n == count then n + 0x40 else n, units[13 * (n - 1)..13 * n], checksum)
      + LongEntries(units, count, n - 1, checksum)
  }

  lemma {:induction false} LongEntriesRead(units: seq<nat>, count: nat, n: nat, checksum: Byte, rest: seq<Byte>,
                                           p: Pending)
    requires 0 < n <= count < 0x40 && |units| == 13 * count && forall i | 0 <= i < |units| :: units[i] < 65536
    requires n < count ==> p == Piece(n + 1, checksum, units[13 * n..])
    ensures ReadEntries(LongEntries(units, count, n, checksum) + rest, p)
            == ReadEntries(rest, Piece(1, checksum, units))
    decreases n
  {
    hide LongEntry, SlotOf;
    var ordinal: Byte := if n == count then n + 0x40 else n;
    var piece := units[13 * (n - 1)..13 * n];
    var entry, more := LongEntry(ordinal, piece, checksum), LongEntries(units, count, n - 1, checksum);
    LongSlotRead(ordinal, piece, checksum);
    assert LongEntries(units, count, n, checksum) + rest == entry + (more + rest);
    FirstSlot(entry, more + rest);
    PieceJoins(units, count, n);
    var next := Collect(p, ordinal, checksum, piece);
    assert next == Piece(n, checksum, units[13 * (n - 1)..]);
    if n > 1 {
      LongEntriesRead(units, count, n - 1, checksum, rest, next);
    } else {
      assert more + rest == rest && units[0..] == units;
    }
  }

  lemma PieceJoins(units: seq<nat>, count: nat, n: nat)
    requires 0 < n <= count && |units| == 13 * count
    ensures units[13 * (n - 1)..] == units[13 * (n - 1)..13 * n] + units[13 * n..]
    ensures n == count ==> units[13 * (n - 1)..] == units[13 * (n - 1)..13 * n]
  {
  }

  lemma {:induction false} UnitsNameIs(units: seq<nat>, name: Name, at: nat)
    requires at <= |name| <= |units| && (forall i | 0 <= i < |name| :: name[i] != 0 && units[i] == name[i])
    requires |name| < |units| ==> units[|name|] == 0
    ensures UnitsName(units[at..]) == name[at..]
    decreases |name| - at
  {
    if at < |name| {
      UnitsNameIs(units, name, at + 1);
      assert units[at..][1..] == units[at + 1..];
      assert name[at..] == [name[at]] + name[at + 1..];
    } else if |name| < |units| {
      assert units[at..][0] == 0;
    }
  }
}
