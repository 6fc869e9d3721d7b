/** The checksum that ties a long name to its short one: mkfat's in whole numbers, and the
    kernel's, which reads what mkfat wrote, in 8-bit words.
 */
module FatChecksum {
  import opened FatNames

  /** lfn_checksum of mkfat */
  function Checksum(raw: seq<Byte>): Byte {
    if raw == [] then 0
    else
      var total := Checksum(raw[..|raw| - 1]);
      (total % 2 * 128 + total / 2 + raw[|raw| - 1]) % 256
  }

  // ----- 8-bit words -----

  function Number(w: bv8): nat {
    w as int
  }

  /** The word that so many steps from 0 lead to */
  function Word(c: Byte): (w: bv8)
    ensures Number(w) == c
  {
    if c == 0 then Below256(0); 0 else OneMore(Word(c - 1)); Word(c - 1) + 1
  }

  lemma HalfOf(w: bv8)
    ensures Number(w >> 1) == Number(w) / 2
  {
  }

  lemma LowBitUp(w: bv8)
    ensures Number((w & 1) << 7) == Number(w) % 2 * 128
  {
  }

  lemma Below256(w: bv8)
    ensures Number(w) < 256 && Number(0) == 0
  {
  }

  lemma OneMore(w: bv8)
    ensures Number(w + 1) == (Number(w) + 1) % 256
  {
  }

  lemma OneLess(w: bv8)
    requires w != 0
    ensures Number(w - 1) == Number(w) - 1
  {
  }

  lemma AndBack(v: bv8, w: bv8)
    ensures v + (w - 1) + 1 == v + w && v + 0 == v
  {
  }

  lemma AddedOn(n: nat, more: nat)
    ensures (n % 256 + more) % 256 == (n + more) % 256
  {
  }

  lemma {:induction false} Sum(v: bv8, w: bv8)
    ensures Number(v + w) == (Number(v) + Number(w)) % 256
    decreases Number(w)
  {
    hide Number;
    AndBack(v, w);
    Below256(v);
    if w != 0 {
      OneLess(w);
      Sum(v, w - 1);
      OneMore(v + (w - 1));
      AddedOn(Number(v) + Number(w) - 1, 1);
    }
  }

  function Plus(v: bv8, w: bv8): bv8 {
    v + w
  }

  lemma PlusIs(v: bv8, w: bv8)
    ensures Number(Plus(v, w)) == (Number(v) + Number(w)) % 256
  {
    hide Number;
    Sum(v, w);
  }

  /** Turned right by a bit, and the next byte added */
  function Turned(sum: bv8, c: bv8): bv8 {
    Plus(Plus((sum & 1) << 7, sum >> 1), c)
  }

  /** lfn_checksum of the kernel, as far as it has come */
  function KernelSum(raw: seq<Byte>): bv8 {
    if raw == [] then 0 else Turned(KernelSum(raw[..|raw| - 1]), Word(raw[|raw| - 1]))
  }

  method LfnChecksum(raw: Raw) returns (sum: bv8)
    ensures sum == KernelSum(raw)
    ensures Number(sum) == Checksum(raw)
  {
    sum := 0;
    for i := 0 to 11
      invariant sum == KernelSum(raw[..i])
    {
      assert raw[..i + 1][..i] == raw[..i];
      sum := ((sum & 1) << 7) + (sum >> 1) + Word(raw[i]);
    }
    assert raw[..11] == raw;
    SumsAgree(raw);
  }

  lemma TurnedIs(w: bv8, c: bv8)
    ensures Number(Turned(w, c)) == (Number(w) % 2 * 128 + Number(w) / 2 + Number(c)) % 256
  {
    hide Number, Plus;
    HalfOf(w);
    LowBitUp(w);
    PlusIs((w & 1) << 7, w >> 1);
    PlusIs(Plus((w & 1) << 7, w >> 1), c);
    AddedOn(Number(w) % 2 * 128 + Number(w) / 2, Number(c));
  }

  /** The kernel and mkfat compute the same, of any bytes */
  lemma {:induction false} SumsAgree(raw: seq<Byte>)
    ensures Number(KernelSum(raw)) == Checksum(raw)
  {
    hide Number, Turned, Word;
    Below256(0);
    if raw != [] {
      var rest := raw[..|raw| - 1];
      SumsAgree(rest);
      TurnedIs(KernelSum(rest), Word(raw[|raw| - 1]));
    }
  }

  /** The value at LONGNA~1 */
  lemma ChecksumOfLongNames(raw: Raw)
    requires raw == [76, 79, 78, 71, 78, 65, 126, 49, 32, 32, 32]
    ensures Checksum(raw) == 0x17
  {
    hide Checksum;
    NoSum(raw[..0]);
    SumTo(raw, 0, 76, 0, 76);
    SumTo(raw, 1, 79, 76, 117);
    SumTo(raw, 2, 78, 117, 8);
    SumTo(raw, 3, 71, 8, 75);
    SumTo(raw, 4, 78, 75, 243);
    SumTo(raw, 5, 65, 243, 58);
    SumTo(raw, 6, 126, 58, 155);
    SumTo(raw, 7, 49, 155, 254);
    SumTo(raw, 8, 32, 254, 159);
    SumTo(raw, 9, 32, 159, 239);
    SumTo(raw, 10, 32, 239, 23);
    assert raw[..11] == raw;
  }

  lemma NoSum(raw: seq<Byte>)
    requires raw == []
    ensures Checksum(raw) == 0
  {
  }

  lemma SumTo(raw: Raw, i: nat, c: Byte, sum: Byte, next: Byte)
    requires i < 11 && raw[i] == c && Checksum(raw[..i]) == sum && next == (sum % 2 * 128 + sum / 2 + c) % 256
    ensures Checksum(raw[..i + 1]) == next
  {
    assert raw[..i + 1][..i] == raw[..i];
  }
}
