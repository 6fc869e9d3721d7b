/** The headers and entries of an ELF64 file written as bytes, and that they are read as they
    were written. The numbers are those of the ELF-64 format.
 */
module ElfBytes {
  import opened ElfFormat

  // ----- Headers -----

  function EhdrBytes(kind: nat, machine: nat, entry: U64, phoff: U64, phentsize: nat, phnum: nat): (s: seq<Byte>)
    ensures |s| == EHDR_SIZE
  {
    Ident() + BytesOf(kind, 2) + BytesOf(machine, 2) + BytesOf(1, 4) + BytesOf(entry, 8) + BytesOf(phoff, 8)
    + BytesOf(0, 14) + BytesOf(phentsize, 2) + BytesOf(phnum, 2) + BytesOf(0, 6)
  }

  function Ident(): (s: seq<Byte>)
    ensures |s| == 16
  {
    [0x7F, 'E' as int, 'L' as int, 'F' as int, 2, 1, 1] + BytesOf(0, 9)
  }

  function PhdrBytes(ph: Phdr): (s: seq<Byte>)
    ensures |s| == PHDR_SIZE
  {
    BytesOf(ph.kind, 4) + BytesOf(ph.flags, 4) + BytesOf(ph.offset, 8) + BytesOf(ph.vaddr, 8) + BytesOf(0, 8)
    + BytesOf(ph.filesz, 8) + BytesOf(ph.memsz, 8) + BytesOf(PAGE_SIZE, 8)
  }

  lemma FieldIs(file: seq<Byte>, at: nat, n: nat, v: nat)
    requires at + n <= |file| && file[at..at + n] == BytesOf(v, n) && v < Pow256(n)
    ensures Field(file, at, n) == v
  {
    BytesRoundTrip(v, n);
  }

  lemma QuadIs(file: seq<Byte>, at: nat, v: U64)
    requires at + 8 <= |file| && file[at..at + 8] == BytesOf(v, 8)
    ensures Quad(file, at) == v
  {
    Pow256Of8();
    FieldIs(file, at, 8, v);
  }

  /** A program header is read as it was written, wherever it is */
  lemma PhdrRoundTrip(before: seq<Byte>, ph: Phdr, after: seq<Byte>)
    requires ph.kind < Pow256(4) && ph.flags < Pow256(4)
    ensures PhdrAt(before + PhdrBytes(ph) + after, |before|) == ph
  {
    hide BytesOf, Pow256, Field, Quad;
    var file, at := before + PhdrBytes(ph) + after, |before|;
    PhdrParts(before, ph, after);
    FieldIs(file, at, 4, ph.kind);
    FieldIs(file, at + 4, 4, ph.flags);
    QuadIs(file, at + 8, ph.offset);
    QuadIs(file, at + 16, ph.vaddr);
    QuadIs(file, at + 32, ph.filesz);
    QuadIs(file, at + 40, ph.memsz);
  }

  lemma PhdrParts(before: seq<Byte>, ph: Phdr, after: seq<Byte>)
    ensures var file, at := before + PhdrBytes(ph) + after, |before|;
            && file[at..at + 4] == BytesOf(ph.kind, 4) && file[at + 4..at + 8] == BytesOf(ph.flags, 4)
            && file[at + 8..at + 16] == BytesOf(ph.offset, 8) && file[at + 16..at + 24] == BytesOf(ph.vaddr, 8)
            && file[at + 32..at + 40] == BytesOf(ph.filesz, 8) && file[at + 40..at + 48] == BytesOf(ph.memsz, 8)
  {
    hide BytesOf;
  }

  lemma EhdrRoundTrip(kind: nat, machine: nat, entry: U64, phoff: U64, phentsize: nat, phnum: nat, after: seq<Byte>)
    requires kind < Pow256(2) && machine < Pow256(2) && phentsize < Pow256(2) && phnum < Pow256(2)
    ensures EhdrOf(EhdrBytes(kind, machine, entry, phoff, phentsize, phnum) + after)
         == Ehdr(Ident(), kind, machine, entry, phoff, phentsize, phnum)
  {
    hide BytesOf, Pow256, Field, Quad, Ident;
    var file := EhdrBytes(kind, machine, entry, phoff, phentsize, phnum) + after;
    EhdrParts(kind, machine, entry, phoff, phentsize, phnum, after);
    FieldIs(file, 16, 2, kind);
    FieldIs(file, 18, 2, machine);
    QuadIs(file, 24, entry);
    QuadIs(file, 32, phoff);
    FieldIs(file, 54, 2, phentsize);
    FieldIs(file, 56, 2, phnum);
  }

  lemma EhdrParts(kind: nat, machine: nat, entry: U64, phoff: U64, phentsize: nat, phnum: nat, after: seq<Byte>)
    ensures var file := EhdrBytes(kind, machine, entry, phoff, phentsize, phnum) + after;
            && file[..16] == Ident() && file[16..18] == BytesOf(kind, 2) && file[18..20] == BytesOf(machine, 2)
            && file[24..32] == BytesOf(entry, 8) && file[32..40] == BytesOf(phoff, 8)
            && file[54..56] == BytesOf(phentsize, 2) && file[56..58] == BytesOf(phnum, 2)
  {
    hide BytesOf, Ident;
  }

  lemma IdentStarts()
    ensures Ident()[..6] == [0x7F, 'E' as int, 'L' as int, 'F' as int, ELFCLASS64, ELFDATA2LSB]
  {
    hide BytesOf;
  }

  // ----- Dynamic and relocation entries -----

  function DynBytes(d: Dyn): (s: seq<Byte>)
    ensures |s| == DYN_SIZE
  {
    BytesOf(d.tag, 8) + BytesOf(d.val, 8)
  }

  function RelaBytes(e: Rela): (s: seq<Byte>)
    ensures |s| == RELA_SIZE
  {
    BytesOf(e.offset, 8) + BytesOf(e.info, 8) + BytesOf(e.addend, 8)
  }

  /** A dynamic entry is read as it was written, wherever it is */
  lemma DynRoundTrip(before: seq<Byte>, d: Dyn, after: seq<Byte>)
    ensures DynAt(before + DynBytes(d) + after, |before|) == d
  {
    hide BytesOf, Quad;
    var file, at := before + DynBytes(d) + after, |before|;
    assert file[at..at + 8] == BytesOf(d.tag, 8) && file[at + 8..at + 16] == BytesOf(d.val, 8);
    QuadIs(file, at, d.tag);
    QuadIs(file, at + 8, d.val);
  }

  /** A relocation entry is read as it was written, wherever it is */
  lemma RelaRoundTrip(before: seq<Byte>, e: Rela, after: seq<Byte>)
    ensures RelaAt(before + RelaBytes(e) + after, |before|) == e
  {
    hide BytesOf, Quad;
    var file, at := before + RelaBytes(e) + after, |before|;
    assert file[at..at + 8] == BytesOf(e.offset, 8) && file[at + 8..at + 16] == BytesOf(e.info, 8);
    assert file[at + 16..at + 24] == BytesOf(e.addend, 8);
    QuadIs(file, at, e.offset);
    QuadIs(file, at + 8, e.info);
    QuadIs(file, at + 16, e.addend);
  }

  function RelaTable(es: seq<Rela>): (s: seq<Byte>)
    ensures |s| == |es| * RELA_SIZE
  {
    if es == [] then [] else RelaBytes(es[0]) + RelaTable(es[1..])
  }

  /** So is each entry of a table */
  lemma {:induction false} TableRoundTrip(before: seq<Byte>, es: seq<Rela>, after: seq<Byte>, i: nat)
    requires i < |es|
    ensures |before| + i * RELA_SIZE + RELA_SIZE <= |before + RelaTable(es) + after|
    ensures RelaAt(before + RelaTable(es) + after, |before| + i * RELA_SIZE) == es[i]
    decreases |es|
  {
    hide RelaBytes, RelaAt;
    var file := before + RelaTable(es) + after;
    if i == 0 {
      RelaRoundTrip(before, es[0], RelaTable(es[1..]) + after);
      assert file == before + RelaBytes(es[0]) + (RelaTable(es[1..]) + after);
    } else {
      TableRoundTrip(before + RelaBytes(es[0]), es[1..], after, i - 1);
      assert file == (before + RelaBytes(es[0])) + RelaTable(es[1..]) + after;
    }
  }

  // ----- What the fields mean -----

  /** The first byte counts least */
  lemma LittleEndian()
    ensures Number([0x78, 0x56, 0x34, 0x12]) == 0x1234_5678
  {
    assert Number([0x12]) == 0x12 && Number([0x34, 0x12]) == 0x1234 && Number([0x56, 0x34, 0x12]) == 0x12_3456;
  }

  /** Bit 0 of the flags is PF_X, bit 1 PF_W, bit 2 PF_R */
  lemma FlagsAre(ph: Phdr, x: bool, w: bool, r: bool, rest: nat)
    requires ph.flags == (if x then 1 else 0) + (if w then 2 else 0) + (if r then 4 else 0) + 8 * rest
    ensures ph.Executable() == x && ph.Writable() == w
  {
  }

  /** The low half of a relocation's info is its kind, the high half its symbol */
  lemma KindIs(e: Rela, symbol: nat, kind: nat)
    requires e.info == symbol * 0x1_0000_0000 + kind && kind < 0x1_0000_0000
    ensures e.Kind() == kind
  {
  }
}
