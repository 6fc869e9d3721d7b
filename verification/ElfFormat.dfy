/** The bytes of an ELF64 file as numbers and headers. */
module ElfFormat {
  type Byte = x: int | 0 <= x < 256

  const TWO64: nat := 0x1_0000_0000_0000_0000

  type U64 = x: int | 0 <= x < TWO64

  const PAGE_SIZE: nat := 4096
  const USER_SPACE_END: nat := 0x8000_0000_0000

  // ----- Little-endian numbers -----

  function Pow256(n: nat): (r: nat)
    ensures r > 0
  {
    if n == 0 then 1 else 256 * Pow256(n - 1)
  }

  function Number(s: seq<Byte>): (r: nat)
    ensures r < Pow256(|s|)
  {
    if s == [] then 0 else s[0] + 256 * Number(s[1..])
  }

  function BytesOf(v: nat, n: nat): (s: seq<Byte>)
    ensures |s| == n
  {
    if n == 0 then [] else [v % 256] + BytesOf(v / 256, n - 1)
  }

  lemma {:induction false} BytesRoundTrip(v: nat, n: nat)
    requires v < Pow256(n)
    ensures Number(BytesOf(v, n)) == v
  {
    if n > 0 {
      BytesRoundTrip(v / 256, n - 1);
      assert BytesOf(v, n)[1..] == BytesOf(v / 256, n - 1);
    }
  }

  lemma Pow256Of8()
    ensures Pow256(8) == TWO64
  {
    assert Pow256(4) == 0x1_0000_0000;
    assert Pow256(8) == 256 * (256 * (256 * (256 * Pow256(4))));
  }

  /** The `n` bytes at `at`, as a number */
  function Field(file: seq<Byte>, at: nat, n: nat): (r: nat)
    requires at + n <= |file|
    ensures r < Pow256(n)
  {
    Number(file[at..at + n])
  }

  function Quad(file: seq<Byte>, at: nat): (r: U64)
    requires at + 8 <= |file|
  {
    Pow256Of8();
    Field(file, at, 8)
  }

  // ----- Headers -----

  const EHDR_SIZE: nat := 64
  const PHDR_SIZE: nat := 56
  const DYN_SIZE: nat := 16
  const RELA_SIZE: nat := 24

  const ELFCLASS64: nat := 2
  const ELFDATA2LSB: nat := 1
  const ET_EXEC: nat := 2
  const ET_DYN: nat := 3
  const EM_X86_64: nat := 62
  const PT_LOAD: nat := 1
  const PT_DYNAMIC: nat := 2
  const DT_NULL: nat := 0
  const DT_RELA: nat := 7
  const DT_RELASZ: nat := 8
  const DT_RELAENT: nat := 9
  const R_X86_64_NONE: nat := 0
  const R_X86_64_RELATIVE: nat := 8

  /** What the loader uses of Elf64_Ehdr */
  datatype Ehdr = Ehdr(ident: seq<Byte>, kind: nat, machine: nat, entry: U64, phoff: U64, phentsize: nat, phnum: nat)

  /** What the loader uses of Elf64_Phdr */
  datatype Phdr = Phdr(kind: nat, flags: nat, offset: U64, vaddr: U64, filesz: U64, memsz: U64) {
    predicate Executable() {
      flags % 2 == 1
    }

    predicate Writable() {
      flags / 2 % 2 == 1
    }

    /** A segment with memory to load */
    predicate Loadable() {
      kind == PT_LOAD && memsz > 0
    }
  }

  datatype Dyn = Dyn(tag: U64, val: U64)

  datatype Rela = Rela(offset: U64, info: U64, addend: U64) {
    function Kind(): nat {
      info % 0x1_0000_0000
    }
  }

  function EhdrOf(file: seq<Byte>): Ehdr
    requires |file| >= EHDR_SIZE
  {
    Ehdr(file[..16], Field(file, 16, 2), Field(file, 18, 2), Quad(file, 24), Quad(file, 32), Field(file, 54, 2),
         Field(file, 56, 2))
  }

  function PhdrAt(file: seq<Byte>, at: nat): Phdr
    requires at + PHDR_SIZE <= |file|
  {
    Phdr(Field(file, at, 4), Field(file, at + 4, 4), Quad(file, at + 8), Quad(file, at + 16), Quad(file, at + 32),
         Quad(file, at + 40))
  }

  function DynAt(file: seq<Byte>, at: nat): Dyn
    requires at + DYN_SIZE <= |file|
  {
    Dyn(Quad(file, at), Quad(file, at + 8))
  }

  function RelaAt(file: seq<Byte>, at: nat): Rela
    requires at + RELA_SIZE <= |file|
  {
    Rela(Quad(file, at), Quad(file, at + 8), Quad(file, at + 16))
  }

  /** range_in_file and in_file, in 64-bit arithmetic: exactly the ranges inside the
      file, none of which wraps */
  predicate RangeInFile(offset: U64, length: U64, size: nat) {
    offset <= size && length <= size - offset
  }
}
