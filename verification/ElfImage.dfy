/** load_image: a file turned into memory, an entry point and a report, or refused. */
module ElfImage {
  import opened ElfFormat
  import opened ElfMemory
  import opened ElfSegments
  import opened ElfLoading
  import opened ElfRelocations

  const ELF_MAX_PHDRS: nat := 64
  const ELF_PIE_BASE_MIN: nat := 0x1_0000_0000
  const ELF_PIE_PAGES: nat := 0x400_0000

  datatype Program = Program(entry: U64, imageEnd: U64, segments: seq<Reported>, lazy: seq<Lazy>)

  // ----- The header -----

  predicate HeaderOk(file: seq<Byte>) {
    && |file| >= EHDR_SIZE
    && var h := EhdrOf(file);
       && h.ident[..6] == [0x7F, 'E' as int, 'L' as int, 'F' as int, ELFCLASS64, ELFDATA2LSB]
       && h.machine == EM_X86_64 && (h.kind == ET_EXEC || h.kind == ET_DYN)
       && h.phentsize == PHDR_SIZE && 0 < h.phnum <= ELF_MAX_PHDRS
       && h.phoff + h.phnum * PHDR_SIZE <= |file|
  }

  function PhdrsOf(file: seq<Byte>): seq<Phdr>
    requires HeaderOk(file)
  {
    PhdrTable(file, EhdrOf(file).phoff, EhdrOf(file).phnum)
  }

  function PhdrTable(file: seq<Byte>, at: nat, count: nat): seq<Phdr>
    requires at + count * PHDR_SIZE <= |file|
  {
    seq(count, i requires 0 <= i < count => PhdrAt(file, at + i * PHDR_SIZE))
  }

  /** Where the file's addresses are moved by: 0 for a fixed program */
  function BiasOf(h: Ehdr, requested: U64, random: nat): U64 {
    if h.kind != ET_DYN then 0
    else if requested != 0 then requested
    else ELF_PIE_BASE_MIN + random % ELF_PIE_PAGES * PAGE_SIZE
  }

  // ----- The entry point -----

  predicate EntryIn(ph: Phdr, entry: U64) {
    ph.kind == PT_LOAD && ph.Executable() && ph.vaddr <= entry < ph.vaddr + ph.memsz
  }

  predicate EntryOk(h: Ehdr, phdrs: seq<Phdr>, bias: U64) {
    h.entry + bias < USER_SPACE_END && exists i :: 0 <= i < |phdrs| && EntryIn(phdrs[i], h.entry)
  }

  // ----- The whole -----

  /** The segments loaded, before relocation */
  function Loaded(src: Source, requested: U64, random: nat, m: Memory): Image
    requires HeaderOk(src.file)
    requires AllValid(PhdrsOf(src.file), |PhdrsOf(src.file)|, |src.file|, BiasOf(EhdrOf(src.file), requested, random))
  {
    LoadFirst(src, PhdrsOf(src.file), BiasOf(EhdrOf(src.file), requested, random), m, |PhdrsOf(src.file)|)
  }

  ghost predicate RelocationsOk(src: Source, phdrs: seq<Phdr>, bias: U64, m: Memory) {
    !TableOf(src.file, phdrs).Malformed? && AllGood(m, TableEntries(src.file, phdrs), phdrs, bias)
  }

  ghost predicate Accepts(src: Source, requested: U64, random: nat, m: Memory) {
    && HeaderOk(src.file)
    && var h, phdrs := EhdrOf(src.file), PhdrsOf(src.file);
       var bias := BiasOf(h, requested, random);
       && bias % PAGE_SIZE == 0 && AllValid(phdrs, |phdrs|, |src.file|, bias)
       && (h.kind == ET_DYN ==> RelocationsOk(src, phdrs, bias, Loaded(src, requested, random, m).mem))
       && EntryOk(h, phdrs, bias)
  }

  /** The memory a program starts with */
  function Result(src: Source, requested: U64, random: nat, m: Memory): Image
    requires HeaderOk(src.file)
    requires AllValid(PhdrsOf(src.file), |PhdrsOf(src.file)|, |src.file|, BiasOf(EhdrOf(src.file), requested, random))
  {
    var h, phdrs := EhdrOf(src.file), PhdrsOf(src.file);
    var bias := BiasOf(h, requested, random);
    var img := Loaded(src, requested, random, m);
    if h.kind == ET_DYN then img.(mem := Patched(img.mem, TableEntries(src.file, phdrs), bias)) else img
  }

  /** load_image */
  method LoadImage(space: Space, src: Source, requested: U64, random: nat)
    returns (ok: bool, base: U64, program: Program)
    requires src.Valid() && !space.trouble
    modifies space
    ensures space.trouble ==> !ok
    ensures !space.trouble ==> (ok <==> Accepts(src, requested, random, old(space.mem)))
    ensures ok ==>
      && HeaderOk(src.file) && base == BiasOf(EhdrOf(src.file), requested, random)
      && AllValid(PhdrsOf(src.file), |PhdrsOf(src.file)|, |src.file|, base)
      && var img := Result(src, requested, random, old(space.mem));
         && space.mem == img.mem
         && program == Program(EhdrOf(src.file).entry + base, img.end, img.segments, img.lazy)
  {
    hide AllValid, LoadFirst, Patched, TableEntries, TableOf, AllGood, PhdrAt, EntryIn;
    base, program := 0, Program(0, 0, [], []);
    ghost var m := space.mem;
    var h, phdrs;
    ok, h, phdrs := ReadHeaders(space, src);
    if !ok {
      return;
    }
    var bias := BiasOf(h, requested, random);
    if bias % PAGE_SIZE != 0 {
      return false, base, program;
    }
    var lazy, segments, end, any;
    ok, lazy, segments, end, any := LoadSegments(space, src, phdrs, bias);
    if !ok {
      return;
    }
    ghost var img := Loaded(src, requested, random, m);
    assert space.mem == img.mem;
    if h.kind == ET_DYN {
      var applied;
      ok, applied := ApplyRelocations(space, src, phdrs, bias);
      if !ok {
        return;
      }
    }
    var entry: U64 := (h.entry + bias) % TWO64;
    var entryOk := FindEntry(phdrs, h.entry);
    if entryOk {
      AnyLoaded(src, phdrs, bias, m, h.entry);
    }
    WrapsOrNot(h.entry, bias, entry);
    if !any || entry < h.entry || entry >= USER_SPACE_END || !entryOk {
      return false, base, program;
    }
    ok, base, program := true, bias, Program(entry, end, segments, lazy);
  }

  lemma WrapsOrNot(entry: U64, bias: U64, sum: U64)
    requires sum == (entry + bias) % TWO64
    ensures entry + bias < USER_SPACE_END <==> sum >= entry && sum < USER_SPACE_END
    ensures entry + bias < USER_SPACE_END ==> sum == entry + bias
  {
  }

  /** The header and the program headers, read and checked */
  method ReadHeaders(space: Space, src: Source) returns (ok: bool, h: Ehdr, phdrs: seq<Phdr>)
    requires src.Valid() && !space.trouble
    modifies space`trouble
    ensures space.trouble ==> !ok
    ensures !space.trouble ==> (ok <==> HeaderOk(src.file))
    ensures ok ==> h == EhdrOf(src.file) && phdrs == PhdrsOf(src.file)
  {
    hide PhdrAt, Field, Quad;
    phdrs := [];
    h := Ehdr([], 0, 0, 0, 0, 0, 0);
    if |src.file| < EHDR_SIZE {
      return false, h, phdrs;
    }
    var bytes;
    ok, bytes := Read(space, src, 0, EHDR_SIZE);
    if !ok {
      return;
    }
    HeaderOfSlice(src.file, bytes);
    h := EhdrOf(bytes);
    if h.ident[0] != 0x7F || h.ident[1] != 'E' as int || h.ident[2] != 'L' as int || h.ident[3] != 'F' as int {
      return false, h, phdrs;
    }
    if h.ident[4] != ELFCLASS64 || h.ident[5] != ELFDATA2LSB || h.machine != EM_X86_64
      || (h.kind != ET_EXEC && h.kind != ET_DYN) {
      return false, h, phdrs;
    }
    if h.phentsize != PHDR_SIZE || h.phnum == 0 || h.phnum > ELF_MAX_PHDRS
       || !RangeInFile(h.phoff, h.phnum * PHDR_SIZE, |src.file|) {
      return false, h, phdrs;
    }
    ok := space.Chance();
    if !ok {
      return;
    }
    ok, bytes := Read(space, src, h.phoff, h.phnum * PHDR_SIZE);
    if !ok {
      return;
    }
    PhdrsOfSlice(src.file, h.phoff, h.phnum, bytes);
    phdrs := PhdrTable(bytes, 0, h.phnum);
  }

  lemma FieldOfSlice(file: seq<Byte>, lo: nat, hi: nat, at: nat, n: nat)
    requires lo <= hi <= |file| && at + n <= hi - lo
    ensures Field(file[lo..hi], at, n) == Field(file, lo + at, n)
  {
    SliceOfSlice(file, lo, hi, at, at + n);
  }

  lemma HeaderOfSlice(file: seq<Byte>, bytes: seq<Byte>)
    requires |file| >= EHDR_SIZE && bytes == file[0..EHDR_SIZE]
    ensures EhdrOf(bytes) == EhdrOf(file)
  {
    hide Field, Quad;
    assert bytes[..16] == file[..16];
    FieldOfSlice(file, 0, EHDR_SIZE, 16, 2);
    FieldOfSlice(file, 0, EHDR_SIZE, 18, 2);
    FieldOfSlice(file, 0, EHDR_SIZE, 54, 2);
    FieldOfSlice(file, 0, EHDR_SIZE, 56, 2);
    QuadOfSlice(file, 0, EHDR_SIZE, 24);
    QuadOfSlice(file, 0, EHDR_SIZE, 32);
  }

  lemma PhdrOfSlice(file: seq<Byte>, lo: nat, hi: nat, at: nat)
    requires lo <= hi <= |file| && at + PHDR_SIZE <= hi - lo
    ensures PhdrAt(file[lo..hi], at) == PhdrAt(file, lo + at)
  {
    hide Field, Quad;
    FieldOfSlice(file, lo, hi, at, 4);
    FieldOfSlice(file, lo, hi, at + 4, 4);
    QuadOfSlice(file, lo, hi, at + 8);
    QuadOfSlice(file, lo, hi, at + 16);
    QuadOfSlice(file, lo, hi, at + 32);
    QuadOfSlice(file, lo, hi, at + 40);
  }

  lemma PhdrsOfSlice(file: seq<Byte>, at: nat, count: nat, bytes: seq<Byte>)
    requires at + count * PHDR_SIZE <= |file| && bytes == file[at..at + count * PHDR_SIZE]
    ensures PhdrTable(bytes, 0, count) == PhdrTable(file, at, count)
  {
    hide PhdrAt;
    forall i | 0 <= i < count
      ensures PhdrTable(bytes, 0, count)[i] == PhdrTable(file, at, count)[i]
    {
      PhdrOfSlice(file, at, at + count * PHDR_SIZE, i * PHDR_SIZE);
    }
  }

  /** The last loop of load_image */
  method FindEntry(phdrs: seq<Phdr>, entry: U64) returns (found: bool)
    ensures found <==> exists i :: 0 <= i < |phdrs| && EntryIn(phdrs[i], entry)
  {
    found := false;
    var i := 0;
    while i < |phdrs| && !found
      invariant 0 <= i <= |phdrs|
      invariant if found then i > 0 && EntryIn(phdrs[i - 1], entry)
                else forall k | 0 <= k < i :: !EntryIn(phdrs[k], entry)
    {
      if phdrs[i].kind == PT_LOAD && phdrs[i].Executable() {
        found := entry >= phdrs[i].vaddr && entry - phdrs[i].vaddr < phdrs[i].memsz;
      }
      i := i + 1;
    }
  }

  /** A program with an entry point has a segment */
  lemma AnyLoaded(src: Source, phdrs: seq<Phdr>, bias: U64, m: Memory, entry: U64)
    requires AllValid(phdrs, |phdrs|, |src.file|, bias) && exists i :: 0 <= i < |phdrs| && EntryIn(phdrs[i], entry)
    ensures LoadFirst(src, phdrs, bias, m, |phdrs|).any
  {
    hide AllValid, LoadFirst;
    var i :| 0 <= i < |phdrs| && EntryIn(phdrs[i], entry);
    AnyOnceLoaded(src, phdrs, bias, m, |phdrs|, i);
  }

  lemma {:induction false} AnyOnceLoaded(src: Source, phdrs: seq<Phdr>, bias: U64, m: Memory, n: nat, i: nat)
    requires n <= |phdrs| && AllValid(phdrs, n, |src.file|, bias) && i < n && phdrs[i].kind == PT_LOAD
    ensures LoadFirst(src, phdrs, bias, m, n).any
  {
    hide LoadOne, MayBeLeft, SegmentValid;
    if i < n - 1 {
      AnyOnceLoaded(src, phdrs, bias, m, n - 1, i);
    }
  }
}
