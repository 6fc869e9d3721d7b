/** Relocating a position-independent program: where its table is, and what applying it
    leaves in memory.
 */
module ElfRelocations {
  import opened Common
  import opened ElfFormat
  import opened ElfMemory
  import opened ElfSegments
  import opened ElfLoading
  import opened ElfTheorems

  const MAX_RELOCATIONS: nat := 1048576
  const DYN_CHUNK: nat := 16
  const RELA_CHUNK: nat := 64

  // ----- The dynamic section, whole -----

  function FirstDynamic(phdrs: seq<Phdr>): (r: Option<nat>)
    ensures r.Some? ==> r.value < |phdrs| && phdrs[r.value].kind == PT_DYNAMIC
    ensures forall i | 0 <= i < |phdrs| && (r.Some? ==> i < r.value) :: phdrs[i].kind != PT_DYNAMIC
  {
    if phdrs == [] then None
    else if phdrs[0].kind == PT_DYNAMIC then Some(0)
    else
      match FirstDynamic(phdrs[1..])
      case None => None
      case Some(i) => Some(i + 1)
  }

  function DynEntries(file: seq<Byte>, at: nat, count: nat): seq<Dyn>
    requires at + count * DYN_SIZE <= |file|
  {
    seq(count, i requires 0 <= i < count => DynAt(file, at + i * DYN_SIZE))
  }

  /** The entries before the first DT_NULL */
  function BeforeNull(ds: seq<Dyn>): seq<Dyn> {
    if ds == [] || ds[0].tag == DT_NULL then [] else [ds[0]] + BeforeNull(ds[1..])
  }

  /** The last value that a tag is given */
  function LastOf(ds: seq<Dyn>, tag: nat): Option<U64> {
    if ds == [] then None
    else if ds[|ds| - 1].tag == tag then Some(ds[|ds| - 1].val)
    else LastOf(ds[..|ds| - 1], tag)
  }

  function Or(v: Option<U64>, otherwise: U64): U64 {
    if v.Some? then v.value else otherwise
  }

  lemma {:induction false} BeforeNullIs(ds: seq<Dyn>, k: nat)
    requires k <= |ds| && (forall i | 0 <= i < k :: ds[i].tag != DT_NULL) && (k < |ds| ==> ds[k].tag == DT_NULL)
    ensures BeforeNull(ds) == ds[..k]
  {
    if k > 0 {
      BeforeNullIs(ds[1..], k - 1);
      assert [ds[0]] + ds[1..][..k - 1] == ds[..k];
    }
  }

  lemma LastOfMore(ds: seq<Dyn>, k: nat, tag: nat)
    requires k < |ds|
    ensures LastOf(ds[..k + 1], tag) == if ds[k].tag == tag then Some(ds[k].val) else LastOf(ds[..k], tag)
  {
    assert ds[..k + 1][..k] == ds[..k];
  }

  // ----- The places in a file and in memory -----

  /** The segment's part of the file has the range */
  predicate Backs(ph: Phdr, vaddr: U64, length: U64) {
    ph.kind == PT_LOAD && ph.vaddr <= vaddr && vaddr + length <= ph.vaddr + ph.filesz
  }

  function FirstBacking(phdrs: seq<Phdr>, vaddr: U64, length: U64): (r: Option<nat>)
    ensures r.Some? ==> r.value < |phdrs| && Backs(phdrs[r.value], vaddr, length)
    ensures forall i | 0 <= i < |phdrs| && (r.Some? ==> i < r.value) :: !Backs(phdrs[i], vaddr, length)
  {
    if phdrs == [] then None
    else if Backs(phdrs[0], vaddr, length) then Some(0)
    else
      match FirstBacking(phdrs[1..], vaddr, length)
      case None => None
      case Some(i) => Some(i + 1)
  }

  /** Where in the file an address range is, if one segment has it there */
  function FileOffset(phdrs: seq<Phdr>, size: nat, vaddr: U64, length: U64): Option<nat> {
    match FirstBacking(phdrs, vaddr, length)
    case None => None
    case Some(i) =>
      var offset := phdrs[i].offset + (vaddr - phdrs[i].vaddr);
      if offset + length <= size then Some(offset) else None
  }

  /** vaddr_to_file_offset: the 64-bit checks refuse what would wrap */
  method VaddrToFileOffset(phdrs: seq<Phdr>, size: nat, vaddr: U64, length: U64) returns (ok: bool, offset: U64)
    requires size < TWO64
    ensures ok <==> FileOffset(phdrs, size, vaddr, length).Some?
    ensures ok ==> offset == FileOffset(phdrs, size, vaddr, length).value && RangeInFile(offset, length, size)
  {
    hide FirstBacking;
    offset := 0;
    for i := 0 to |phdrs|
      invariant forall k | 0 <= k < i :: !Backs(phdrs[k], vaddr, length)
    {
      if phdrs[i].kind != PT_LOAD || vaddr < phdrs[i].vaddr {
        continue;
      }
      var within := vaddr - phdrs[i].vaddr;
      if within > phdrs[i].filesz || length > phdrs[i].filesz - within {
        continue;
      }
      FirstIs(phdrs, vaddr, length, i);
      var sum: U64 := (phdrs[i].offset + within) % TWO64;
      if sum < phdrs[i].offset || !RangeInFile(sum, length, size) {
        Wrapped(phdrs[i].offset, within, sum, length, size);
        return false, 0;
      }
      return true, sum;
    }
    ok := false;
  }

  lemma FirstIs(phdrs: seq<Phdr>, vaddr: U64, length: U64, i: nat)
    requires i < |phdrs| && Backs(phdrs[i], vaddr, length) && forall k | 0 <= k < i :: !Backs(phdrs[k], vaddr, length)
    ensures FirstBacking(phdrs, vaddr, length) == Some(i)
  {
    hide Backs;
    var r := FirstBacking(phdrs, vaddr, length);
    assert r.Some?;
  }

  lemma Wrapped(offset: U64, within: U64, sum: U64, length: U64, size: nat)
    requires sum == (offset + within) % TWO64 && size < TWO64 && (sum < offset || !RangeInFile(sum, length, size))
    ensures offset + within + length > size
  {
  }

  /** The address range is in the memory of one segment */
  predicate InMemoryOf(ph: Phdr, vaddr: U64, length: nat) {
    ph.kind == PT_LOAD && ph.vaddr <= vaddr && vaddr + length <= ph.vaddr + ph.memsz
  }

  predicate InImage(phdrs: seq<Phdr>, vaddr: U64, length: nat) {
    exists i :: 0 <= i < |phdrs| && InMemoryOf(phdrs[i], vaddr, length)
  }

  /** vaddr_in_image */
  method VaddrInImage(phdrs: seq<Phdr>, vaddr: U64, length: U64) returns (r: bool)
    ensures r == InImage(phdrs, vaddr, length)
  {
    for i := 0 to |phdrs|
      invariant forall k | 0 <= k < i :: !InMemoryOf(phdrs[k], vaddr, length)
    {
      if phdrs[i].kind != PT_LOAD || vaddr < phdrs[i].vaddr {
        continue;
      }
      var within := vaddr - phdrs[i].vaddr;
      if within <= phdrs[i].memsz && length <= phdrs[i].memsz - within {
        assert InMemoryOf(phdrs[i], vaddr, length);
        return true;
      }
    }
    r := false;
  }

  // ----- The table, whole -----

  datatype Table = Nothing | Malformed | Entries(at: nat, count: nat)

  function TableOf(file: seq<Byte>, phdrs: seq<Phdr>): Table {
    match FirstDynamic(phdrs)
    case None => Nothing
    case Some(d) =>
      if !RangeInFile(phdrs[d].offset, phdrs[d].filesz, |file|) then Malformed
      else TableFrom(BeforeNull(DynEntries(file, phdrs[d].offset, phdrs[d].filesz / DYN_SIZE)), phdrs, |file|)
  }

  function TableFrom(ds: seq<Dyn>, phdrs: seq<Phdr>, size: nat): Table {
    TableAt(LastOf(ds, DT_RELA), Or(LastOf(ds, DT_RELASZ), 0), Or(LastOf(ds, DT_RELAENT), RELA_SIZE), phdrs, size)
  }

  function TableAt(where: Option<U64>, length: U64, entry: U64, phdrs: seq<Phdr>, size: nat): Table {
    if where.None? || length == 0 then Nothing
    else if entry != RELA_SIZE || length % RELA_SIZE != 0 || length / RELA_SIZE > MAX_RELOCATIONS then Malformed
    else
      match FileOffset(phdrs, size, where.value, length)
      case None => Malformed
      case Some(at) => Entries(at, length / RELA_SIZE)
  }

  lemma TableInFile(file: seq<Byte>, phdrs: seq<Phdr>)
    ensures var t := TableOf(file, phdrs); t.Entries? ==> t.at + t.count * RELA_SIZE <= |file|
  {
  }

  /** The table's entries; none if there is no table */
  function TableEntries(file: seq<Byte>, phdrs: seq<Phdr>): seq<Rela> {
    TableInFile(file, phdrs);
    match TableOf(file, phdrs)
    case Nothing => []
    case Malformed => []
    case Entries(at, count) => RelaEntries(file, at, count)
  }

  function RelaEntries(file: seq<Byte>, at: nat, count: nat): seq<Rela>
    requires at + count * RELA_SIZE <= |file|
  {
    seq(count, i requires 0 <= i < count => RelaAt(file, at + i * RELA_SIZE))
  }

  // ----- Applying it -----

  /** An entry that can be applied: it asks for nothing, or for a place inside one
      segment whose pages are there */
  ghost predicate Good(m: Memory, e: Rela, phdrs: seq<Phdr>, bias: U64) {
    || e.Kind() == R_X86_64_NONE
    || (e.Kind() == R_X86_64_RELATIVE && InImage(phdrs, e.offset, 8) && Mapped(m, bias + e.offset, 8))
  }

  function ValueOf(e: Rela, bias: U64): U64 {
    (bias + e.addend) % TWO64
  }

  /** The memory with the entries applied in order */
  function Patched(m: Memory, es: seq<Rela>, bias: U64): Memory {
    if es == [] then m
    else
      var e := es[|es| - 1];
      var before := Patched(m, es[..|es| - 1], bias);
      if e.Kind() == R_X86_64_RELATIVE then Write(before, bias + e.offset, BytesOf(ValueOf(e, bias), 8)) else before
  }

  lemma PatchedMore(m: Memory, es: seq<Rela>, k: nat, bias: U64)
    requires k < |es|
    ensures Patched(m, es[..k + 1], bias) ==
            if es[k].Kind() == R_X86_64_RELATIVE
            then Write(Patched(m, es[..k], bias), bias + es[k].offset, BytesOf(ValueOf(es[k], bias), 8))
            else Patched(m, es[..k], bias)
  {
    assert es[..k + 1][..k] == es[..k];
  }

  lemma {:induction false} PatchedPages(m: Memory, es: seq<Rela>, bias: U64)
    ensures Patched(m, es, bias).pages == m.pages
  {
    if es != [] {
      PatchedPages(m, es[..|es| - 1], bias);
    }
  }

  /** The same pages, and other bytes only in segments' memory */
  ghost predicate OnlyInside(m: Memory, m': Memory, phdrs: seq<Phdr>, bias: U64) {
    && m'.pages == m.pages
    && forall a: nat | !Held(phdrs, bias, a) :: m'.ByteAt(a) == m.ByteAt(a)
  }

  /** The address is in some segment's memory */
  predicate Held(phdrs: seq<Phdr>, bias: nat, a: nat) {
    exists i :: 0 <= i < |phdrs| && Holds(phdrs[i], bias, a)
  }

  /** A place in the image is in one segment's memory where that was loaded, and does
      not wrap */
  lemma PlaceIsInside(phdrs: seq<Phdr>, size: nat, bias: U64, vaddr: U64) returns (i: nat)
    requires AllValid(phdrs, |phdrs|, size, bias) && InImage(phdrs, vaddr, 8)
    ensures bias + vaddr + 8 <= USER_SPACE_END
    ensures i < |phdrs| && forall a | bias + vaddr <= a < bias + vaddr + 8 :: Holds(phdrs[i], bias, a)
  {
    i :| 0 <= i < |phdrs| && InMemoryOf(phdrs[i], vaddr, 8);
    SegmentChecks(phdrs[i], size, bias);
  }

  lemma WriteInside(m: Memory, m1: Memory, phdrs: seq<Phdr>, size: nat, bias: U64, vaddr: U64, s: seq<Byte>)
    requires AllValid(phdrs, |phdrs|, size, bias) && InImage(phdrs, vaddr, 8) && |s| <= 8
    requires OnlyInside(m, m1, phdrs, bias)
    ensures OnlyInside(m, Write(m1, bias + vaddr, s), phdrs, bias)
  {
    hide Holds, InImage, AllValid, Write;
    var i := PlaceIsInside(phdrs, size, bias, vaddr);
    WriteKeepsPages(m1, bias + vaddr, s);
    forall a: nat | !Held(phdrs, bias, a)
      ensures Write(m1, bias + vaddr, s).ByteAt(a) == m.ByteAt(a)
    {
      assert !Holds(phdrs[i], bias, a);
      WriteAt(m1, bias + vaddr, s, a);
    }
  }

  function RelativeCount(es: seq<Rela>): nat {
    if es == [] then 0
    else RelativeCount(es[..|es| - 1]) + (if es[|es| - 1].Kind() == R_X86_64_RELATIVE then 1 else 0)
  }

  lemma CountMore(es: seq<Rela>, k: nat)
    requires k < |es|
    ensures RelativeCount(es[..k + 1]) == RelativeCount(es[..k]) + (if es[k].Kind() == R_X86_64_RELATIVE then 1 else 0)
  {
    assert es[..k + 1][..k] == es[..k];
  }

  // ----- Reading in chunks -----

  lemma SliceOfSlice(file: seq<Byte>, lo: nat, hi: nat, from: nat, to: nat)
    requires lo <= hi <= |file| && from <= to <= hi - lo
    ensures file[lo..hi][from..to] == file[lo + from..lo + to]
  {
    forall k | 0 <= k < to - from
      ensures file[lo..hi][from..to][k] == file[lo + from..lo + to][k]
    {
      assert file[lo..hi][from + k] == file[lo + from + k];
    }
  }

  lemma QuadOfSlice(file: seq<Byte>, lo: nat, hi: nat, at: nat)
    requires lo <= hi <= |file| && at + 8 <= hi - lo
    ensures Quad(file[lo..hi], at) == Quad(file, lo + at)
  {
    SliceOfSlice(file, lo, hi, at, at + 8);
  }

  lemma DynOfSlice(file: seq<Byte>, lo: nat, hi: nat, at: nat)
    requires lo <= hi <= |file| && at + DYN_SIZE <= hi - lo
    ensures DynAt(file[lo..hi], at) == DynAt(file, lo + at)
  {
    hide Quad;
    QuadOfSlice(file, lo, hi, at);
    QuadOfSlice(file, lo, hi, at + 8);
  }

  lemma RelaOfSlice(file: seq<Byte>, lo: nat, hi: nat, at: nat)
    requires lo <= hi <= |file| && at + RELA_SIZE <= hi - lo
    ensures RelaAt(file[lo..hi], at) == RelaAt(file, lo + at)
  {
    hide Quad;
    QuadOfSlice(file, lo, hi, at);
    QuadOfSlice(file, lo, hi, at + 8);
    QuadOfSlice(file, lo, hi, at + 16);
  }

  /** What the scan has of the first `k` entries */
  predicate Scanned(ds: seq<Dyn>, k: nat, where: Option<U64>, length: U64, entry: U64)
    requires k <= |ds|
  {
    where == LastOf(ds[..k], DT_RELA) && length == Or(LastOf(ds[..k], DT_RELASZ), 0)
      && entry == Or(LastOf(ds[..k], DT_RELAENT), RELA_SIZE)
  }

  lemma ScannedNone(ds: seq<Dyn>)
    ensures Scanned(ds, 0, None, 0, RELA_SIZE)
  {
  }

  lemma ScannedMore(ds: seq<Dyn>, k: nat, where: Option<U64>, length: U64, entry: U64)
    requires k < |ds| && Scanned(ds, k, where, length, entry)
    ensures Scanned(ds, k + 1,
                    if ds[k].tag == DT_RELA then Some(ds[k].val) else where,
                    if ds[k].tag == DT_RELASZ then ds[k].val else length,
                    if ds[k].tag == DT_RELAENT then ds[k].val else entry)
  {
    LastOfMore(ds, k, DT_RELA);
    LastOfMore(ds, k, DT_RELASZ);
    LastOfMore(ds, k, DT_RELAENT);
  }

  /** The scan of the dynamic section, 16 entries read at a time: as if read whole */
  method ScanDynamic(space: Space, src: Source, at: U64, count: nat)
    returns (ok: bool, where: Option<U64>, length: U64, entry: U64)
    requires src.Valid() && !space.trouble && at + count * DYN_SIZE <= |src.file|
    modifies space`trouble
    ensures ok == !space.trouble
    ensures ok ==>
      var ds := BeforeNull(DynEntries(src.file, at, count));
      Scanned(ds, |ds|, where, length, entry)
  {
    hide Scanned, DynAt, BeforeNull;
    ghost var ds := DynEntries(src.file, at, count);
    where, length, entry := None, 0, RELA_SIZE;
    ScannedNone(ds);
    var done, ended := 0, false;
    ghost var scanned: nat := 0;
    while done < count && !ended
      invariant 0 <= scanned <= |ds| && !space.trouble && 0 <= done
      invariant forall i | 0 <= i < scanned :: ds[i].tag != DT_NULL
      invariant if ended then scanned < |ds| && ds[scanned].tag == DT_NULL
                else scanned == if done < count then done else count
      invariant Scanned(ds, scanned, where, length, entry)
      decreases count - done, !ended
    {
      var n := if count - done < DYN_CHUNK then count - done else DYN_CHUNK;
      ghost var lo := at + done * DYN_SIZE;
      ChunkInFile(at, done, n, count, DYN_SIZE, |src.file|);
      var chunk;
      ok, chunk := Read(space, src, at + done * DYN_SIZE, n * DYN_SIZE);
      if !ok {
        return;
      }
      var i := 0;
      while i < n && !ended
        invariant 0 <= i <= n && 0 <= scanned <= |ds| && !space.trouble
        invariant forall k | 0 <= k < scanned :: ds[k].tag != DT_NULL
        invariant if ended then scanned < |ds| && ds[scanned].tag == DT_NULL else scanned == done + i
        invariant Scanned(ds, scanned, where, length, entry)
        decreases n - i, !ended
      {
        EntryInChunk(i, n, DYN_SIZE);
        var d := DynAt(chunk, i * DYN_SIZE);
        DynOfSlice(src.file, lo, lo + n * DYN_SIZE, i * DYN_SIZE);
        EntryPlace(at, done, i, DYN_SIZE);
        assert d == ds[scanned];
        ScannedMore(ds, scanned, where, length, entry);
        if d.tag == DT_NULL {
          ended := true;
        } else {
          if d.tag == DT_RELA {
            where := Some(d.val);
          } else if d.tag == DT_RELASZ {
            length := d.val;
          } else if d.tag == DT_RELAENT {
            entry := d.val;
          }
          scanned := scanned + 1;
          i := i + 1;
        }
      }
      done := done + DYN_CHUNK;
    }
    ok := true;
    BeforeNullIs(ds, scanned);
    ScannedWhole(ds, scanned, where, length, entry);
  }

  lemma ScannedWhole(ds: seq<Dyn>, k: nat, where: Option<U64>, length: U64, entry: U64)
    requires k <= |ds| && Scanned(ds, k, where, length, entry)
    ensures Scanned(ds[..k], k, where, length, entry)
  {
    assert ds[..k][..k] == ds[..k];
  }

  lemma ChunkInFile(at: nat, done: nat, n: nat, count: nat, unit: nat, size: nat)
    requires done + n <= count && at + count * unit <= size
    ensures at + done * unit + n * unit <= size
  {
    assert done * unit + n * unit == (done + n) * unit <= count * unit;
  }

  lemma EntryInChunk(i: nat, n: nat, unit: nat)
    requires i < n
    ensures i * unit + unit <= n * unit
  {
    assert (i + 1) * unit <= n * unit;
  }

  lemma EntryPlace(at: nat, done: nat, i: nat, unit: nat)
    ensures at + done * unit + i * unit == at + (done + i) * unit
  {
  }

  // ----- Applying the table, in chunks -----

  /** One entry */
  method ApplyOne(space: Space, phdrs: seq<Phdr>, ghost size: nat, bias: U64, e: Rela, ghost was: Memory)
    returns (ok: bool)
    requires AllValid(phdrs, |phdrs|, size, bias) && OnlyInside(was, space.mem, phdrs, bias)
    modifies space`mem
    ensures ok <==> Good(old(space.mem), e, phdrs, bias)
    ensures ok ==> space.mem == if e.Kind() == R_X86_64_RELATIVE
                                then Write(old(space.mem), bias + e.offset, BytesOf(ValueOf(e, bias), 8))
                                else old(space.mem)
    ensures OnlyInside(was, space.mem, phdrs, bias)
  {
    hide OnlyInside, AllValid, InImage, Write;
    if e.Kind() == R_X86_64_NONE {
      return true;
    }
    if e.Kind() != R_X86_64_RELATIVE {
      return false;
    }
    var inside := VaddrInImage(phdrs, e.offset, 8);
    if !inside {
      return false;
    }
    var _ := PlaceIsInside(phdrs, size, bias, e.offset);
    assert bias + e.offset < TWO64 && (bias + e.offset) % TWO64 == bias + e.offset;
    var value := BytesOf(ValueOf(e, bias), 8);
    var done := space.CopyTo((bias + e.offset) % TWO64, value);
    WriteInside(was, old(space.mem), phdrs, size, bias, e.offset, value[..done]);
    WriteKeepsPages(old(space.mem), bias + e.offset, value[..done]);
    if done != 8 {
      return false;
    }
    assert value[..done] == value;
    ok := true;
  }

  ghost predicate AllGood(m: Memory, es: seq<Rela>, phdrs: seq<Phdr>, bias: U64) {
    forall i | 0 <= i < |es| :: Good(m, es[i], phdrs, bias)
  }

  /** The loop over the table, 64 entries read at a time: as if read whole */
  method ApplyTable(space: Space, src: Source, phdrs: seq<Phdr>, bias: U64, at: U64, count: nat)
    returns (ok: bool, applied: nat)
    requires src.Valid() && !space.trouble && at + count * RELA_SIZE <= |src.file|
    requires AllValid(phdrs, |phdrs|, |src.file|, bias)
    modifies space
    ensures space.trouble ==> !ok
    ensures var es := RelaEntries(src.file, at, count);
            && (!space.trouble ==> (ok <==> AllGood(old(space.mem), es, phdrs, bias)))
            && (ok ==> space.mem == Patched(old(space.mem), es, bias) && applied == RelativeCount(es))
    ensures OnlyInside(old(space.mem), space.mem, phdrs, bias)
  {
    hide RelaAt, AllValid, Good, Patched, RelativeCount, Write, Rela.Kind;
    ghost var es := RelaEntries(src.file, at, count);
    ghost var was := space.mem;
    applied := 0;
    PatchedNone(was, es, bias);
    var done := 0;
    ghost var reached: nat := 0;
    while done < count
      invariant 0 <= done && reached == if done < count then done else count
      invariant !space.trouble && space.mem == Patched(was, es[..reached], bias)
      invariant applied == RelativeCount(es[..reached])
      invariant OnlyInside(was, space.mem, phdrs, bias)
      invariant forall k | 0 <= k < reached :: Good(was, es[k], phdrs, bias)
    {
      var n := if count - done < RELA_CHUNK then count - done else RELA_CHUNK;
      ghost var lo := at + done * RELA_SIZE;
      ChunkInFile(at, done, n, count, RELA_SIZE, |src.file|);
      var chunk;
      ok, chunk := Read(space, src, at + done * RELA_SIZE, n * RELA_SIZE);
      if !ok {
        return;
      }
      for i := 0 to n
        invariant reached == done + i && !space.trouble
        invariant space.mem == Patched(was, es[..reached], bias) && applied == RelativeCount(es[..reached])
        invariant OnlyInside(was, space.mem, phdrs, bias)
        invariant forall k | 0 <= k < reached :: Good(was, es[k], phdrs, bias)
      {
        EntryInChunk(i, n, RELA_SIZE);
        var e := RelaAt(chunk, i * RELA_SIZE);
        RelaOfSlice(src.file, lo, lo + n * RELA_SIZE, i * RELA_SIZE);
        EntryPlace(at, done, i, RELA_SIZE);
        assert e == es[reached];
        ghost var before := space.mem;
        ok := ApplyOne(space, phdrs, |src.file|, bias, e, was);
        GoodAnyway(was, before, e, phdrs, bias);
        if !ok {
          return;
        }
        PatchedMore(was, es, reached, bias);
        CountMore(es, reached);
        if e.Kind() == R_X86_64_RELATIVE {
          applied := applied + 1;
        }
        reached := reached + 1;
      }
      done := done + RELA_CHUNK;
    }
    ok := true;
    assert es[..reached] == es;
  }

  lemma PatchedNone(m: Memory, es: seq<Rela>, bias: U64)
    ensures Patched(m, es[..0], bias) == m && RelativeCount(es[..0]) == 0 && OnlyInside(m, m, [], bias)
  {
  }

  /** Patching maps and unmaps nothing */
  lemma GoodAnyway(m: Memory, m': Memory, e: Rela, phdrs: seq<Phdr>, bias: U64)
    requires m'.pages == m.pages
    ensures Good(m', e, phdrs, bias) == Good(m, e, phdrs, bias)
  {
  }

  /** elf_apply_relocations_from */
  method ApplyRelocations(space: Space, src: Source, phdrs: seq<Phdr>, bias: U64) returns (ok: bool, applied: nat)
    requires src.Valid() && !space.trouble && AllValid(phdrs, |phdrs|, |src.file|, bias)
    modifies space
    ensures space.trouble ==> !ok
    ensures var es := TableEntries(src.file, phdrs);
            && (!space.trouble ==>
                  (ok <==> !TableOf(src.file, phdrs).Malformed? && AllGood(old(space.mem), es, phdrs, bias)))
            && (ok ==> space.mem == Patched(old(space.mem), es, bias) && applied == RelativeCount(es))
    ensures OnlyInside(old(space.mem), space.mem, phdrs, bias)
  {
    hide AllValid, Good, BeforeNull, LastOf, FirstDynamic, FileOffset, DynEntries, RelaEntries;
    applied := 0;
    var d := 0;
    while d < |phdrs| && phdrs[d].kind != PT_DYNAMIC
      invariant 0 <= d <= |phdrs| && forall i | 0 <= i < d :: phdrs[i].kind != PT_DYNAMIC
    {
      d := d + 1;
    }
    if d == |phdrs| {
      return true, 0;
    }
    var dynamic := phdrs[d];
    if !RangeInFile(dynamic.offset, dynamic.filesz, |src.file|) {
      return false, 0;
    }
    var count := dynamic.filesz / DYN_SIZE;
    var where, length, entry;
    ok, where, length, entry := ScanDynamic(space, src, dynamic.offset, count);
    if !ok {
      return;
    }
    ScannedTable(BeforeNull(DynEntries(src.file, dynamic.offset, count)), where, length, entry, phdrs, |src.file|);
    if where.None? || length == 0 {
      return true, 0;
    }
    if entry != RELA_SIZE || length % RELA_SIZE != 0 {
      return false, 0;
    }
    if length / RELA_SIZE > MAX_RELOCATIONS {
      return false, 0;
    }
    var at;
    ok, at := VaddrToFileOffset(phdrs, |src.file|, where.value, length);
    if !ok {
      return;
    }
    ok, applied := ApplyTable(space, src, phdrs, bias, at, length / RELA_SIZE);
  }

  lemma ScannedTable(ds: seq<Dyn>, where: Option<U64>, length: U64, entry: U64, phdrs: seq<Phdr>, size: nat)
    requires Scanned(ds, |ds|, where, length, entry)
    ensures TableFrom(ds, phdrs, size) == TableAt(where, length, entry, phdrs, size)
  {
    assert ds[..|ds|] == ds;
  }
}
