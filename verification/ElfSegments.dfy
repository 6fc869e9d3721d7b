/** Segments: the checks on them, and loading them page by page or leaving them to be
    read from the file.
 */
module ElfSegments {
  import opened ElfFormat
  import opened ElfMemory

  const ELF_MAX_SEGMENT: nat := 256 * 1024 * 1024
  const ELF_MIN_VADDR: nat := 0x1000
  const ELF_LAZY_SEGMENTS: nat := 4
  const ELF_REPORTED_SEGMENTS: nat := 4

  /** A program file: in memory, or a node to read it from, or both */
  datatype Source = Source(file: seq<Byte>, node: bool, inMemory: bool) {
    predicate Valid() {
      |file| < TWO64 && (node || inMemory)
    }
  }

  /** elf_source_read: a read inside the file fails only if the disk does */
  method Read(space: Space, src: Source, offset: U64, length: U64) returns (ok: bool, bytes: seq<Byte>)
    requires src.Valid() && !space.trouble
    modifies space`trouble
    ensures space.trouble ==> !ok && !src.inMemory
    ensures !space.trouble ==> (ok <==> RangeInFile(offset, length, |src.file|))
    ensures ok ==> bytes == src.file[offset..offset + length]
  {
    bytes := [];
    if !RangeInFile(offset, length, |src.file|) {
      return false, bytes;
    }
    ok := true;
    if length > 0 && !src.inMemory {
      ok := space.Chance();
    }
    bytes := src.file[offset..offset + length];
  }

  // ----- Checking a segment -----

  function Address(ph: Phdr, bias: U64): U64 {
    (ph.vaddr + bias) % TWO64
  }

  predicate SegmentValid(ph: Phdr, size: nat, bias: U64) {
    if ph.memsz == 0 then true
    else if ph.filesz > ph.memsz then false
    else if !RangeInFile(ph.offset, ph.filesz, size) then false
    else if ph.memsz > ELF_MAX_SEGMENT then false
    else
      var vaddr := Address(ph, bias);
      !(vaddr < ph.vaddr) && !(vaddr < ELF_MIN_VADDR)
      && !(vaddr >= USER_SPACE_END || ph.memsz > USER_SPACE_END - vaddr)
  }

  /** The 64-bit checks accept exactly the segments whose ranges, in whole numbers,
      lie in the file and in the user's part of the address space */
  lemma SegmentChecks(ph: Phdr, size: nat, bias: U64)
    requires ph.memsz > 0
    ensures SegmentValid(ph, size, bias) <==>
            && ph.filesz <= ph.memsz <= 0x1000_0000
            && ph.offset + ph.filesz <= size
            && 0x1000 <= ph.vaddr + bias && ph.vaddr + bias + ph.memsz <= 0x8000_0000_0000
    ensures SegmentValid(ph, size, bias) ==> Address(ph, bias) == ph.vaddr + bias
  {
    if ph.vaddr + bias >= TWO64 {
      assert Address(ph, bias) == ph.vaddr + bias - TWO64;
    } else {
      assert Address(ph, bias) == ph.vaddr + bias;
    }
  }

  // ----- Loading a segment -----

  function PermOf(ph: Phdr): Perm {
    Perm(ph.Writable(), !ph.Executable())
  }

  /** One more than the last page below `end` */
  function PageUp(end: nat): nat {
    (end + PAGE_SIZE - 1) / PAGE_SIZE
  }

  function FileBytes(file: seq<Byte>, ph: Phdr): seq<Byte>
    requires RangeInFile(ph.offset, ph.filesz, |file|)
  {
    file[ph.offset..ph.offset + ph.filesz]
  }

  function LoadOne(m: Memory, file: seq<Byte>, ph: Phdr, bias: U64): Memory
    requires SegmentValid(ph, |file|, bias)
  {
    if ph.memsz == 0 then m
    else
      var v := Address(ph, bias);
      Write(MapPages(m, PageOf(v), PageUp(v + ph.memsz), PermOf(ph)), v, FileBytes(file, ph))
  }

  /** The pages of a segment are those of its bytes */
  lemma PagesOfRange(v: nat, length: nat, a: nat)
    requires length > 0
    ensures PageOf(v) <= PageOf(a) < PageUp(v + length) <==>
            v / PAGE_SIZE * PAGE_SIZE <= a < PageUp(v + length) * PAGE_SIZE
    ensures v <= a < v + length ==> PageOf(v) <= PageOf(a) < PageUp(v + length)
  {
  }

  /** copy_from_source: at once from memory, or a page at a time from a disk */
  method CopyFromSource(space: Space, src: Source, offset: U64, vaddr: nat, length: U64) returns (ok: bool)
    requires src.Valid() && !space.trouble && RangeInFile(offset, length, |src.file|)
    requires vaddr + length < TWO64 && Mapped(space.mem, vaddr, length)
    modifies space
    ensures ok == !space.trouble
    ensures ok ==> space.mem == Write(old(space.mem), vaddr, src.file[offset..offset + length])
  {
    hide Write, Mapped;
    if src.inMemory {
      var bytes := src.file[offset..offset + length];
      var done := space.CopyTo(vaddr, bytes);
      AllCopied(old(space.mem), space.mem, vaddr, bytes, done);
      return true;
    }
    ok := space.Chance();
    var done: nat := 0;
    ghost var was := space.mem;
    assert src.file[offset..offset + done] == [];
    WriteNothing(was, vaddr);
    while ok && done < length
      invariant done <= length && ok == !space.trouble
      invariant space.mem == Write(was, vaddr, src.file[offset..offset + done])
    {
      var chunk := if length - done < PAGE_SIZE then length - done else PAGE_SIZE;
      var bytes;
      ok, bytes := Read(space, src, offset + done, chunk);
      if ok {
        ghost var before := space.mem;
        PartMapped(was, vaddr, src.file[offset..offset + done], done, chunk, length);
        WriteKeepsPages(was, vaddr, src.file[offset..offset + done]);
        var copied := space.CopyTo(vaddr + done, bytes);
        AllCopied(before, space.mem, vaddr + done, bytes, copied);
        WriteMore(was, vaddr, src.file[offset..offset + done], bytes);
        assert src.file[offset..offset + done] + bytes == src.file[offset..offset + done + chunk];
        done := done + chunk;
      }
    }
  }

  /** Over mapped pages a copy is whole */
  lemma AllCopied(before: Memory, after: Memory, dest: nat, s: seq<Byte>, done: nat)
    requires done <= |s| && after == Write(before, dest, s[..done])
    requires Mapped(before, dest, |s|) && (done < |s| ==> PageOf(dest + done) !in after.pages)
    ensures done == |s| && after == Write(before, dest, s)
  {
    if done < |s| {
      assert false;
    }
    assert s[..|s|] == s;
  }

  lemma PartMapped(m: Memory, dest: nat, s: seq<Byte>, done: nat, chunk: nat, length: nat)
    requires Mapped(m, dest, length) && done + chunk <= length
    ensures Mapped(Write(m, dest, s), dest + done, chunk)
  {
  }

  /** load_segment */
  method LoadSegment(space: Space, src: Source, ph: Phdr, bias: U64) returns (ok: bool)
    requires src.Valid() && !space.trouble && SegmentValid(ph, |src.file|, bias)
    modifies space
    ensures ok == !space.trouble
    ensures ok ==> space.mem == LoadOne(old(space.mem), src.file, ph, bias)
  {
    hide Write, MapPages, Mapped, PageOf, PageUp;
    if ph.memsz == 0 {
      return true;
    }
    SegmentChecks(ph, |src.file|, bias);
    var vaddr := Address(ph, bias);
    var end := vaddr + ph.memsz;
    var first := PageOf(vaddr);
    var page := first;
    FirstPage(vaddr, ph.memsz);
    MapNone(space.mem, first, PermOf(ph));
    while page * PAGE_SIZE < end
      invariant first <= page <= PageUp(end) && !space.trouble
      invariant space.mem == MapPages(old(space.mem), first, page, PermOf(ph))
      decreases PageUp(end) - page
    {
      ok := space.Chance();
      if !ok {
        return;
      }
      MapOneMore(old(space.mem), first, page, PermOf(ph));
      NextPage(end, page);
      space.mem := MapPage(space.mem, page, PermOf(ph));
      page := page + 1;
    }
    LastPage(end, page);
    RangeIsMapped(old(space.mem), vaddr, ph.memsz, PermOf(ph), ph.filesz);
    ok := CopyFromSource(space, src, ph.offset, vaddr, ph.filesz);
  }

  lemma FirstPage(vaddr: nat, length: nat)
    requires length > 0
    ensures PageOf(vaddr) < PageUp(vaddr + length)
  {
    PagesOfRange(vaddr, length, vaddr);
  }

  lemma NextPage(end: nat, page: nat)
    requires page * PAGE_SIZE < end
    ensures page + 1 <= PageUp(end)
  {
  }

  lemma LastPage(end: nat, page: nat)
    requires page * PAGE_SIZE >= end && page <= PageUp(end)
    ensures page == PageUp(end)
  {
  }

  lemma RangeIsMapped(m: Memory, vaddr: nat, length: nat, perm: Perm, part: nat)
    requires length > 0 && part <= length
    ensures Mapped(MapPages(m, PageOf(vaddr), PageUp(vaddr + length), perm), vaddr, part)
  {
    var m' := MapPages(m, PageOf(vaddr), PageUp(vaddr + length), perm);
    forall a | vaddr <= a < vaddr + part
      ensures PageOf(a) in m'.pages
    {
      PagesOfRange(vaddr, length, a);
      assert PageOf(a) in Range(PageOf(vaddr), PageUp(vaddr + length));
    }
  }
}
