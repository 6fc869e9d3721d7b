/** What a loaded image is, said of addresses and pages; and that leaving segments to be
    read from the file shows a program the same memory.
 */
module ElfTheorems {
  import opened Common
  import opened ElfFormat
  import opened ElfMemory
  import opened ElfSegments
  import opened ElfLoading

  // ----- Addresses and pages of a segment -----

  /** The segment has a byte of memory on the page */
  predicate Touches(ph: Phdr, bias: nat, page: nat) {
    ph.Loadable() && page * PAGE_SIZE < ph.vaddr + bias + ph.memsz && ph.vaddr + bias < (page + 1) * PAGE_SIZE
  }

  /** The address is in the segment's memory */
  predicate Holds(ph: Phdr, bias: nat, a: nat) {
    ph.Loadable() && ph.vaddr + bias <= a < ph.vaddr + bias + ph.memsz
  }

  /** The address is in the part of it that comes from the file */
  predicate Covers(ph: Phdr, bias: nat, a: nat) {
    ph.Loadable() && ph.vaddr + bias <= a < ph.vaddr + bias + ph.filesz
  }

  lemma TouchedPages(ph: Phdr, bias: nat, page: nat)
    requires ph.Loadable()
    ensures Touches(ph, bias, page) <==> PageOf(ph.vaddr + bias) <= page < PageUp(ph.vaddr + bias + ph.memsz)
  {
  }

  lemma HeldIsTouched(ph: Phdr, bias: nat, a: nat)
    requires Holds(ph, bias, a)
    ensures Touches(ph, bias, PageOf(a))
  {
  }

  // ----- Pages -----

  ghost predicate Touched(phdrs: seq<Phdr>, bias: nat, skip: set<nat>, n: nat, page: nat)
    requires n <= |phdrs|
  {
    exists i :: 0 <= i < n && i !in skip && Touches(phdrs[i], bias, page)
  }

  ghost predicate TouchedWritable(phdrs: seq<Phdr>, bias: nat, skip: set<nat>, n: nat, page: nat)
    requires n <= |phdrs|
  {
    exists i :: 0 <= i < n && i !in skip && Touches(phdrs[i], bias, page) && phdrs[i].Writable()
  }

  ghost predicate TouchedExecutable(phdrs: seq<Phdr>, bias: nat, skip: set<nat>, n: nat, page: nat)
    requires n <= |phdrs|
  {
    exists i :: 0 <= i < n && i !in skip && Touches(phdrs[i], bias, page) && phdrs[i].Executable()
  }

  /** What one more segment makes of a page's permissions */
  function PermAfter(m: Memory, ph: Phdr, bias: nat, page: nat): Perm {
    if page !in m.pages then PermOf(ph)
    else if Touches(ph, bias, page) then Merge(m.pages[page], PermOf(ph))
    else m.pages[page]
  }

  lemma LoadOnePages(m: Memory, file: seq<Byte>, ph: Phdr, bias: U64, page: nat)
    requires SegmentValid(ph, |file|, bias) && ph.kind == PT_LOAD
    ensures var m' := LoadOne(m, file, ph, bias);
            && (page in m'.pages <==> page in m.pages || Touches(ph, bias, page))
            && (page in m'.pages ==> m'.pages[page] == PermAfter(m, ph, bias, page))
  {
    hide SegmentValid;
    if ph.memsz > 0 {
      SegmentChecks(ph, |file|, bias);
      TouchedPages(ph, bias, page);
      var v := ph.vaddr + bias;
      assert page in LoadOne(m, file, ph, bias).pages <==>
        page in m.pages || page in Range(PageOf(v), PageUp(v + ph.memsz));
    }
  }

  lemma {:induction false} LeftIsBelow(src: Source, phdrs: seq<Phdr>, bias: U64, m: Memory, n: nat)
    requires n <= |phdrs| && AllValid(phdrs, n, |src.file|, bias)
    ensures forall i | i in LoadFirst(src, phdrs, bias, m, n).left ::
              i < n && phdrs[i].Loadable() && MayBeLeft(phdrs, i, bias)
  {
    hide MayBeLeft;
    if n > 0 {
      LeftIsBelow(src, phdrs, bias, m, n - 1);
      if MayBeLeft(phdrs, n - 1, bias) {
        LeftIsNotEmpty(phdrs, n - 1, bias);
      }
    }
  }

  lemma LeftIsNotEmpty(phdrs: seq<Phdr>, i: nat, bias: U64)
    requires i < |phdrs| && MayBeLeft(phdrs, i, bias)
    ensures phdrs[i].memsz > 0
  {
  }

  /** After loading, a page is mapped if it was before or a segment loaded touches it;
      it is writable if some sharer is, executable if some sharer is */
  ghost predicate PageRight(m: Memory, m': Memory, phdrs: seq<Phdr>, bias: nat, skip: set<nat>, n: nat, page: nat)
    requires n <= |phdrs|
  {
    && (page in m'.pages <==> page in m.pages || Touched(phdrs, bias, skip, n, page))
    && (page in m'.pages ==>
          && (m'.pages[page].writable <==>
                (page in m.pages && m.pages[page].writable) || TouchedWritable(phdrs, bias, skip, n, page))
          && (m'.pages[page].noExecute <==>
                (page in m.pages ==> m.pages[page].noExecute) && !TouchedExecutable(phdrs, bias, skip, n, page)))
  }

  lemma {:induction false} LoadedPages(src: Source, phdrs: seq<Phdr>, bias: U64, m: Memory, n: nat, page: nat)
    requires n <= |phdrs| && AllValid(phdrs, n, |src.file|, bias)
    ensures var img := LoadFirst(src, phdrs, bias, m, n);
            PageRight(m, img.mem, phdrs, bias, img.left, n, page)
  {
    hide LoadOne, MayBeLeft, SegmentValid, PageRight;
    if n == 0 {
      PageRightNone(m, phdrs, bias, page);
    } else {
      var img, img' := LoadFirst(src, phdrs, bias, m, n - 1), LoadFirst(src, phdrs, bias, m, n);
      LoadedPages(src, phdrs, bias, m, n - 1, page);
      LeftIsBelow(src, phdrs, bias, m, n - 1);
      if phdrs[n - 1].kind == PT_LOAD && n - 1 !in img'.left {
        LoadOnePages(img.mem, src.file, phdrs[n - 1], bias, page);
        PageRightMore(m, img.mem, img'.mem, phdrs, bias, img.left, n, page);
      } else {
        PageRightSame(m, img.mem, phdrs, bias, img.left, img'.left, n, page);
      }
    }
  }

  lemma PageRightNone(m: Memory, phdrs: seq<Phdr>, bias: nat, page: nat)
    ensures PageRight(m, m, phdrs, bias, {}, 0, page)
  {
  }

  /** One more segment touched, or not */
  lemma TouchedMore(phdrs: seq<Phdr>, bias: nat, skip: set<nat>, skip': set<nat>, n: nat, page: nat)
    requires 0 < n <= |phdrs| && (forall i | 0 <= i < n - 1 :: i in skip <==> i in skip')
    ensures var more := n - 1 !in skip' && Touches(phdrs[n - 1], bias, page);
            && (Touched(phdrs, bias, skip', n, page) <==> Touched(phdrs, bias, skip, n - 1, page) || more)
            && (TouchedWritable(phdrs, bias, skip', n, page) <==>
                  TouchedWritable(phdrs, bias, skip, n - 1, page) || (more && phdrs[n - 1].Writable()))
            && (TouchedExecutable(phdrs, bias, skip', n, page) <==>
                  TouchedExecutable(phdrs, bias, skip, n - 1, page) || (more && phdrs[n - 1].Executable()))
  {
    hide Touches;
  }

  lemma PageRightMore(m: Memory, m1: Memory, m': Memory, phdrs: seq<Phdr>, bias: nat, skip: set<nat>, n: nat, page: nat)
    requires 0 < n <= |phdrs| && PageRight(m, m1, phdrs, bias, skip, n - 1, page) && n - 1 !in skip
    requires var ph := phdrs[n - 1];
            && (page in m'.pages <==> page in m1.pages || Touches(ph, bias, page))
            && (page in m'.pages ==> m'.pages[page] == PermAfter(m1, ph, bias, page))
    ensures PageRight(m, m', phdrs, bias, skip, n, page)
  {
    hide Touches, Touched, TouchedWritable, TouchedExecutable;
    TouchedMore(phdrs, bias, skip, skip, n, page);
    TouchedIsTouched(phdrs, bias, skip, n - 1, page);
  }

  lemma TouchedIsTouched(phdrs: seq<Phdr>, bias: nat, skip: set<nat>, n: nat, page: nat)
    requires n <= |phdrs|
    ensures TouchedWritable(phdrs, bias, skip, n, page) || TouchedExecutable(phdrs, bias, skip, n, page) ==>
              Touched(phdrs, bias, skip, n, page)
  {
  }

  lemma PageRightSame(m: Memory, m': Memory, phdrs: seq<Phdr>, bias: nat, skip: set<nat>, skip': set<nat>, n: nat,
                      page: nat)
    requires 0 < n <= |phdrs| && PageRight(m, m', phdrs, bias, skip, n - 1, page)
    requires forall i | 0 <= i < n - 1 :: i in skip <==> i in skip'
    requires phdrs[n - 1].kind == PT_LOAD ==> n - 1 in skip'
    ensures PageRight(m, m', phdrs, bias, skip', n, page)
  {
    TouchedMore(phdrs, bias, skip, skip', n, page);
    hide Touched, TouchedWritable, TouchedExecutable;
  }

  // ----- Bytes -----

  /** The last of the first `n` segments, other than those in `skip`, with a byte of
      the file for the address */
  function LastCovering(phdrs: seq<Phdr>, bias: nat, skip: set<nat>, n: nat, a: nat): (r: Option<nat>)
    requires n <= |phdrs|
    ensures r.Some? ==> r.value < n && r.value !in skip && Covers(phdrs[r.value], bias, a)
    ensures forall i | 0 <= i < n && (r.Some? ==> r.value < i) && i !in skip :: !Covers(phdrs[i], bias, a)
  {
    if n == 0 then None
    else if n - 1 !in skip && Covers(phdrs[n - 1], bias, a) then Some(n - 1)
    else LastCovering(phdrs, bias, skip, n - 1, a)
  }

  /** The byte that a segment has there in the file */
  function ByteOf(file: seq<Byte>, ph: Phdr, bias: nat, a: nat): Byte
    requires RangeInFile(ph.offset, ph.filesz, |file|) && Covers(ph, bias, a)
  {
    file[ph.offset + (a - ph.vaddr - bias)]
  }

  /** After loading, an address holds the byte of the last segment that has one for
      it; otherwise what it held before, and 0 on a new page */
  ghost predicate ByteRight(m: Memory, m': Memory, file: seq<Byte>, phdrs: seq<Phdr>, bias: U64, skip: set<nat>, n: nat,
                            a: nat)
    requires n <= |phdrs| && AllValid(phdrs, n, |file|, bias)
  {
    PageOf(a) in m'.pages ==>
      m'.ByteAt(a) == match LastCovering(phdrs, bias, skip, n, a)
                      case Some(i) => Some(ByteOf(file, phdrs[i], bias, a))
                      case None => Some(if a in m.bytes then m.bytes[a] else 0)
  }

  lemma LoadOneBytes(m: Memory, file: seq<Byte>, ph: Phdr, bias: U64, a: nat)
    requires SegmentValid(ph, |file|, bias) && ph.kind == PT_LOAD && m.Valid()
    ensures var m' := LoadOne(m, file, ph, bias);
            && m'.Valid()
            && (a in m'.bytes <==> a in m.bytes || Covers(ph, bias, a))
            && (a in m'.bytes ==> m'.bytes[a] == if Covers(ph, bias, a) then ByteOf(file, ph, bias, a) else m.bytes[a])
  {
    hide MapPages, Write, PageOf, PageUp, Memory.Valid;
    if ph.memsz > 0 {
      SegmentChecks(ph, |file|, bias);
      var v := ph.vaddr + bias;
      MapValid(m, PageOf(v), PageUp(v + ph.memsz), PermOf(ph));
      var mapped := MapPages(m, PageOf(v), PageUp(v + ph.memsz), PermOf(ph));
      RangeIsMapped(m, v, ph.memsz, PermOf(ph), ph.filesz);
      WriteValid(mapped, v, FileBytes(file, ph));
      WriteByte(mapped, v, FileBytes(file, ph), a);
    }
  }

  lemma WriteByte(m: Memory, dest: nat, s: seq<Byte>, a: nat)
    ensures var m' := Write(m, dest, s);
            && (a in m'.bytes <==> a in m.bytes || dest <= a < dest + |s|)
            && (a in m'.bytes ==> m'.bytes[a] == if dest <= a < dest + |s| then s[a - dest] else m.bytes[a])
  {
    assert a in Write(m, dest, s).bytes <==> a in m.bytes || a in Range(dest, dest + |s|);
  }

  lemma MapValid(m: Memory, lo: nat, hi: nat, perm: Perm)
    requires m.Valid()
    ensures MapPages(m, lo, hi, perm).Valid() && MapPages(m, lo, hi, perm).bytes == m.bytes
  {
    hide PageOf;
  }

  lemma {:induction false} SkipAlike(phdrs: seq<Phdr>, bias: nat, skip: set<nat>, skip': set<nat>, n: nat, a: nat)
    requires n <= |phdrs| && forall i | 0 <= i < n && Covers(phdrs[i], bias, a) :: i in skip <==> i in skip'
    ensures LastCovering(phdrs, bias, skip, n, a) == LastCovering(phdrs, bias, skip', n, a)
  {
    hide Covers;
    if n > 0 {
      SkipAlike(phdrs, bias, skip, skip', n - 1, a);
    }
  }

  lemma {:induction false} LoadedBytes(src: Source, phdrs: seq<Phdr>, bias: U64, m: Memory, n: nat, a: nat)
    requires n <= |phdrs| && AllValid(phdrs, n, |src.file|, bias) && m.Valid()
    ensures var img := LoadFirst(src, phdrs, bias, m, n);
            && img.mem.Valid()
            && match LastCovering(phdrs, bias, img.left, n, a)
               case Some(i) => a in img.mem.bytes && img.mem.bytes[a] == ByteOf(src.file, phdrs[i], bias, a)
               case None => (a in img.mem.bytes <==> a in m.bytes) && (a in m.bytes ==> img.mem.bytes[a] == m.bytes[a])
  {
    hide LoadOne, MayBeLeft, SegmentValid, Covers, Memory.Valid;
    if n > 0 {
      var img, img' := LoadFirst(src, phdrs, bias, m, n - 1), LoadFirst(src, phdrs, bias, m, n);
      LoadedBytes(src, phdrs, bias, m, n - 1, a);
      LeftIsBelow(src, phdrs, bias, m, n - 1);
      SkipAlike(phdrs, bias, img.left, img'.left, n - 1, a);
      if phdrs[n - 1].kind == PT_LOAD {
        LoadOneBytes(img.mem, src.file, phdrs[n - 1], bias, a);
      } else {
        OthersCoverNothing(phdrs[n - 1], bias, a);
      }
    }
  }

  lemma OthersCoverNothing(ph: Phdr, bias: nat, a: nat)
    requires ph.kind != PT_LOAD
    ensures !Covers(ph, bias, a)
  {
  }

  /** Loading from any memory, for every address */
  lemma LoadedImage(src: Source, phdrs: seq<Phdr>, bias: U64, m: Memory, a: nat)
    requires AllValid(phdrs, |phdrs|, |src.file|, bias) && m.Valid()
    ensures var img := LoadFirst(src, phdrs, bias, m, |phdrs|);
            && PageRight(m, img.mem, phdrs, bias, img.left, |phdrs|, PageOf(a))
            && ByteRight(m, img.mem, src.file, phdrs, bias, img.left, |phdrs|, a)
  {
    hide PageRight, LoadFirst;
    LoadedPages(src, phdrs, bias, m, |phdrs|, PageOf(a));
    LoadedBytes(src, phdrs, bias, m, |phdrs|, a);
  }
}
