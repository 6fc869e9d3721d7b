/** Segments left to be read from the file show what loading them would have. */
module ElfLazy {
  import opened Common
  import opened ElfFormat
  import opened ElfMemory
  import opened ElfSegments
  import opened ElfLoading
  import opened ElfTheorems

  /** The region that a page fault at the address finds */
  function FindLazy(lazy: seq<Lazy>, a: nat): (r: Option<Lazy>)
    ensures r.Some? ==> r.value in lazy && r.value.start <= a < r.value.end
    ensures r.None? ==> forall l | l in lazy :: !(l.start <= a < l.end)
  {
    if lazy == [] then None
    else if lazy[0].start <= a < lazy[0].end then Some(lazy[0])
    else FindLazy(lazy[1..], a)
  }

  /** What a program reads at an address: what was loaded, or the file's byte */
  function Seen(img: Image, file: seq<Byte>, a: nat): Option<Byte> {
    if PageOf(a) in img.mem.pages then img.mem.ByteAt(a)
    else
      match FindLazy(img.lazy, a)
      case None => None
      case Some(l) => var at := l.fileOffset + (a - l.start); Some(if at < |file| then file[at] else 0)
  }

  /** What it may do there */
  function SeenPerm(img: Image, a: nat): Option<Perm> {
    if PageOf(a) in img.mem.pages then Some(img.mem.pages[PageOf(a)])
    else
      match FindLazy(img.lazy, a)
      case None => None
      case Some(l) => Some(Perm(false, !l.executable))
  }

  /** What is left shares no page with any other segment */
  lemma LeftIsAlone(phdrs: seq<Phdr>, size: nat, bias: U64, i: nat, j: nat, page: nat)
    requires i < |phdrs| && j < |phdrs| && i != j && AllValid(phdrs, |phdrs|, size, bias)
    requires MayBeLeft(phdrs, i, bias) && phdrs[i].Loadable() && Touches(phdrs[i], bias, page)
    ensures !Touches(phdrs[j], bias, page)
  {
    hide WholePages, SegmentValid, PagesStart, PagesEnd;
    if Touches(phdrs[j], bias, page) {
      SegmentPages(phdrs[i], size, bias);
      SegmentPages(phdrs[j], size, bias);
      Overlap(phdrs[i], phdrs[j], bias, page);
    }
  }

  lemma Overlap(p: Phdr, q: Phdr, bias: nat, page: nat)
    requires Touches(p, bias, page) && Touches(q, bias, page)
    ensures PageOf(p.vaddr + bias) * PAGE_SIZE < PageUp(q.vaddr + bias + q.memsz) * PAGE_SIZE
    ensures PageOf(q.vaddr + bias) * PAGE_SIZE < PageUp(p.vaddr + bias + p.memsz) * PAGE_SIZE
  {
    TouchedPages(p, bias, page);
    TouchedPages(q, bias, page);
  }

  /** The list of regions is that of the segments left */
  lemma {:induction false} ListedAreLeft(src: Source, phdrs: seq<Phdr>, bias: U64, m: Memory, n: nat)
    requires n <= |phdrs| && AllValid(phdrs, n, |src.file|, bias)
    ensures var img := LoadFirst(src, phdrs, bias, m, n);
            && |img.lazy| <= 4
            && (forall l | l in img.lazy :: exists i :: i in img.left && 0 <= i < n && l == LazyOf(phdrs[i], bias))
            && (forall i | i in img.left :: 0 <= i < n && LazyOf(phdrs[i], bias) in img.lazy)
  {
    hide LoadOne, MayBeLeft, SegmentValid, LazyOf, EndOf, ReportOf;
    if n > 0 {
      var img, img' := LoadFirst(src, phdrs, bias, m, n - 1), LoadFirst(src, phdrs, bias, m, n);
      ListedAreLeft(src, phdrs, bias, m, n - 1);
      forall l | l in img'.lazy
        ensures exists i :: i in img'.left && 0 <= i < n && l == LazyOf(phdrs[i], bias)
      {
        if l in img.lazy {
          var i :| i in img.left && 0 <= i < n - 1 && l == LazyOf(phdrs[i], bias);
          assert i in img'.left && 0 <= i < n && l == LazyOf(phdrs[i], bias);
        } else {
          assert n - 1 in img'.left && l == LazyOf(phdrs[n - 1], bias);
        }
      }
    }
  }

  /** The addresses of a region are those of the segment's pages */
  lemma InRegion(ph: Phdr, size: nat, bias: U64, a: nat)
    requires SegmentValid(ph, size, bias) && ph.Loadable()
    ensures var l := LazyOf(ph, bias); l.start <= a < l.end <==> Touches(ph, bias, PageOf(a))
  {
    hide SegmentValid, PagesStart, PagesEnd;
    SegmentPages(ph, size, bias);
    TouchedPages(ph, bias, PageOf(a));
    PagesOfRange(ph.vaddr + bias, ph.memsz, a);
  }

  /** In a segment's memory the region shows the segment's byte of the file */
  lemma RegionByte(ph: Phdr, file: seq<Byte>, bias: U64, a: nat)
    requires SegmentValid(ph, |file|, bias) && WholePages(ph, bias) && Holds(ph, bias, a)
    ensures Covers(ph, bias, a) && RangeInFile(ph.offset, ph.filesz, |file|)
    ensures var l := LazyOf(ph, bias);
            && l.start <= a && l.fileOffset + (a - l.start) < |file|
            && file[l.fileOffset + (a - l.start)] == ByteOf(file, ph, bias, a)
  {
    SegmentChecks(ph, |file|, bias);
    assert AlignDown(ph.offset) + (a - AlignDown(ph.vaddr + bias)) == ph.offset + (a - ph.vaddr - bias);
  }

  /** A segment left: nothing is loaded there, and its region is the one found */
  lemma LeftRegion(src: Source, phdrs: seq<Phdr>, bias: U64, j: nat, a: nat)
    requires AllValid(phdrs, |phdrs|, |src.file|, bias) && j < |phdrs|
    requires Holds(phdrs[j], bias, a)
    requires j in LoadFirst(src, phdrs, bias, Memory(map[], map[]), |phdrs|).left
    ensures var img := LoadFirst(src, phdrs, bias, Memory(map[], map[]), |phdrs|);
            PageOf(a) !in img.mem.pages && FindLazy(img.lazy, a) == Some(LazyOf(phdrs[j], bias))
  {
    hide SegmentValid, LoadFirst, LazyOf, Touches, FindLazy;
    var m := Memory(map[], map[]);
    var img := LoadFirst(src, phdrs, bias, m, |phdrs|);
    HeldIsTouched(phdrs[j], bias, a);
    LeftIsBelow(src, phdrs, bias, m, |phdrs|);
    forall i | 0 <= i < |phdrs| && i != j
      ensures !Touches(phdrs[i], bias, PageOf(a))
    {
      LeftIsAlone(phdrs, |src.file|, bias, j, i, PageOf(a));
    }
    hide MayBeLeft;
    LoadedPages(src, phdrs, bias, m, |phdrs|, PageOf(a));
    FoundIsLeft(src, phdrs, bias, j, a);
  }

  lemma FoundIsLeft(src: Source, phdrs: seq<Phdr>, bias: U64, j: nat, a: nat)
    requires AllValid(phdrs, |phdrs|, |src.file|, bias) && j < |phdrs| && phdrs[j].Loadable()
    requires Touches(phdrs[j], bias, PageOf(a))
    requires j in LoadFirst(src, phdrs, bias, Memory(map[], map[]), |phdrs|).left
    requires forall i | 0 <= i < |phdrs| && i != j :: !Touches(phdrs[i], bias, PageOf(a))
    ensures FindLazy(LoadFirst(src, phdrs, bias, Memory(map[], map[]), |phdrs|).lazy, a) == Some(LazyOf(phdrs[j], bias))
  {
    hide SegmentValid, LoadFirst, LazyOf, Touches, FindLazy, MayBeLeft;
    var m := Memory(map[], map[]);
    var img := LoadFirst(src, phdrs, bias, m, |phdrs|);
    ListedAreLeft(src, phdrs, bias, m, |phdrs|);
    LeftIsBelow(src, phdrs, bias, m, |phdrs|);
    InRegion(phdrs[j], |src.file|, bias, a);
    var l := FindLazy(img.lazy, a).value;
    var i :| i in img.left && 0 <= i < |phdrs| && l == LazyOf(phdrs[i], bias);
    InRegion(phdrs[i], |src.file|, bias, a);
  }

  /** Everything loaded at once leaves nothing */
  lemma {:induction false} EagerLeavesNone(src: Source, phdrs: seq<Phdr>, bias: U64, m: Memory, n: nat)
    requires n <= |phdrs| && AllValid(phdrs, n, |src.file|, bias) && !src.node
    ensures LoadFirst(src, phdrs, bias, m, n).left == {} && LoadFirst(src, phdrs, bias, m, n).lazy == []
  {
    hide LoadOne, MayBeLeft, SegmentValid;
    if n > 0 {
      EagerLeavesNone(src, phdrs, bias, m, n - 1);
    }
  }

  /** At every address of every segment, a program loaded with segments left to be
      read from its file finds the byte and the permissions that it would find with
      everything loaded */
  lemma LazyShowsTheSame(src: Source, phdrs: seq<Phdr>, bias: U64, j: nat, a: nat)
    requires AllValid(phdrs, |phdrs|, |src.file|, bias) && j < |phdrs| && Holds(phdrs[j], bias, a)
    ensures var img := LoadFirst(src, phdrs, bias, Memory(map[], map[]), |phdrs|);
            var eager := LoadFirst(src.(node := false), phdrs, bias, Memory(map[], map[]), |phdrs|).mem;
            && eager.ByteAt(a).Some?
            && Seen(img, src.file, a) == eager.ByteAt(a)
            && SeenPerm(img, a) == Some(eager.pages[PageOf(a)])
  {
    hide SegmentValid, LoadFirst, Touches, Touched, TouchedWritable, TouchedExecutable, FindLazy, LastCovering;
    var m := Memory(map[], map[]);
    var img := LoadFirst(src, phdrs, bias, m, |phdrs|);
    var all := src.(node := false);
    HeldIsTouched(phdrs[j], bias, a);
    EagerLeavesNone(all, phdrs, bias, m, |phdrs|);
    LoadedImage(src, phdrs, bias, m, a);
    LoadedImage(all, phdrs, bias, m, a);
    LeftIsBelow(src, phdrs, bias, m, |phdrs|);
    if j in img.left {
      LeftRegion(src, phdrs, bias, j, a);
      RegionByte(phdrs[j], src.file, bias, a);
      AloneIsLeft(src, phdrs, bias, j, a);
    } else {
      SharedIsLoaded(src, phdrs, bias, j, a);
    }
  }

  /** The only segment on its page */
  lemma AloneIsLeft(src: Source, phdrs: seq<Phdr>, bias: U64, j: nat, a: nat)
    requires AllValid(phdrs, |phdrs|, |src.file|, bias) && j < |phdrs| && MayBeLeft(phdrs, j, bias)
    requires Holds(phdrs[j], bias, a)
    ensures LastCovering(phdrs, bias, {}, |phdrs|, a) == Some(j)
    ensures Touched(phdrs, bias, {}, |phdrs|, PageOf(a)) && !TouchedWritable(phdrs, bias, {}, |phdrs|, PageOf(a))
    ensures TouchedExecutable(phdrs, bias, {}, |phdrs|, PageOf(a)) <==> phdrs[j].Executable()
  {
    hide SegmentValid, Touches;
    HeldIsTouched(phdrs[j], bias, a);
    forall i | 0 <= i < |phdrs| && i != j
      ensures !Touches(phdrs[i], bias, PageOf(a)) && !Covers(phdrs[i], bias, a)
    {
      LeftIsAlone(phdrs, |src.file|, bias, j, i, PageOf(a));
      CoveredIsTouched(phdrs[i], |src.file|, bias, a);
    }
  }

  lemma CoveredIsTouched(ph: Phdr, size: nat, bias: U64, a: nat)
    requires ph.kind == PT_LOAD ==> SegmentValid(ph, size, bias)
    ensures Covers(ph, bias, a) ==> Touches(ph, bias, PageOf(a))
  {
    if Covers(ph, bias, a) {
      HeldIsTouched(ph, bias, a);
    }
  }

  /** On a page of a segment that was loaded, all segments were */
  lemma SharedIsLoaded(src: Source, phdrs: seq<Phdr>, bias: U64, j: nat, a: nat)
    requires AllValid(phdrs, |phdrs|, |src.file|, bias) && j < |phdrs| && Holds(phdrs[j], bias, a)
    requires j !in LoadFirst(src, phdrs, bias, Memory(map[], map[]), |phdrs|).left
    ensures var left := LoadFirst(src, phdrs, bias, Memory(map[], map[]), |phdrs|).left;
            && LastCovering(phdrs, bias, {}, |phdrs|, a) == LastCovering(phdrs, bias, left, |phdrs|, a)
            && Touched(phdrs, bias, left, |phdrs|, PageOf(a)) && Touched(phdrs, bias, {}, |phdrs|, PageOf(a))
            && (TouchedWritable(phdrs, bias, {}, |phdrs|, PageOf(a)) <==>
                TouchedWritable(phdrs, bias, left, |phdrs|, PageOf(a)))
            && (TouchedExecutable(phdrs, bias, {}, |phdrs|, PageOf(a)) <==>
                TouchedExecutable(phdrs, bias, left, |phdrs|, PageOf(a)))
  {
    hide SegmentValid, LoadFirst, Touches;
    var left := LoadFirst(src, phdrs, bias, Memory(map[], map[]), |phdrs|).left;
    HeldIsTouched(phdrs[j], bias, a);
    LeftIsBelow(src, phdrs, bias, Memory(map[], map[]), |phdrs|);
    hide MayBeLeft;
    forall i | i in left
      ensures !Touches(phdrs[i], bias, PageOf(a)) && !Covers(phdrs[i], bias, a)
    {
      if Touches(phdrs[i], bias, PageOf(a)) {
        LeftIsAlone(phdrs, |src.file|, bias, i, j, PageOf(a));
      }
      CoveredIsTouched(phdrs[i], |src.file|, bias, a);
    }
    hide Covers;
    SkipAlike(phdrs, bias, {}, left, |phdrs|, a);
  }
}
