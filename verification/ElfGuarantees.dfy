/** What holds of every program that load_image accepts. */
module ElfGuarantees {
  import opened Common
  import opened ElfFormat
  import opened ElfMemory
  import opened ElfSegments
  import opened ElfLoading
  import opened ElfTheorems
  import opened ElfLazy
  import opened ElfRelocations
  import opened ElfImage

  // ----- The header -----

  /** The headers that are accepted: of a little-endian 64-bit x86 program, fixed or not, with
      1 to 64 program headers of 56 bytes inside the file */
  lemma HeaderIs(file: seq<Byte>)
    ensures HeaderOk(file) <==>
            && |file| >= 64 && file[..6] == [0x7F, 'E' as int, 'L' as int, 'F' as int, 2, 1]
            && Field(file, 16, 2) in {2, 3} && Field(file, 18, 2) == 62
            && Field(file, 54, 2) == 56 && 1 <= Field(file, 56, 2) <= 64
            && Quad(file, 32) + Field(file, 56, 2) * 56 <= |file|
  {
    hide Field, Quad;
    if |file| >= 64 {
      assert file[..16][..6] == file[..6];
    }
  }

  // ----- Relocated places -----

  predicate PatchesByte(e: Rela, bias: nat, a: nat) {
    e.Kind() == R_X86_64_RELATIVE && bias + e.offset <= a < bias + e.offset + 8
  }

  /** The last entry of the table whose eight bytes have the address */
  function LastPatch(es: seq<Rela>, bias: nat, a: nat): (r: Option<nat>)
    ensures r.Some? ==> r.value < |es| && PatchesByte(es[r.value], bias, a)
    ensures forall i | 0 <= i < |es| && (r.Some? ==> r.value < i) :: !PatchesByte(es[i], bias, a)
  {
    if es == [] then None
    else if PatchesByte(es[|es| - 1], bias, a) then Some(|es| - 1)
    else LastPatch(es[..|es| - 1], bias, a)
  }

  /** After relocation an address holds its byte of the bias plus the addend of the
      last entry for it, or what was loaded */
  lemma {:induction false} PatchedBytes(m: Memory, es: seq<Rela>, bias: U64, a: nat)
    requires PageOf(a) in m.pages
    ensures Patched(m, es, bias).ByteAt(a) ==
            match LastPatch(es, bias, a)
            case Some(i) => Some(BytesOf(ValueOf(es[i], bias), 8)[a - bias - es[i].offset])
            case None => m.ByteAt(a)
  {
    hide Write, PageOf, Memory.ByteAt, BytesOf, ValueOf, PatchesByte, Rela.Kind;
    if es != [] {
      var rest, e := es[..|es| - 1], es[|es| - 1];
      PatchedBytes(m, rest, bias, a);
      PatchedPages(m, rest, bias);
      PatchedOne(Patched(m, rest, bias), e, bias, a);
    }
  }

  lemma PatchedOne(m: Memory, e: Rela, bias: U64, a: nat)
    requires PageOf(a) in m.pages
    ensures var m' :=
            if e.Kind() == R_X86_64_RELATIVE then Write(m, bias + e.offset, BytesOf(ValueOf(e, bias), 8)) else m;
            if PatchesByte(e, bias, a)
            then a >= bias + e.offset && a - bias - e.offset < 8
                 && m'.ByteAt(a) == Some(BytesOf(ValueOf(e, bias), 8)[a - bias - e.offset])
            else m'.ByteAt(a) == m.ByteAt(a)
  {
    hide Write, PageOf, Memory.ByteAt, BytesOf, ValueOf, Rela.Kind;
    WriteAt(m, bias + e.offset, BytesOf(ValueOf(e, bias), 8), a);
  }

  function BytesFrom(m: Memory, a: nat, n: nat): Option<seq<Byte>>
    decreases n
  {
    if n == 0 then Some([])
    else
      match m.ByteAt(a)
      case None => None
      case Some(b) =>
        match BytesFrom(m, a + 1, n - 1)
        case None => None
        case Some(rest) => Some([b] + rest)
  }

  lemma {:induction false} BytesFromAre(m: Memory, a: nat, s: seq<Byte>)
    requires forall k | 0 <= k < |s| :: m.ByteAt(a + k) == Some(s[k])
    ensures BytesFrom(m, a, |s|) == Some(s)
    decreases |s|
  {
    if s != [] {
      assert m.ByteAt(a + 0) == Some(s[0]);
      forall k | 0 <= k < |s[1..]|
        ensures m.ByteAt(a + 1 + k) == Some(s[1..][k])
      {
        assert m.ByteAt(a + (k + 1)) == Some(s[k + 1]);
      }
      BytesFromAre(m, a + 1, s[1..]);
      assert [s[0]] + s[1..] == s;
    }
  }

  /** The eight bytes at an address, as a number */
  function QuadAt(m: Memory, a: nat): Option<nat> {
    match BytesFrom(m, a, 8)
    case None => None
    case Some(s) => Some(Number(s))
  }

  /** A place that no later entry overlaps holds bias plus addend, in 64 bits */
  lemma PlaceHolds(m: Memory, es: seq<Rela>, phdrs: seq<Phdr>, bias: U64, k: nat)
    requires k < |es| && es[k].Kind() == R_X86_64_RELATIVE && Good(m, es[k], phdrs, bias)
    requires forall i | k < i < |es| && es[i].Kind() == R_X86_64_RELATIVE ::
               es[i].offset + 8 <= es[k].offset || es[k].offset + 8 <= es[i].offset
    ensures QuadAt(Patched(m, es, bias), bias + es[k].offset) == Some((bias + es[k].addend) % TWO64)
  {
    hide Patched, BytesOf, Number, Memory.ByteAt;
    var place, value := bias + es[k].offset, BytesOf(ValueOf(es[k], bias), 8);
    forall j | 0 <= j < 8
      ensures Patched(m, es, bias).ByteAt(place + j) == Some(value[j])
    {
      OnlyThisPatch(es, bias, k, place + j);
      PatchedBytes(m, es, bias, place + j);
    }
    BytesFromAre(Patched(m, es, bias), place, value);
    Pow256Of8();
    BytesRoundTrip(ValueOf(es[k], bias), 8);
  }

  lemma OnlyThisPatch(es: seq<Rela>, bias: nat, k: nat, a: nat)
    requires k < |es| && PatchesByte(es[k], bias, a)
    requires forall i | k < i < |es| && es[i].Kind() == R_X86_64_RELATIVE ::
               es[i].offset + 8 <= es[k].offset || es[k].offset + 8 <= es[i].offset
    ensures LastPatch(es, bias, a) == Some(k)
  {
    hide LastPatch, Rela.Kind;
    var r := LastPatch(es, bias, a);
    assert r.Some? && r.value >= k;
  }

  // ----- The user's part of the address space -----

  /** Nothing is mapped, and nothing left to be mapped, outside the user's part, and
      never page 0 */
  lemma StaysInUserSpace(src: Source, requested: U64, random: nat, page: nat)
    requires Accepts(src, requested, random, Memory(map[], map[]))
    ensures page in Result(src, requested, random, Memory(map[], map[])).mem.pages ==>
            ELF_MIN_VADDR <= page * PAGE_SIZE && (page + 1) * PAGE_SIZE <= USER_SPACE_END
    ensures forall l | l in Result(src, requested, random, Memory(map[], map[])).lazy ::
              ELF_MIN_VADDR <= l.start < l.end <= USER_SPACE_END
  {
    hide Field, Quad, RelocationsOk, AllGood, SegmentValid, EntryOk, Touches, LoadFirst, TableEntries, LazyOf;
    var m := Memory(map[], map[]);
    var phdrs, bias := PhdrsOf(src.file), BiasOf(EhdrOf(src.file), requested, random);
    var img := Loaded(src, requested, random, m);
    PatchedPages(img.mem, TableEntries(src.file, phdrs), bias);
    LoadedPages(src, phdrs, bias, m, |phdrs|, page);
    if page in img.mem.pages {
      var i :| 0 <= i < |phdrs| && i !in img.left && Touches(phdrs[i], bias, page);
      TouchedInUserSpace(phdrs[i], |src.file|, bias, page);
    }
    ListedAreLeft(src, phdrs, bias, m, |phdrs|);
    LeftIsBelow(src, phdrs, bias, m, |phdrs|);
    forall l | l in img.lazy
      ensures ELF_MIN_VADDR <= l.start < l.end <= USER_SPACE_END
    {
      var i :| i in img.left && 0 <= i < |phdrs| && l == LazyOf(phdrs[i], bias);
      RegionInUserSpace(phdrs[i], |src.file|, bias);
    }
  }

  lemma TouchedInUserSpace(ph: Phdr, size: nat, bias: U64, page: nat)
    requires (ph.kind == PT_LOAD ==> SegmentValid(ph, size, bias)) && Touches(ph, bias, page)
    ensures ELF_MIN_VADDR <= page * PAGE_SIZE && (page + 1) * PAGE_SIZE <= USER_SPACE_END
  {
    SegmentChecks(ph, size, bias);
  }

  lemma RegionInUserSpace(ph: Phdr, size: nat, bias: U64)
    requires SegmentValid(ph, size, bias) && ph.Loadable()
    ensures var l := LazyOf(ph, bias); ELF_MIN_VADDR <= l.start < l.end <= USER_SPACE_END
  {
    SegmentChecks(ph, size, bias);
    SegmentPages(ph, size, bias);
  }

  /** The program starts on a byte of an executable segment, on a page that may be
      executed, loaded or left to be read from the file */
  lemma EntryIsExecutable(src: Source, requested: U64, random: nat)
    requires Accepts(src, requested, random, Memory(map[], map[]))
    ensures var img := Result(src, requested, random, Memory(map[], map[]));
            var entry := EhdrOf(src.file).entry + BiasOf(EhdrOf(src.file), requested, random);
            SeenPerm(img, entry).Some? && !SeenPerm(img, entry).value.noExecute
  {
    hide Field, Quad, RelocationsOk, AllGood, SegmentValid, LoadFirst, TableEntries, Touches, FindLazy;
    var m := Memory(map[], map[]);
    var h, phdrs := EhdrOf(src.file), PhdrsOf(src.file);
    var bias := BiasOf(h, requested, random);
    var img := Loaded(src, requested, random, m);
    PatchedPages(img.mem, TableEntries(src.file, phdrs), bias);
    var i :| 0 <= i < |phdrs| && EntryIn(phdrs[i], h.entry);
    var a := h.entry + bias;
    LazyShowsTheSame(src, phdrs, bias, i, a);
    HeldIsTouched(phdrs[i], bias, a);
    var all := src.(node := false);
    EagerLeavesNone(all, phdrs, bias, m, |phdrs|);
    LoadedPages(all, phdrs, bias, m, |phdrs|, PageOf(a));
    assert TouchedExecutable(phdrs, bias, {}, |phdrs|, PageOf(a));
  }

  // ----- Left or loaded, relocated too -----

  /** Whatever is mapped with segments left is mapped with all of them loaded */
  lemma LoadingMapsMore(src: Source, phdrs: seq<Phdr>, bias: U64, page: nat)
    requires AllValid(phdrs, |phdrs|, |src.file|, bias)
    requires page in LoadFirst(src, phdrs, bias, Memory(map[], map[]), |phdrs|).mem.pages
    ensures page in LoadFirst(src.(node := false), phdrs, bias, Memory(map[], map[]), |phdrs|).mem.pages
  {
    hide LoadFirst, SegmentValid, Touches;
    var m, all := Memory(map[], map[]), src.(node := false);
    LoadedPages(src, phdrs, bias, m, |phdrs|, page);
    EagerLeavesNone(all, phdrs, bias, m, |phdrs|);
    LoadedPages(all, phdrs, bias, m, |phdrs|, page);
  }

  lemma StillGood(src: Source, phdrs: seq<Phdr>, bias: U64, e: Rela)
    requires AllValid(phdrs, |phdrs|, |src.file|, bias)
    requires Good(LoadFirst(src, phdrs, bias, Memory(map[], map[]), |phdrs|).mem, e, phdrs, bias)
    ensures Good(LoadFirst(src.(node := false), phdrs, bias, Memory(map[], map[]), |phdrs|).mem, e, phdrs, bias)
  {
    hide LoadFirst, AllValid, InImage, PageOf, Rela.Kind;
    var lazy := LoadFirst(src, phdrs, bias, Memory(map[], map[]), |phdrs|).mem;
    var eager := LoadFirst(src.(node := false), phdrs, bias, Memory(map[], map[]), |phdrs|).mem;
    if e.Kind() != R_X86_64_NONE {
      forall a | bias + e.offset <= a < bias + e.offset + 8
        ensures PageOf(a) in eager.pages
      {
        LoadingMapsMore(src, phdrs, bias, PageOf(a));
      }
    }
  }

  /** A file accepted with segments left is accepted with everything loaded */
  lemma AcceptedEitherWay(src: Source, requested: U64, random: nat)
    requires Accepts(src, requested, random, Memory(map[], map[]))
    ensures Accepts(src.(node := false), requested, random, Memory(map[], map[]))
  {
    hide Field, Quad, TableOf, TableEntries, LoadFirst, AllValid, EntryOk, Good;
    var phdrs, bias := PhdrsOf(src.file), BiasOf(EhdrOf(src.file), requested, random);
    var es := TableEntries(src.file, phdrs);
    if EhdrOf(src.file).kind == ET_DYN {
      forall i | 0 <= i < |es|
        ensures Good(Loaded(src.(node := false), requested, random, Memory(map[], map[])).mem, es[i], phdrs, bias)
      {
        StillGood(src, phdrs, bias, es[i]);
      }
    }
  }

  /** Then, relocated, it finds at every address of every segment the byte that it
      would find with everything loaded: no entry aims at what was left */
  lemma LazyProgramIsTheSame(src: Source, requested: U64, random: nat, j: nat, a: nat)
    requires Accepts(src, requested, random, Memory(map[], map[]))
    requires j < |PhdrsOf(src.file)| && Holds(PhdrsOf(src.file)[j], BiasOf(EhdrOf(src.file), requested, random), a)
    ensures Seen(Result(src, requested, random, Memory(map[], map[])), src.file, a)
            == Result(src.(node := false), requested, random, Memory(map[], map[])).mem.ByteAt(a)
  {
    hide Field, Quad, TableOf, TableEntries, LoadFirst, AllValid, EntryOk, Good, Holds, Patched, FindLazy;
    var m, all := Memory(map[], map[]), src.(node := false);
    var h, phdrs := EhdrOf(src.file), PhdrsOf(src.file);
    var bias, es := BiasOf(h, requested, random), TableEntries(src.file, phdrs);
    var lazy, eager := Loaded(src, requested, random, m), Loaded(all, requested, random, m).mem;
    LazyShowsTheSame(src, phdrs, bias, j, a);
    if h.kind == ET_DYN {
      PatchedPages(lazy.mem, es, bias);
      PatchedPages(eager, es, bias);
      PatchedBytes(eager, es, bias, a);
      if PageOf(a) in lazy.mem.pages {
        PatchedBytes(lazy.mem, es, bias, a);
      } else {
        NothingAimsThere(lazy.mem, es, phdrs, bias, a);
      }
    }
  }

  lemma NothingAimsThere(m: Memory, es: seq<Rela>, phdrs: seq<Phdr>, bias: U64, a: nat)
    requires AllGood(m, es, phdrs, bias) && PageOf(a) !in m.pages
    ensures LastPatch(es, bias, a).None?
  {
    hide PageOf, InImage, Rela.Kind;
    if LastPatch(es, bias, a).Some? {
      assert false;
    }
  }

  // ----- The end of the image -----

  /** The end reported is that of the segment that ends last, in 64-bit arithmetic */
  lemma {:induction false} EndIsLast(src: Source, phdrs: seq<Phdr>, bias: U64, m: Memory, n: nat)
    requires n <= |phdrs| && AllValid(phdrs, n, |src.file|, bias)
    ensures var end := LoadFirst(src, phdrs, bias, m, n).end;
            && (forall i | 0 <= i < n && phdrs[i].kind == PT_LOAD :: EndOf(phdrs[i], bias) <= end)
            && (end == 0 || exists i :: 0 <= i < n && phdrs[i].kind == PT_LOAD && EndOf(phdrs[i], bias) == end)
  {
    hide LoadOne, MayBeLeft, SegmentValid, EndOf, LazyOf, ReportOf;
    if n > 0 {
      EndIsLast(src, phdrs, bias, m, n - 1);
      var end, end' := LoadFirst(src, phdrs, bias, m, n - 1).end, LoadFirst(src, phdrs, bias, m, n).end;
      if end' == end && end != 0 {
        var i :| 0 <= i < n - 1 && phdrs[i].kind == PT_LOAD && EndOf(phdrs[i], bias) == end;
        assert 0 <= i < n && phdrs[i].kind == PT_LOAD && EndOf(phdrs[i], bias) == end';
      }
    }
  }

  /** An empty segment is not checked, and yet counts for the end of the image: that
      end is in the user's part exactly when no empty segment lies above it */
  lemma EndInUserSpace(src: Source, phdrs: seq<Phdr>, bias: U64, m: Memory)
    requires AllValid(phdrs, |phdrs|, |src.file|, bias)
    ensures LoadFirst(src, phdrs, bias, m, |phdrs|).end <= USER_SPACE_END <==>
            forall i | 0 <= i < |phdrs| && phdrs[i].kind == PT_LOAD && phdrs[i].memsz == 0 ::
              Address(phdrs[i], bias) <= USER_SPACE_END
  {
    hide LoadFirst, SegmentValid, EndOf, Address;
    EndIsLast(src, phdrs, bias, m, |phdrs|);
    forall i | 0 <= i < |phdrs| && phdrs[i].kind == PT_LOAD
      ensures EndOf(phdrs[i], bias) <= USER_SPACE_END
              || (phdrs[i].memsz == 0 && EndOf(phdrs[i], bias) == Address(phdrs[i], bias))
      ensures phdrs[i].memsz == 0 ==> EndOf(phdrs[i], bias) == Address(phdrs[i], bias)
    {
      EndOfSegment(phdrs[i], |src.file|, bias);
    }
  }

  lemma EndOfSegment(ph: Phdr, size: nat, bias: U64)
    requires SegmentValid(ph, size, bias)
    ensures if ph.memsz == 0 then EndOf(ph, bias) == Address(ph, bias) else EndOf(ph, bias) <= USER_SPACE_END
  {
    if ph.memsz > 0 {
      SegmentChecks(ph, size, bias);
    }
  }

  // ----- The segments reported -----

  /** Which of the first `n` headers have memory to load, in order */
  function Loadables(phdrs: seq<Phdr>, n: nat): seq<nat>
    requires n <= |phdrs|
  {
    if n == 0 then []
    else if phdrs[n - 1].Loadable() then Loadables(phdrs, n - 1) + [n - 1] else Loadables(phdrs, n - 1)
  }

  lemma {:induction false} LoadablesAre(phdrs: seq<Phdr>, n: nat)
    requires n <= |phdrs|
    ensures var r := Loadables(phdrs, n);
            && (forall j | 0 <= j < |r| :: r[j] < n && phdrs[r[j]].Loadable())
            && (forall j, k | 0 <= j < k < |r| :: r[j] < r[k])
            && forall i | 0 <= i < n && phdrs[i].Loadable() :: i in r
  {
    if n > 0 {
      LoadablesAre(phdrs, n - 1);
      var rest := Loadables(phdrs, n - 1);
      assert forall i | i in rest :: i in rest + [n - 1];
      assert n - 1 in rest + [n - 1];
    }
  }

  /** What is said of a segment: its pages, and whether they are for writing and executing */
  predicate Describes(r: Reported, ph: Phdr, bias: U64) {
    && r.start == (ph.vaddr + bias) / 4096 * 4096
    && r.end == (ph.vaddr + bias + ph.memsz + 4095) / 4096 * 4096
    && r.executable == (ph.flags % 2 == 1) && r.writable == (ph.flags / 2 % 2 == 1)
  }

  /** The first four of some segments, described */
  predicate Reports(rs: seq<Reported>, ls: seq<nat>, phdrs: seq<Phdr>, bias: U64) {
    && |rs| == (if |ls| < 4 then |ls| else 4) && (forall j | 0 <= j < |ls| :: ls[j] < |phdrs|)
    && forall j | 0 <= j < |rs| :: Describes(rs[j], phdrs[ls[j]], bias)
  }

  lemma NothingReported(phdrs: seq<Phdr>, bias: U64)
    ensures Reports([], [], phdrs, bias)
  {
  }

  lemma ReportsMore(rs: seq<Reported>, ls: seq<nat>, phdrs: seq<Phdr>, bias: U64, r: Reported, i: nat)
    requires Reports(rs, ls, phdrs, bias) && i < |phdrs| && Describes(r, phdrs[i], bias)
    ensures Reports(if |rs| < 4 then rs + [r] else rs, ls + [i], phdrs, bias)
  {
    hide Describes;
  }

  /** The first four segments with memory are reported, and no others */
  lemma {:induction false} FirstFourReported(src: Source, phdrs: seq<Phdr>, bias: U64, m: Memory, n: nat)
    requires n <= |phdrs| && AllValid(phdrs, n, |src.file|, bias)
    ensures Reports(LoadFirst(src, phdrs, bias, m, n).segments, Loadables(phdrs, n), phdrs, bias)
  {
    hide SegmentValid, LoadFirst, Loadables, Reports, Describes, AllValid, Phdr.Loadable;
    ReportedMore(src, phdrs, bias, m, n);
    if n == 0 {
      NothingReported(phdrs, bias);
    } else {
      AllButLast(src, phdrs, bias, n);
      FirstFourReported(src, phdrs, bias, m, n - 1);
      if phdrs[n - 1].Loadable() {
        ReportsMore(LoadFirst(src, phdrs, bias, m, n - 1).segments, Loadables(phdrs, n - 1), phdrs, bias,
                    ReportOf(phdrs[n - 1], bias), n - 1);
      }
    }
  }

  /** The header that comes next */
  lemma AllButLast(src: Source, phdrs: seq<Phdr>, bias: U64, n: nat)
    requires 0 < n <= |phdrs| && AllValid(phdrs, n, |src.file|, bias)
    ensures AllValid(phdrs, n - 1, |src.file|, bias)
    ensures phdrs[n - 1].Loadable() ==> Describes(ReportOf(phdrs[n - 1], bias), phdrs[n - 1], bias)
  {
    hide SegmentValid, Describes;
    if phdrs[n - 1].Loadable() {
      ReportDescribes(phdrs[n - 1], |src.file|, bias);
    }
  }

  lemma ReportedMore(src: Source, phdrs: seq<Phdr>, bias: U64, m: Memory, n: nat)
    requires n <= |phdrs| && AllValid(phdrs, n, |src.file|, bias)
    ensures n == 0 ==> LoadFirst(src, phdrs, bias, m, n).segments == [] && Loadables(phdrs, n) == []
    ensures n > 0 ==>
              var rs := LoadFirst(src, phdrs, bias, m, n - 1).segments;
              && LoadFirst(src, phdrs, bias, m, n).segments
                 == (if phdrs[n - 1].Loadable() && |rs| < 4 then rs + [ReportOf(phdrs[n - 1], bias)] else rs)
              && Loadables(phdrs, n)
                 == (if phdrs[n - 1].Loadable() then Loadables(phdrs, n - 1) + [n - 1] else Loadables(phdrs, n - 1))
  {
    hide SegmentValid, LoadOne, MayBeLeft, ReportOf;
  }

  lemma ReportDescribes(ph: Phdr, size: nat, bias: U64)
    requires ph.memsz > 0 && SegmentValid(ph, size, bias)
    ensures Describes(ReportOf(ph, bias), ph, bias)
  {
    SegmentPages(ph, size, bias);
  }
}
