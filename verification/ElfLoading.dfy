/** The loop over the program headers: every segment loaded, or left to be read from
    the file a page at a time.
 */
module ElfLoading {
  import opened ElfFormat
  import opened ElfMemory
  import opened ElfSegments

  /** elf_lazy_t and elf_segment_t, the PROT_* bits as booleans; both are readable */
  datatype Lazy = Lazy(start: U64, end: U64, fileOffset: U64, executable: bool)
  datatype Reported = Reported(start: U64, end: U64, writable: bool, executable: bool)

  /** What loading has come to; `left` are the headers of the segments not loaded */
  datatype Image = Image(mem: Memory, left: set<nat>, lazy: seq<Lazy>, segments: seq<Reported>, end: U64, any: bool)

  function AlignDown(a: U64): U64 {
    a / PAGE_SIZE * PAGE_SIZE
  }

  function AlignUp(a: U64): U64 {
    (a + PAGE_SIZE - 1) % TWO64 / PAGE_SIZE * PAGE_SIZE
  }

  /** segment_pages */
  function PagesStart(ph: Phdr, bias: U64): U64 {
    AlignDown(Address(ph, bias))
  }

  function PagesEnd(ph: Phdr, bias: U64): U64 {
    AlignUp((Address(ph, bias) + ph.memsz) % TWO64)
  }

  /** For a segment that passed the checks nothing wraps: these are the pages that
      loading it maps */
  lemma SegmentPages(ph: Phdr, size: nat, bias: U64)
    requires ph.memsz > 0 && SegmentValid(ph, size, bias)
    ensures PagesStart(ph, bias) == PageOf(ph.vaddr + bias) * PAGE_SIZE
    ensures PagesEnd(ph, bias) == PageUp(ph.vaddr + bias + ph.memsz) * PAGE_SIZE
    ensures PagesStart(ph, bias) <= ph.vaddr + bias
    ensures ph.vaddr + bias + ph.memsz <= PagesEnd(ph, bias) <= USER_SPACE_END
  {
    SegmentChecks(ph, size, bias);
    var end := ph.vaddr + bias + ph.memsz;
    assert AlignUp(end) == (end + PAGE_SIZE - 1) / PAGE_SIZE * PAGE_SIZE;
    assert USER_SPACE_END == PAGE_SIZE * 0x8_0000_0000;
  }

  predicate SharesPages(ph: Phdr, other: Phdr, bias: U64) {
    PagesStart(ph, bias) < PagesEnd(other, bias) && PagesStart(other, bias) < PagesEnd(ph, bias)
  }

  /** What the loop of segment_lazy looks at before the others */
  predicate WholePages(ph: Phdr, bias: U64) {
    && ph.memsz != 0 && !ph.Writable() && ph.filesz == ph.memsz
    && ph.offset % PAGE_SIZE == Address(ph, bias) % PAGE_SIZE
  }

  predicate SharesNone(phdrs: seq<Phdr>, which: nat, bias: U64)
    requires which < |phdrs|
  {
    forall i | 0 <= i < |phdrs| && i != which && phdrs[i].Loadable() :: !SharesPages(phdrs[which], phdrs[i], bias)
  }

  predicate MayBeLeft(phdrs: seq<Phdr>, which: nat, bias: U64)
    requires which < |phdrs|
  {
    WholePages(phdrs[which], bias) && SharesNone(phdrs, which, bias)
  }

  /** segment_lazy */
  method SegmentLazy(phdrs: seq<Phdr>, which: nat, bias: U64) returns (lazy: bool)
    requires which < |phdrs|
    ensures lazy == MayBeLeft(phdrs, which, bias)
  {
    hide SharesPages, WholePages;
    if !WholePages(phdrs[which], bias) {
      return false;
    }
    for i := 0 to |phdrs|
      invariant forall k | 0 <= k < i && k != which && phdrs[k].Loadable() :: !SharesPages(phdrs[which], phdrs[k], bias)
    {
      if i == which || phdrs[i].kind != PT_LOAD || phdrs[i].memsz == 0 {
        continue;
      }
      if SharesPages(phdrs[which], phdrs[i], bias) {
        return false;
      }
    }
    lazy := true;
  }

  // ----- The loop -----

  function LazyOf(ph: Phdr, bias: U64): Lazy {
    Lazy(PagesStart(ph, bias), PagesEnd(ph, bias), AlignDown(ph.offset), ph.Executable())
  }

  function ReportOf(ph: Phdr, bias: U64): Reported {
    Reported(PagesStart(ph, bias), PagesEnd(ph, bias), ph.Writable(), ph.Executable())
  }

  function EndOf(ph: Phdr, bias: U64): U64 {
    (ph.vaddr + bias + ph.memsz) % TWO64
  }

  predicate AllValid(phdrs: seq<Phdr>, n: nat, size: nat, bias: U64)
    requires n <= |phdrs|
  {
    forall i | 0 <= i < n && phdrs[i].kind == PT_LOAD :: SegmentValid(phdrs[i], size, bias)
  }

  predicate Leave(src: Source, phdrs: seq<Phdr>, bias: U64, lazies: nat, i: nat)
    requires i < |phdrs|
  {
    src.node && lazies < ELF_LAZY_SEGMENTS && MayBeLeft(phdrs, i, bias)
  }

  function Add(src: Source, phdrs: seq<Phdr>, bias: U64, img: Image, i: nat): Image
    requires i < |phdrs| && (phdrs[i].kind == PT_LOAD ==> SegmentValid(phdrs[i], |src.file|, bias))
  {
    var ph := phdrs[i];
    if ph.kind != PT_LOAD then img
    else
      var loaded :=
        if Leave(src, phdrs, bias, |img.lazy|, i)
        then img.(left := img.left + {i}, lazy := img.lazy + [LazyOf(ph, bias)])
        else img.(mem := LoadOne(img.mem, src.file, ph, bias));
      loaded.(any := true,
              end := if EndOf(ph, bias) > img.end then EndOf(ph, bias) else img.end,
              segments := if |img.segments| < ELF_REPORTED_SEGMENTS && ph.memsz > 0
                          then img.segments + [ReportOf(ph, bias)] else img.segments)
  }

  /** The first `n` headers dealt with */
  function LoadFirst(src: Source, phdrs: seq<Phdr>, bias: U64, m: Memory, n: nat): Image
    requires n <= |phdrs| && AllValid(phdrs, n, |src.file|, bias)
  {
    if n == 0 then Image(m, {}, [], [], 0, false)
    else Add(src, phdrs, bias, LoadFirst(src, phdrs, bias, m, n - 1), n - 1)
  }

  /** The first loop of load_image */
  method LoadSegments(space: Space, src: Source, phdrs: seq<Phdr>, bias: U64)
    returns (ok: bool, lazy: seq<Lazy>, segments: seq<Reported>, end: U64, any: bool)
    requires src.Valid() && !space.trouble
    modifies space
    ensures space.trouble ==> !ok
    ensures !space.trouble ==> (ok <==> AllValid(phdrs, |phdrs|, |src.file|, bias))
    ensures ok ==>
      var img := LoadFirst(src, phdrs, bias, old(space.mem), |phdrs|);
      space.mem == img.mem && lazy == img.lazy && segments == img.segments && end == img.end && any == img.any
  {
    hide SegmentValid, LoadOne, MayBeLeft, EndOf, LazyOf, ReportOf;
    ok, lazy, segments, end, any := true, [], [], 0, false;
    for i := 0 to |phdrs|
      invariant ok && !space.trouble && AllValid(phdrs, i, |src.file|, bias)
      invariant var img := LoadFirst(src, phdrs, bias, old(space.mem), i);
        space.mem == img.mem && lazy == img.lazy && segments == img.segments && end == img.end && any == img.any
    {
      if phdrs[i].kind != PT_LOAD {
        continue;
      }
      if !SegmentValid(phdrs[i], |src.file|, bias) {
        ok := false;
        return;
      }
      var leave := false;
      if src.node && |lazy| < ELF_LAZY_SEGMENTS {
        leave := SegmentLazy(phdrs, i, bias);
      }
      if leave {
        lazy := lazy + [LazyOf(phdrs[i], bias)];
      } else {
        ok := LoadSegment(space, src, phdrs[i], bias);
        if !ok {
          return;
        }
      }
      any := true;
      var segmentEnd := EndOf(phdrs[i], bias);
      if segmentEnd > end {
        end := segmentEnd;
      }
      if |segments| < ELF_REPORTED_SEGMENTS && phdrs[i].memsz > 0 {
        segments := segments + [ReportOf(phdrs[i], bias)];
      }
    }
  }
}
