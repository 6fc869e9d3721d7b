/** A program that load_image accepts although the end it reports lies in the kernel's part. */
module ElfEmptySegment {
  import opened ElfFormat
  import opened ElfMemory
  import opened ElfSegments
  import opened ElfLoading
  import opened ElfImage
  import opened ElfGuarantees
  import opened ElfBytes

  /** One page of code, the headers themselves */
  const CODE: Phdr := Phdr(1, 5, 0, 0x40_0000, 176, 0x1000)

  /** An empty segment at the top of the kernel's part */
  const EMPTY: Phdr := Phdr(1, 4, 0, 0xFFFF_FFFF_FFFF_F000, 0, 0)

  function WithEmptySegment(): (file: seq<Byte>)
    ensures |file| == 176
  {
    EhdrBytes(2, 62, 0x40_0000, EHDR_SIZE, PHDR_SIZE, 2) + (PhdrBytes(CODE) + PhdrBytes(EMPTY))
  }

  lemma HeadersOfExample()
    ensures EhdrOf(WithEmptySegment()) == Ehdr(Ident(), 2, 62, 0x40_0000, EHDR_SIZE, PHDR_SIZE, 2)
    ensures HeaderOk(WithEmptySegment()) && PhdrsOf(WithEmptySegment()) == [CODE, EMPTY]
  {
    hide PhdrBytes, EhdrBytes, PhdrAt, EhdrOf;
    var e := EhdrBytes(2, 62, 0x40_0000, EHDR_SIZE, PHDR_SIZE, 2);
    var file := WithEmptySegment();
    assert Pow256(2) == 0x1_0000 && Pow256(4) == 0x1_0000_0000;
    EhdrRoundTrip(2, 62, 0x40_0000, EHDR_SIZE, PHDR_SIZE, 2, PhdrBytes(CODE) + PhdrBytes(EMPTY));
    IdentStarts();
    assert file == e + PhdrBytes(CODE) + PhdrBytes(EMPTY);
    PhdrRoundTrip(e, CODE, PhdrBytes(EMPTY));
    assert file == (e + PhdrBytes(CODE)) + PhdrBytes(EMPTY) + [];
    PhdrRoundTrip(e + PhdrBytes(CODE), EMPTY, []);
  }

  /** It is accepted, whatever else is loaded and whether or not it is read lazily, and
      the end of its image is past the user's part */
  lemma EndCanBeOutside(node: bool, inMemory: bool, requested: U64, random: nat, m: Memory)
    ensures var src := Source(WithEmptySegment(), node, inMemory);
            && Accepts(src, requested, random, m)
            && Result(src, requested, random, m).end > USER_SPACE_END
  {
    hide WithEmptySegment, EhdrOf, PhdrsOf, LoadFirst, HeaderOk;
    HeadersOfExample();
    var src := Source(WithEmptySegment(), node, inMemory);
    var phdrs := [CODE, EMPTY];
    assert SegmentValid(CODE, 176, 0) && SegmentValid(EMPTY, 176, 0);
    assert AllValid(phdrs, 2, 176, 0);
    assert EntryIn(phdrs[0], 0x40_0000);
    assert phdrs[1].memsz == 0 && Address(phdrs[1], 0) > USER_SPACE_END;
    EndInUserSpace(src, phdrs, 0, m);
  }
}
