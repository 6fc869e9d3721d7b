/** Position-independent programs byte by byte: a text segment with the headers, the dynamic
    section and a relocation table, and a data segment that the table's entries are for.
 */
module ElfRelative {
  import opened Common
  import opened ElfFormat
  import opened ElfMemory
  import opened ElfSegments
  import opened ElfLoading
  import opened ElfTheorems
  import opened ElfRelocations
  import opened ElfLazy
  import opened ElfImage
  import opened ElfGuarantees
  import opened ElfBytes

  const TABLE_AT: nat := 296
  const DATA_AT: nat := 0x200_0000

  function TextSize(es: seq<Rela>): nat {
    TABLE_AT + |es| * 24
  }

  /** Readable and executable, the whole file */
  function Text(es: seq<Rela>): Phdr
    requires |es| <= 1048576
  {
    Phdr(1, 5, 0, 0, TextSize(es), TextSize(es))
  }

  /** Readable and writable, zeros */
  function Data(size: nat): Phdr
    requires size <= 0x1000_0000
  {
    Phdr(1, 6, 0, DATA_AT, 0, size)
  }

  const DYNAMIC: Phdr := Phdr(2, 6, 232, 232, 64, 64)

  /** DT_RELA, DT_RELASZ, DT_RELAENT and DT_NULL */
  function Dynamics(es: seq<Rela>): seq<Dyn>
    requires |es| <= 1048576
  {
    [Dyn(7, TABLE_AT), Dyn(8, |es| * 24), Dyn(9, 24), Dyn(0, 0)]
  }

  function FileHeader(): (s: seq<Byte>)
    ensures |s| == 64
  {
    EhdrBytes(3, 62, 0, 64, 56, 3)
  }

  function Headers(es: seq<Rela>, size: nat): (s: seq<Byte>)
    requires |es| <= 1048576 && size <= 0x1000_0000
    ensures |s| == 232
  {
    FileHeader() + PhdrBytes(Text(es)) + PhdrBytes(DYNAMIC) + PhdrBytes(Data(size))
  }

  function DynamicBytes(es: seq<Rela>): (s: seq<Byte>)
    requires |es| <= 1048576
    ensures |s| == 64
  {
    var ds := Dynamics(es);
    DynBytes(ds[0]) + DynBytes(ds[1]) + DynBytes(ds[2]) + DynBytes(ds[3])
  }

  function Pie(es: seq<Rela>, size: nat): (file: seq<Byte>)
    requires |es| <= 1048576 && size <= 0x1000_0000
    ensures |file| == TextSize(es)
  {
    Headers(es, size) + DynamicBytes(es) + RelaTable(es)
  }

  // ----- What is read from it -----

  lemma HeaderOfPie(es: seq<Rela>, size: nat)
    requires |es| <= 1048576 && size <= 0x1000_0000
    ensures EhdrOf(Pie(es, size)) == Ehdr(Ident(), 3, 62, 0, 64, 56, 3)
  {
    hide PhdrBytes, EhdrBytes, EhdrOf, DynamicBytes, RelaTable;
    var rest := PhdrBytes(Text(es)) + PhdrBytes(DYNAMIC) + PhdrBytes(Data(size)) + DynamicBytes(es) + RelaTable(es);
    assert Pow256(2) == 0x1_0000;
    assert Pie(es, size) == FileHeader() + rest;
    EhdrRoundTrip(3, 62, 0, 64, 56, 3, rest);
  }

  lemma PhdrsOfPie(es: seq<Rela>, size: nat)
    requires |es| <= 1048576 && size <= 0x1000_0000
    ensures var file := Pie(es, size);
            PhdrAt(file, 64) == Text(es) && PhdrAt(file, 120) == DYNAMIC && PhdrAt(file, 176) == Data(size)
  {
    hide PhdrBytes, EhdrBytes, PhdrAt, DynamicBytes, RelaTable;
    var file, rest := Pie(es, size), DynamicBytes(es) + RelaTable(es);
    var text, dynamic, data := PhdrBytes(Text(es)), PhdrBytes(DYNAMIC), PhdrBytes(Data(size));
    assert Pow256(4) == 0x1_0000_0000;
    assert file == FileHeader() + text + (dynamic + data + rest);
    PhdrRoundTrip(FileHeader(), Text(es), dynamic + data + rest);
    assert file == (FileHeader() + text) + dynamic + (data + rest);
    PhdrRoundTrip(FileHeader() + text, DYNAMIC, data + rest);
    assert file == (FileHeader() + text + dynamic) + data + rest;
    PhdrRoundTrip(FileHeader() + text + dynamic, Data(size), rest);
  }

  lemma HeadersOfPie(es: seq<Rela>, size: nat)
    requires |es| <= 1048576 && size <= 0x1000_0000
    ensures HeaderOk(Pie(es, size)) && PhdrsOf(Pie(es, size)) == [Text(es), DYNAMIC, Data(size)]
    ensures EhdrOf(Pie(es, size)).kind == 3 && EhdrOf(Pie(es, size)).entry == 0
  {
    hide Pie, PhdrAt, EhdrOf;
    HeaderOfPie(es, size);
    PhdrsOfPie(es, size);
    IdentStarts();
  }

  lemma DynamicsOfPie(es: seq<Rela>, size: nat)
    requires |es| <= 1048576 && size <= 0x1000_0000
    ensures DynEntries(Pie(es, size), 232, 4) == Dynamics(es)
  {
    hide DynBytes, DynAt, Headers, RelaTable;
    var file, h, table := Pie(es, size), Headers(es, size), RelaTable(es);
    var ds := Dynamics(es);
    var b := [DynBytes(ds[0]), DynBytes(ds[1]), DynBytes(ds[2]), DynBytes(ds[3])];
    assert file == h + b[0] + (b[1] + b[2] + b[3] + table);
    DynRoundTrip(h, ds[0], b[1] + b[2] + b[3] + table);
    assert file == (h + b[0]) + b[1] + (b[2] + b[3] + table);
    DynRoundTrip(h + b[0], ds[1], b[2] + b[3] + table);
    assert file == (h + b[0] + b[1]) + b[2] + (b[3] + table);
    DynRoundTrip(h + b[0] + b[1], ds[2], b[3] + table);
    assert file == (h + b[0] + b[1] + b[2]) + b[3] + table;
    DynRoundTrip(h + b[0] + b[1] + b[2], ds[3], table);
  }

  lemma RelasOfPie(es: seq<Rela>, size: nat)
    requires |es| <= 1048576 && size <= 0x1000_0000
    ensures RelaEntries(Pie(es, size), TABLE_AT, |es|) == es
  {
    hide Headers, DynamicBytes, RelaTable, RelaAt;
    var before := Headers(es, size) + DynamicBytes(es);
    assert Pie(es, size) == before + RelaTable(es) + [];
    forall i | 0 <= i < |es|
      ensures RelaEntries(Pie(es, size), TABLE_AT, |es|)[i] == es[i]
    {
      TableRoundTrip(before, es, [], i);
    }
  }

  /** The loader finds the table, and in it the entries that were written */
  lemma TableOfPie(es: seq<Rela>, size: nat)
    requires |es| <= 1048576 && size <= 0x1000_0000
    ensures var file, phdrs := Pie(es, size), [Text(es), DYNAMIC, Data(size)];
            !TableOf(file, phdrs).Malformed? && TableEntries(file, phdrs) == es
  {
    hide Pie, DynEntries, RelaEntries;
    var file, phdrs := Pie(es, size), [Text(es), DYNAMIC, Data(size)];
    var ds := Dynamics(es);
    assert FirstDynamic(phdrs) == Some(1) by {
      var r := FirstDynamic(phdrs);
      assert phdrs[1].kind == PT_DYNAMIC;
    }
    DynamicsOfPie(es, size);
    BeforeNullIs(ds, 3);
    LastOfMore(ds, 0, DT_RELA);
    LastOfMore(ds, 1, DT_RELA);
    LastOfMore(ds, 2, DT_RELA);
    LastOfMore(ds, 1, DT_RELASZ);
    LastOfMore(ds, 2, DT_RELASZ);
    LastOfMore(ds, 2, DT_RELAENT);
    assert TableOf(file, phdrs) == TableAt(Some(TABLE_AT), |es| * 24, 24, phdrs, |file|);
    if es != [] {
      FirstIs(phdrs, TABLE_AT, |es| * 24, 0);
      assert TableOf(file, phdrs) == Entries(TABLE_AT, |es|);
      RelasOfPie(es, size);
    }
  }

  // ----- What is loaded -----

  /** Where the program is put: where it was asked to be, or at a page by chance */
  predicate PutAt(bias: U64, requested: U64, random: nat, size: nat) {
    && bias == (if requested != 0 then requested else 0x1_0000_0000 + random % 0x400_0000 * 4096)
    && 0x1000 <= bias && bias % 4096 == 0 && bias + DATA_AT + size <= 0x8000_0000_0000
  }

  /** An entry that asks for nothing, or one for a place in the data */
  predicate ForData(e: Rela, size: nat) {
    || e.info % 0x1_0000_0000 == 0
    || (e.info % 0x1_0000_0000 == 8 && DATA_AT <= e.offset && e.offset + 8 <= DATA_AT + size)
  }

  lemma SegmentsValid(es: seq<Rela>, size: nat, bias: U64)
    requires |es| <= 1048576 && size <= 0x1000_0000
    requires 0x1000 <= bias && bias + DATA_AT + size <= 0x8000_0000_0000
    ensures AllValid([Text(es), DYNAMIC, Data(size)], 3, TextSize(es), bias)
  {
    SegmentChecks(Text(es), TextSize(es), bias);
    if size > 0 {
      SegmentChecks(Data(size), TextSize(es), bias);
    }
  }

  /** The data is loaded, whether or not the text is left to be read from the file */
  lemma DataIsMapped(src: Source, es: seq<Rela>, size: nat, bias: U64, m: Memory, a: nat)
    requires |es| <= 1048576 && size <= 0x1000_0000 && |src.file| == TextSize(es)
    requires AllValid([Text(es), DYNAMIC, Data(size)], 3, |src.file|, bias) && Holds(Data(size), bias, a)
    ensures var img := LoadFirst(src, [Text(es), DYNAMIC, Data(size)], bias, m, 3);
            2 !in img.left && PageOf(a) in img.mem.pages && img.mem.pages[PageOf(a)].writable
  {
    hide LoadFirst, SegmentValid, Touches;
    var phdrs := [Text(es), DYNAMIC, Data(size)];
    LoadedPages(src, phdrs, bias, m, 3, PageOf(a));
    LeftIsBelow(src, phdrs, bias, m, 3);
    HeldIsTouched(phdrs[2], bias, a);
  }

  /** A program whose entries are all for its data is accepted, wherever it is put; and then
      each place that no later entry overlaps holds where the program is plus the addend */
  lemma RelocatedProgram(es: seq<Rela>, size: nat, node: bool, inMemory: bool, requested: U64, random: nat, bias: U64,
                         m: Memory, k: nat)
    requires |es| <= 1048576 && size <= 0x1000_0000 && PutAt(bias, requested, random, size)
    requires forall i | 0 <= i < |es| :: ForData(es[i], size)
    requires k < |es| && es[k].info % 0x1_0000_0000 == 8
    requires forall i | k < i < |es| && es[i].info % 0x1_0000_0000 == 8 ::
               es[i].offset + 8 <= es[k].offset || es[k].offset + 8 <= es[i].offset
    ensures var src := Source(Pie(es, size), node, inMemory);
            && Accepts(src, requested, random, m)
            && QuadAt(Result(src, requested, random, m).mem, bias + es[k].offset)
               == Some((bias + es[k].addend) % 0x1_0000_0000_0000_0000)
  {
    hide Pie, EhdrOf, PhdrsOf, LoadFirst, HeaderOk, TableOf, TableEntries, SegmentValid, Patched, QuadAt, Text;
    var src := Source(Pie(es, size), node, inMemory);
    var phdrs := [Text(es), DYNAMIC, Data(size)];
    HeadersOfPie(es, size);
    TableOfPie(es, size);
    SegmentsValid(es, size, bias);
    EntryIsInText(es);
    assert EntryIn(phdrs[0], 0);
    var loaded := LoadFirst(src, phdrs, bias, m, 3).mem;
    forall i | 0 <= i < |es|
      ensures Good(loaded, es[i], phdrs, bias)
    {
      PlaceIsGood(src, es, size, bias, m, i);
    }
    PlaceHolds(loaded, es, phdrs, bias, k);
  }

  lemma EntryIsInText(es: seq<Rela>)
    requires |es| <= 1048576
    ensures EntryIn(Text(es), 0)
  {
  }

  lemma PlaceIsGood(src: Source, es: seq<Rela>, size: nat, bias: U64, m: Memory, i: nat)
    requires |es| <= 1048576 && size <= 0x1000_0000 && |src.file| == TextSize(es)
    requires AllValid([Text(es), DYNAMIC, Data(size)], 3, |src.file|, bias) && i < |es| && ForData(es[i], size)
    ensures Good(LoadFirst(src, [Text(es), DYNAMIC, Data(size)], bias, m, 3).mem, es[i],
                 [Text(es), DYNAMIC, Data(size)], bias)
  {
    hide LoadFirst, SegmentValid, Text, PageOf;
    var phdrs := [Text(es), DYNAMIC, Data(size)];
    if es[i].Kind() == R_X86_64_RELATIVE {
      assert InMemoryOf(phdrs[2], es[i].offset, 8);
      forall a | bias + es[i].offset <= a < bias + es[i].offset + 8
        ensures PageOf(a) in LoadFirst(src, phdrs, bias, m, 3).mem.pages
      {
        DataIsMapped(src, es, size, bias, m, a);
      }
    }
  }

  /** An entry of any other kind, and the program is refused */
  lemma OtherKindIsRefused(es: seq<Rela>, size: nat, node: bool, inMemory: bool, requested: U64, random: nat,
                           m: Memory, k: nat)
    requires |es| <= 1048576 && size <= 0x1000_0000
    requires k < |es| && es[k].info % 0x1_0000_0000 != 0 && es[k].info % 0x1_0000_0000 != 8
    ensures !Accepts(Source(Pie(es, size), node, inMemory), requested, random, m)
  {
    hide Pie, EhdrOf, PhdrsOf, LoadFirst, HeaderOk, TableOf, TableEntries, SegmentValid, Text;
    HeadersOfPie(es, size);
    TableOfPie(es, size);
  }

  /** So it is with a table that is longer, or not of whole entries of 24 bytes */
  lemma OddTableIsRefused(where: U64, length: U64, entry: U64, phdrs: seq<Phdr>, size: nat)
    requires length > 0 && (entry != 24 || length % 24 != 0 || length > 24 * 1048576)
    ensures TableAt(Some(where), length, entry, phdrs, size).Malformed?
  {
  }

  // ----- What may be done with it -----

  /** With nothing else there, the data may be written and not executed; the text, when it is
      loaded, may be executed and not written */
  lemma TextAndData(es: seq<Rela>, size: nat, bias: U64, node: bool, a: nat)
    requires |es| <= 1048576 && size <= 0x1000_0000
    requires 0x1000 <= bias && bias % 4096 == 0 && bias + DATA_AT + size <= 0x8000_0000_0000
    ensures AllValid([Text(es), DYNAMIC, Data(size)], 3, TextSize(es), bias)
    ensures var src := Source(Pie(es, size), node, true);
            var pages := LoadFirst(src, [Text(es), DYNAMIC, Data(size)], bias, Memory(map[], map[]), 3).mem.pages;
            && (bias + DATA_AT <= a < bias + DATA_AT + size ==>
                  PageOf(a) in pages && pages[PageOf(a)] == Perm(true, true))
            && (!node && bias <= a < bias + TextSize(es) ==>
                  PageOf(a) in pages && pages[PageOf(a)] == Perm(false, false))
  {
    hide LoadFirst, SegmentValid, Touches, Pie;
    SegmentsValid(es, size, bias);
    var src, phdrs := Source(Pie(es, size), node, true), [Text(es), DYNAMIC, Data(size)];
    var m := Memory(map[], map[]);
    LoadedPages(src, phdrs, bias, m, 3, PageOf(a));
    if bias + DATA_AT <= a < bias + DATA_AT + size {
      DataIsMapped(src, es, size, bias, m, a);
      NoSharing(es, size, bias, PageOf(a));
      HeldIsTouched(phdrs[2], bias, a);
    } else if !node && bias <= a < bias + TextSize(es) {
      EagerLeavesNone(src, phdrs, bias, m, 3);
      NoSharing(es, size, bias, PageOf(a));
      HeldIsTouched(phdrs[0], bias, a);
    }
  }

  lemma NoSharing(es: seq<Rela>, size: nat, bias: U64, page: nat)
    requires |es| <= 1048576 && size <= 0x1000_0000 && bias % 4096 == 0
    ensures !(Touches(Text(es), bias, page) && Touches(Data(size), bias, page)) && !Touches(DYNAMIC, bias, page)
  {
  }
}
