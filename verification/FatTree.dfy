/** A tree of files and directories put on a volume, children before their directory. */
module FatTree {
  import opened FatNames
  import opened FatEntries
  import opened FatDirectory
  import opened FatImage

  /** The source: names in the order they are stored */
  datatype Node = File(data: seq<Byte>) | Dir(children: Children)
  datatype Children = Nil | Cons(name: Name, node: Node, rest: Children)

  const TWO32: nat := 0x1_0000_0000

  // ----- Where everything goes -----

  /** The clusters that a node takes, stored from `start` on */
  function NodeSize(node: Node, start: nat): nat
    decreases node
  {
    match node
    case File(data) => Count(|data|)
    case Dir(children) =>
      ListSize(children, start) + DirectorySize(start + ListSize(children, start), EntriesOf(children, start))
  }

  function ListSize(children: Children, start: nat): nat
    decreases children
  {
    match children
    case Nil => 0
    case Cons(_, node, rest) => NodeSize(node, start) + ListSize(rest, start + NodeSize(node, start))
  }

  function DirectorySize(own: nat, es: seq<Entry>): nat {
    match DirectoryBytes(own, 0, false, es)
    case None => 0
    case Some(bytes) => Count(|bytes|)
  }

  function EntryOf(name: Name, node: Node, start: nat): Entry
    decreases node, 0
  {
    match node
    case File(data) => Entry(name, ATTR_ARCHIVE, if data == [] then 0 else start, |data|)
    case Dir(children) => Entry(name, ATTR_DIRECTORY, start + ListSize(children, start), 0)
  }

  function EntriesOf(children: Children, start: nat): seq<Entry>
    decreases children
  {
    match children
    case Nil => []
    case Cons(name, node, rest) => [EntryOf(name, node, start)] + EntriesOf(rest, start + NodeSize(node, start))
  }

  /** Every name can be written, and every file's size */
  predicate NodeWrites(node: Node, start: nat)
    decreases node
  {
    match node
    case File(data) => |data| < TWO32
    case Dir(children) => ListWrites(children, start) && EncodeAll(EntriesOf(children, start), {}).Some?
  }

  predicate ListWrites(children: Children, start: nat)
    decreases children
  {
    match children
    case Nil => true
    case Cons(_, node, rest) => NodeWrites(node, start) && ListWrites(rest, start + NodeSize(node, start))
  }

  /** Names are those of a directory's listing: not empty, and not . or .. */
  predicate NodeNamed(node: Node)
    decreases node
  {
    match node
    case File(_) => true
    case Dir(children) => ListNamed(children)
  }

  predicate ListNamed(children: Children)
    decreases children
  {
    match children
    case Nil => true
    case Cons(name, node, rest) =>
      name != [] && name != DotName && name != DotDotName && NodeNamed(node) && ListNamed(rest)
  }

  // ----- What is stored -----

  /** A node is on the disk from `start` on, its directories naming their parents */
  ghost predicate Stored(d: Disk, node: Node, start: nat, parent: nat)
    decreases node
  {
    match node
    case File(data) => ChainHolds(d, start, data)
    case Dir(children) =>
      var own := start + ListSize(children, start);
      && StoredAll(d, children, start, own)
      && DirectoryHeld(d, own, parent, EntriesOf(children, start))
  }

  ghost predicate StoredAll(d: Disk, children: Children, start: nat, parent: nat)
    decreases children
  {
    match children
    case Nil => true
    case Cons(_, node, rest) =>
      Stored(d, node, start, parent) && StoredAll(d, rest, start + NodeSize(node, start), parent)
  }

  ghost predicate DirectoryHeld(d: Disk, own: nat, parent: nat, es: seq<Entry>) {
    && DirectoryBytes(own, parent, false, es).Some?
    && ChainHolds(d, own, DirectoryBytes(own, parent, false, es).value)
  }

  lemma AgreePart(d: Disk, d': Disk, lo: nat, hi: nat, from: nat, to: nat)
    requires Agree(d, d', lo, hi) && lo <= from && to <= hi
    ensures Agree(d, d', from, to)
  {
  }

  lemma ParentSameLength(own: nat, parent: nat, es: seq<Entry>)
    requires DirectoryBytes(own, parent, false, es).Some?
    ensures DirectorySize(own, es) == Count(|DirectoryBytes(own, parent, false, es).value|)
  {
    hide EncodeAll, Count, ShortEntry;
    assert |Dots(own, parent)| == |Dots(own, 0)| == 64;
  }

  /** What is stored stays, whatever happens elsewhere */
  lemma {:induction false} StoredElsewhere(d: Disk, d': Disk, node: Node, start: nat, parent: nat)
    requires Stored(d, node, start, parent) && Agree(d, d', start, start + NodeSize(node, start))
    ensures Stored(d', node, start, parent)
    decreases node
  {
    hide ChainHolds, Agree, DirectorySize, DirectoryBytes;
    match node
    case File(data) => ChainElsewhere(d, d', start, data);
    case Dir(children) =>
      var own := start + ListSize(children, start);
      var es := EntriesOf(children, start);
      AgreePart(d, d', start, own + DirectorySize(own, es), start, own);
      AllElsewhere(d, d', children, start, own);
      AgreePart(d, d', start, own + DirectorySize(own, es), own, own + DirectorySize(own, es));
      ParentSameLength(own, parent, es);
      ChainElsewhere(d, d', own, DirectoryBytes(own, parent, false, es).value);
  }

  lemma {:induction false} AllElsewhere(d: Disk, d': Disk, children: Children, start: nat, parent: nat)
    requires StoredAll(d, children, start, parent) && Agree(d, d', start, start + ListSize(children, start))
    ensures StoredAll(d', children, start, parent)
    decreases children
  {
    hide Agree, Stored;
    match children
    case Nil =>
    case Cons(_, node, rest) =>
      var next := start + NodeSize(node, start);
      AgreePart(d, d', start, next + ListSize(rest, next), start, next);
      AgreePart(d, d', start, next + ListSize(rest, next), next, next + ListSize(rest, next));
      StoredElsewhere(d, d', node, start, parent);
      AllElsewhere(d, d', rest, next, parent);
  }

  // ----- The parent patched in -----

  function Patch(s: seq<Byte>, parent: nat): (r: seq<Byte>)
    requires |s| >= 64
    ensures |r| == |s|
  {
    var hi, lo := Two(parent / 65536), Two(parent % 65536);
    s[52 := hi[0]][53 := hi[1]][58 := lo[0]][59 := lo[1]]
  }

  lemma PatchParts(a: seq<Byte>, x: seq<Byte>, w: seq<Byte>, y: seq<Byte>, r: seq<Byte>, parent: nat)
    requires |a| == 52 && |x| == 2 && |w| == 4 && |y| == 2 && |r| >= 4
    ensures Patch(a + x + w + y + r, parent) == a + Two(parent / 65536) + w + Two(parent % 65536) + r
  {
    hide Two;
  }

  lemma DotsParts(own: nat, parent: nat, names: seq<Byte>)
    ensures Dots(own, parent) + names ==
            (ShortEntry(DotShort(DotName), ATTR_DIRECTORY, own, 0) + DotShort(DotDotName).raw
             + Front(ATTR_DIRECTORY, FlagsOf(DotShort(DotDotName))))
            + Two(parent / 65536) + WrittenAt() + Two(parent % 65536) + (Four(0) + names)
  {
    hide Two, Four, Front, WrittenAt, FlagsOf, DotShort;
    var dot, short := ShortEntry(DotShort(DotName), ATTR_DIRECTORY, own, 0), DotShort(DotDotName);
    EightParts(dot, short.raw, Front(ATTR_DIRECTORY, FlagsOf(short)), Two(parent / 65536), WrittenAt(),
               Two(parent % 65536), Four(0), names);
  }

  lemma EightParts(a: seq<Byte>, b: seq<Byte>, c: seq<Byte>, d: seq<Byte>, e: seq<Byte>, f: seq<Byte>, g: seq<Byte>,
                   h: seq<Byte>)
    ensures (a + (b + c + d + e + f + g)) + h == (a + b + c) + d + e + f + (g + h)
  {
  }

  /** Patched, a directory is what it would have been with its parent known */
  lemma PatchedDirectory(own: nat, parent: nat, es: seq<Entry>)
    requires DirectoryBytes(own, 0, false, es).Some?
    ensures var was, now := DirectoryBytes(own, 0, false, es), DirectoryBytes(own, parent, false, es);
            now.Some? && |was.value| >= 64 && now.value == Patch(was.value, parent)
  {
    hide EncodeAll, Patch, ShortEntry;
    var names := EncodeAll(es, {}).value;
    var a := ShortEntry(DotShort(DotName), ATTR_DIRECTORY, own, 0) + DotShort(DotDotName).raw
      + Front(ATTR_DIRECTORY, FlagsOf(DotShort(DotDotName)));
    DotsParts(own, 0, names);
    DotsParts(own, parent, names);
    PatchParts(a, Two(0), WrittenAt(), Two(0), Four(0) + names, parent);
  }

  lemma PatchedSectors(data: seq<Byte>, parent: nat, i: nat)
    requires |data| >= 64 && i < Count(|data|)
    ensures SectorOf(Patch(data, parent), i) == if i == 0 then Patch(SectorOf(data, 0), parent) else SectorOf(data, i)
  {
    hide Two;
  }
}
