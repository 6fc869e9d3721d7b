/** Reading an image as a FAT reader does, and that it gives back the tree. */
module FatReadBack {
  import opened Common
  import opened FatNames
  import opened FatEntries
  import opened FatDirectory
  import opened FatImage
  import opened FatTree
  import opened FatBuild
  import opened FatChains

  // ----- The reader -----

  /** A directory's entries without the two at its start, which must name it and its
      parent; the root has no parent and none of the two */
  function BelowDots(own: nat, parent: Option<nat>, fs: seq<Found>): Option<seq<Found>> {
    match parent
    case None => Some(fs)
    case Some(up) =>
      if |fs| >= 2 && fs[0] == Found(DotName, ATTR_DIRECTORY, own, 0)
        && fs[1] == Found(DotDotName, ATTR_DIRECTORY, up, 0)
      then Some(fs[2..]) else None
  }

  function NameOf(s: seq<nat>): Option<Name> {
    if s == [] then Some([])
    else if s[0] >= 256 then None
    else
      match NameOf(s[1..])
      case None => None
      case Some(rest) => Some([s[0]] + rest)
  }

  /** The directory whose chain starts at a cluster and whose parent is as given, no
      deeper than `depth`; no chain is followed for more than `steps`. It is refused
      unless its "." names it and its ".." its parent, the root being 0 there. */
  function ReadDirectory(d: Disk, cluster: nat, parent: Option<nat>, steps: nat, depth: nat): Option<Children>
    decreases depth, 1, 0
  {
    if depth == 0 then None
    else
      match ReadChain(d, cluster, steps)
      case None => None
      case Some(bytes) =>
        match BelowDots(cluster, parent, ReadEntries(bytes, Nothing))
        case None => None
        case Some(fs) => ReadList(d, fs, if parent.None? then 0 else cluster, steps, depth - 1)
  }

  function ReadFound(d: Disk, f: Found, parent: nat, steps: nat, depth: nat): Option<Node>
    decreases depth, 2, 0
  {
    if f.attr == ATTR_DIRECTORY then
      match ReadDirectory(d, f.cluster, Some(parent), steps, depth)
      case None => None
      case Some(children) => Some(Dir(children))
    else if f.size == 0 then Some(File([]))
    else
      match ReadChain(d, f.cluster, steps)
      case None => None
      case Some(bytes) => if f.size <= |bytes| then Some(File(bytes[..f.size])) else None
  }

  function ReadList(d: Disk, fs: seq<Found>, parent: nat, steps: nat, depth: nat): Option<Children>
    decreases depth, 3, |fs|
  {
    if fs == [] then Some(Nil)
    else
      match (NameOf(fs[0].name), ReadFound(d, fs[0], parent, steps, depth), ReadList(d, fs[1..], parent, steps, depth))
      case (Some(name), Some(node), Some(rest)) => Some(Cons(name, node, rest))
      case _ => None
  }

  // ----- What it gives -----

  /** The name as it is shown: without the dot that an 8.3 name loses at its end */
  function ShownAs(name: Name): Name {
    if IsShort(name) then ShownName(ShortName(name)) else name
  }

  function ShownNode(node: Node): Node
    decreases node
  {
    match node
    case File(_) => node
    case Dir(children) => Dir(ShownList(children))
  }

  function ShownList(children: Children): Children
    decreases children
  {
    match children
    case Nil => Nil
    case Cons(name, node, rest) => Cons(ShownAs(name), ShownNode(node), ShownList(rest))
  }

  function NodeDepth(node: Node): nat
    decreases node
  {
    match node
    case File(_) => 0
    case Dir(children) => 1 + ListDepth(children)
  }

  function ListDepth(children: Children): nat
    decreases children
  {
    match children
    case Nil => 0
    case Cons(_, node, rest) => if NodeDepth(node) > ListDepth(rest) then NodeDepth(node) else ListDepth(rest)
  }

  lemma {:induction false} NameIsRead(name: Name)
    ensures NameOf(name) == Some(name)
  {
    if name != [] {
      NameIsRead(name[1..]);
      assert name == [name[0]] + name[1..];
    }
  }

  // ----- Directories -----

  /** The parent of a directory below the root, none for the root */
  function ParentOf(parent: nat, isRoot: bool): Option<nat> {
    if isRoot then None else Some(parent)
  }

  lemma DotsPassed(own: nat, parent: nat, isRoot: bool, es: seq<Entry>)
    ensures BelowDots(own, ParentOf(parent, isRoot), DirectoryFound(own, parent, isRoot, es)) == Some(AllFound(es))
  {
    hide FoundOf;
    var fs := DirectoryFound(own, parent, isRoot, es);
    if isRoot {
      assert fs == AllFound(es);
    } else {
      assert fs[2..] == AllFound(es);
    }
  }

  /** A directory held on the disk is read as its entries */
  lemma HeldDirectoryIsRead(d: Disk, own: nat, parent: nat, isRoot: bool, es: seq<Entry>, bytes: seq<Byte>, steps: nat)
    requires DirectoryBytes(own, parent, isRoot, es) == Some(bytes) && bytes != [] && ChainHolds(d, own, bytes)
    requires own + Count(|bytes|) <= END_OF_CHAIN && parent < TWO32 && Count(|bytes|) <= steps
    requires forall i | 0 <= i < |es| :: Writable(es[i])
    ensures ReadChain(d, own, steps).Some?
    ensures BelowDots(own, ParentOf(parent, isRoot), ReadEntries(ReadChain(d, own, steps).value, Nothing))
            == Some(AllFound(es))
  {
    hide Writable, FoundOf, ReadChain, ReadEntries, DirectoryBytes, DirectoryFound, BelowDots, ChainHolds;
    DataIsRead(d, own, bytes, steps);
    DirectoryIsRead(own, parent, isRoot, es, SECTOR * Count(|bytes|) - |bytes|);
    DotsPassed(own, parent, isRoot, es);
  }

  // ----- Trees -----

  lemma {:induction false} EntriesAreWritable(children: Children, start: nat)
    requires ListNamed(children) && ListWrites(children, start) && start + ListSize(children, start) < TWO32
    ensures forall e | e in EntriesOf(children, start) :: Writable(e)
    decreases children
  {
    hide DirectorySize, EncodeAll, Count;
    match children
    case Nil =>
    case Cons(name, node, rest) => EntriesAreWritable(rest, start + NodeSize(node, start));
  }

  lemma WritableByIndex(es: seq<Entry>)
    requires forall e | e in es :: Writable(e)
    ensures forall i | 0 <= i < |es| :: Writable(es[i])
  {
  }

  /** What the numbers have room for */
  predicate InRange(hi: nat, steps: nat) {
    hi <= steps && hi <= END_OF_CHAIN
  }

  lemma FileIsRead(d: Disk, name: Name, data: seq<Byte>, start: nat, parent: nat, steps: nat, depth: nat)
    requires ChainHolds(d, start, data) && |data| < TWO32 && InRange(start + Count(|data|), steps)
    ensures ReadFound(d, FoundOf(EntryOf(name, File(data), start)), parent, steps, depth) == Some(File(data))
  {
    hide ReadChain, ChainHolds, Shown;
    if data != [] {
      DataIsRead(d, start, data, steps);
      var bytes := data + Zeros(SECTOR * Count(|data|) - |data|);
      assert bytes[..|data|] == data;
    }
  }

  lemma {:induction false} NodeIsRead(d: Disk, name: Name, node: Node, start: nat, parent: nat, steps: nat, depth: nat)
    requires Stored(d, node, start, parent) && NodeNamed(node) && NodeWrites(node, start) && parent < TWO32
    requires InRange(start + NodeSize(node, start), steps) && NodeDepth(node) <= depth
    ensures ReadFound(d, FoundOf(EntryOf(name, node, start)), parent, steps, depth) == Some(ShownNode(node))
    decreases node, 1
  {
    hide ReadChain, ReadEntries, ReadFound, ReadList, ChainHolds, Shown, DirectoryBytes, DirectorySize, BelowDots,
      EncodeAll, Count, EntriesOf, ListSize, ListNamed, ListWrites, StoredAll, ListDepth, ShownList, AllFound, Writable;
    match node
    case File(data) =>
      SizeOfFile(data, start);
      FileIsRead(d, name, data, start, parent, steps, depth);
    case Dir(children) =>
      var own, es := start + ListSize(children, start), EntriesOf(children, start);
      SizeOfDirectory(node, start);
      var bytes := DirectoryBytes(own, parent, false, es).value;
      ParentSameLength(own, parent, es);
      NotEmpty(own, parent, es);
      EntriesAreWritable(children, start);
      WritableByIndex(es);
      HeldDirectoryIsRead(d, own, parent, false, es, bytes, steps);
      ListIsRead(d, children, start, own, steps, depth - 1);
      FoundDirectory(d, FoundOf(EntryOf(name, node, start)), parent, steps, depth, AllFound(es), ShownList(children));
  }

  lemma SizeOfFile(data: seq<Byte>, start: nat)
    ensures NodeSize(File(data), start) == Count(|data|)
  {
  }

  lemma FoundDirectory(d: Disk, f: Found, parent: nat, steps: nat, depth: nat, fs: seq<Found>, children: Children)
    requires f.attr == ATTR_DIRECTORY && depth > 0 && ReadChain(d, f.cluster, steps).Some?
    requires BelowDots(f.cluster, Some(parent), ReadEntries(ReadChain(d, f.cluster, steps).value, Nothing)) == Some(fs)
    requires ReadList(d, fs, f.cluster, steps, depth - 1) == Some(children)
    ensures ReadFound(d, f, parent, steps, depth) == Some(Dir(children))
  {
    hide ReadList, ReadChain, ReadEntries, BelowDots;
  }

  lemma NotEmpty(own: nat, parent: nat, es: seq<Entry>)
    requires DirectoryBytes(own, parent, false, es).Some?
    ensures DirectoryBytes(own, parent, false, es).value != []
  {
    hide EncodeAll, ShortEntry;
    assert |Dots(own, parent)| == 64;
  }

  lemma {:induction false} ListIsRead(d: Disk, children: Children, start: nat, parent: nat, steps: nat, depth: nat)
    requires StoredAll(d, children, start, parent) && ListNamed(children) && ListWrites(children, start)
    requires parent < TWO32
    requires InRange(start + ListSize(children, start), steps) && ListDepth(children) <= depth
    ensures ReadList(d, AllFound(EntriesOf(children, start)), parent, steps, depth) == Some(ShownList(children))
    decreases children, 0
  {
    hide Stored, NodeWrites, NodeNamed, NodeSize, ReadFound, EntryOf, FoundOf, ShownNode, NodeDepth, Shown, ShownAs,
      NameOf;
    match children
    case Nil =>
    case Cons(name, node, rest) =>
      var next := start + NodeSize(node, start);
      SizeOfList(children, start);
      NodeIsRead(d, name, node, start, parent, steps, depth);
      ListIsRead(d, rest, next, parent, steps, depth);
      var es := EntriesOf(children, start);
      assert es == [EntryOf(name, node, start)] + EntriesOf(rest, next);
      assert AllFound(es)[1..] == AllFound(EntriesOf(rest, next));
      ShownIsName(name, node, start);
      NameIsRead(ShownAs(name));
  }

  lemma ShownIsName(name: Name, node: Node, start: nat)
    ensures FoundOf(EntryOf(name, node, start)).name == ShownAs(name)
  {
    hide ShownName, ShortName, IsShort;
  }

  /** The image of a tree, read back from its root, is the tree with its names as shown;
      so every directory was found with "." its own cluster and ".." its parent's */
  lemma TreeIsReadBack(d: Disk, children: Children, start: nat, steps: nat, depth: nat)
    requires RootStored(d, children, start) && ListWrites(children, start) && ListNamed(children)
    requires InRange(UsedClusters(children, start), steps) && ListDepth(children) < depth
    ensures ReadDirectory(d, start + ListSize(children, start), None, steps, depth) == Some(ShownList(children))
  {
    hide ReadChain, ReadEntries, ChainHolds, StoredAll, DirectoryBytes, BelowDots, ListWrites, ListNamed, Count,
      ReadList;
    var own, es := start + ListSize(children, start), EntriesOf(children, start);
    var bytes := DirectoryBytes(own, 0, true, es).value;
    RootNotEmpty(own, es);
    EntriesAreWritable(children, start);
    WritableByIndex(es);
    HeldDirectoryIsRead(d, own, 0, true, es, bytes, steps);
    ListIsRead(d, children, start, 0, steps, depth - 1);
  }

  /** main: the FAT and clusters of an image, and where its root directory starts; none
      if the size is too small, a name cannot be written or the files do not fit. Read
      back it is the tree, with every directory's ".." its parent. Its FAT links a chain
      for the root and for each file and directory below it, no two sharing a cluster,
      and nothing else. */
  method MakeImage(mib: nat, tree: Children) returns (r: Option<(Disk, nat)>)
    requires ListNamed(tree)
    ensures r.Some? <==> LargeEnough(mib) && Buildable(tree, 2, ClusterCount(mib))
    ensures r.Some? ==> |r.value.0.fat| <= ClusterCount(mib) + 2
    ensures r.Some? && |r.value.0.fat| <= END_OF_CHAIN ==>
      && ReadDirectory(r.value.0, r.value.1, None, |r.value.0.fat|, ListDepth(tree) + 1) == Some(ShownList(tree))
      && LinksExactly(r.value.0.fat, AllChains(tree, 2))
  {
    hide RootStored, ReadDirectory, ListNamed, ListSize, ListDepth, ShownList, ClusterCount, ListWrites, AllChains,
      LinksExactly, UsedClusters;
    if ClusterCount(mib) < 65525 {
      return None;
    }
    var image := new Image(mib);
    var ok, root := AddRoot(image, tree);
    if !ok {
      return None;
    }
    if |image.fat| <= END_OF_CHAIN {
      TreeIsReadBack(image.Contents(), tree, 2, |image.fat|, ListDepth(tree) + 1);
      TreeLinks(image.Contents(), tree);
    }
    r := Some((image.Contents(), root));
  }

  // ----- Names that are not kept -----

  /** An 8.3 name with a dot at its end */
  predicate LosesDot(name: Name) {
    IsShort(name) && name[|name| - 1] == DOT
  }

  predicate NodeKeeps(node: Node)
    decreases node
  {
    match node
    case File(_) => true
    case Dir(children) => ListKeeps(children)
  }

  predicate ListKeeps(children: Children)
    decreases children
  {
    match children
    case Nil => true
    case Cons(name, node, rest) => !LosesDot(name) && NodeKeeps(node) && ListKeeps(rest)
  }

  /** The tree read back is the source exactly when no name loses its dot */
  lemma {:induction false} ListKept(children: Children)
    ensures ShownList(children) == children <==> ListKeeps(children)
    decreases children
  {
    hide ShownName, ShortName, IsShort;
    match children
    case Nil =>
    case Cons(name, node, rest) =>
      if IsShort(name) {
        ShortRoundTrip(name);
      }
      match node
      {
        case File(_) =>
        case Dir(inner) => ListKept(inner);
      }
      ListKept(rest);
  }
}
