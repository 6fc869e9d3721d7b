/** add_tree: building the image of a tree. */
module FatBuild {
  import opened FatNames
  import opened FatEntries
  import opened FatDirectory
  import opened FatImage
  import opened FatTree

  lemma AgreeChain(d: Disk, d1: Disk, d2: Disk, lo: nat, mid: nat, hi: nat)
    requires Agree(d, d1, lo, mid) && Agree(d1, d2, lo, hi) && mid <= hi
    ensures Agree(d, d2, lo, mid)
  {
    forall c | lo <= c < mid
      ensures (c in d.clusters <==> c in d2.clusters) && (c in d.clusters ==> d.clusters[c] == d2.clusters[c])
      ensures (c < |d.fat| <==> c < |d2.fat|) && (c < |d.fat| ==> d.fat[c] == d2.fat[c])
    {
      assert c in d.clusters <==> c in d1.clusters;
    }
  }

  /** A directory changed at its first cluster only, and what is then stored */
  lemma PatchHolds(d: Disk, d': Disk, own: nat, parent: nat, es: seq<Entry>)
    requires DirectoryHeld(d, own, 0, es) && own in d.clusters && |d.clusters[own]| == SECTOR
    requires d' == d.(clusters := d.clusters[own := Patch(d.clusters[own], parent)])
    ensures DirectoryHeld(d', own, parent, es)
  {
    hide DirectoryBytes, SectorOf, Patch;
    PatchedDirectory(own, parent, es);
    var was, now := DirectoryBytes(own, 0, false, es).value, DirectoryBytes(own, parent, false, es).value;
    forall i | 0 <= i < Count(|now|)
      ensures LinkHolds(d', own, now, i)
    {
      PatchedSectors(was, parent, i);
      assert LinkHolds(d, own, was, i);
    }
  }

  lemma FirstHeld(d: Disk, own: nat, parent: nat, es: seq<Entry>)
    requires DirectoryHeld(d, own, parent, es)
    ensures own in d.clusters && |d.clusters[own]| == SECTOR && DirectorySize(own, es) > 0
  {
    hide EncodeAll, ShortEntry, SectorOf;
    var bytes := DirectoryBytes(own, parent, false, es).value;
    ParentSameLength(own, parent, es);
    assert |bytes| >= 64;
    assert LinkHolds(d, own, bytes, 0);
  }

  lemma PatchElsewhere(d: Disk, own: nat, s: seq<Byte>, lo: nat, hi: nat)
    requires own in d.clusters && (hi <= own || own < lo)
    ensures Agree(d, d.(clusters := d.clusters[own := s]), lo, hi)
  {
  }

  lemma ChildFirst(d: Disk, node: Node, start: nat, own: nat)
    requires node.Dir? && Stored(d, node, start, 0) && own == start + ListSize(node.children, start)
    ensures own in d.clusters && |d.clusters[own]| == SECTOR
  {
    hide DirectoryHeld, EntriesOf, ListSize;
    FirstHeld(d, own, 0, EntriesOf(node.children, start));
  }

  lemma ChildPatched(d: Disk, d': Disk, node: Node, start: nat, own: nat, parent: nat, hi: nat)
    requires node.Dir? && Stored(d, node, start, 0) && own == start + ListSize(node.children, start)
    requires own in d.clusters && |d.clusters[own]| == SECTOR
    requires d' == d.(clusters := d.clusters[own := Patch(d.clusters[own], parent)])
    ensures Stored(d', node, start, parent) && Agree(d, d', 0, start) && Agree(d, d', start + NodeSize(node, start), hi)
  {
    hide Agree, DirectoryHeld, Patch, DirectorySize, EntriesOf, ListSize, NodeSize;
    var children := node.children;
    var es, s := EntriesOf(children, start), Patch(d.clusters[own], parent);
    FirstHeld(d, own, 0, es);
    SizeOfDirectory(node, start);
    PatchHolds(d, d', own, parent, es);
    PatchElsewhere(d, own, s, start, own);
    AllElsewhere(d, d', children, start, own);
    PatchElsewhere(d, own, s, 0, start);
    PatchElsewhere(d, own, s, start + NodeSize(node, start), hi);
  }

  /** The last loop of add_tree: ".." of each child directory */
  method PatchParents(image: Image, entries: seq<Entry>, parent: nat, ghost children: Children, ghost start: nat,
                      ghost hi: nat)
    requires start + ListSize(children, start) <= hi
    requires image.Valid() && entries == EntriesOf(children, start) && StoredAll(image.Contents(), children, start, 0)
    modifies image
    ensures image.Valid() && image.nextFree == old(image.nextFree)
    ensures StoredAll(image.Contents(), children, start, parent)
    ensures Agree(old(image.Contents()), image.Contents(), 0, start)
    ensures Agree(old(image.Contents()), image.Contents(), start + ListSize(children, start), hi)
    decreases children
  {
    hide Agree, Stored, Patch, NodeSize, ListSize, EntriesOf;
    AgreeItself(image.Contents(), 0, start);
    AgreeItself(image.Contents(), start + ListSize(children, start), hi);
    FirstEntry(children, start);
    if entries == [] {
      return;
    }
    ghost var node, rest, d := children.node, children.rest, image.Contents();
    ghost var next := start + NodeSize(node, start);
    ghost var last := next + ListSize(rest, next);
    assert last == start + ListSize(children, start) by { SizeOfList(children, start); }
    AgreeItself(d, next, hi);
    var e := entries[0];
    if e.attr == ATTR_DIRECTORY {
      ChildFirst(d, node, start, e.cluster);
      image.clusters := image.clusters[e.cluster := Patch(image.clusters[e.cluster], parent)];
      ChildPatched(d, image.Contents(), node, start, e.cluster, parent, hi);
      AgreePart(d, image.Contents(), next, hi, next, last);
      AllElsewhere(d, image.Contents(), rest, next, 0);
    } else {
      FileStored(d, node, start, parent);
    }
    ghost var d1 := image.Contents();
    PatchParents(image, entries[1..], parent, rest, next, hi);
    AgreePart(d1, image.Contents(), 0, next, start, next);
    StoredElsewhere(d1, image.Contents(), node, start, parent);
    AgreeChain(d, d1, image.Contents(), 0, start, next);
    AgreePart(d, d1, next, hi, last, hi);
    AgreeChain(d, d1, image.Contents(), last, hi, hi);
  }

  /** What the entries say of the first child, and that the rest is about the others */
  lemma FirstEntry(children: Children, start: nat)
    ensures children.Nil? <==> EntriesOf(children, start) == []
    ensures children.Cons? ==>
      var es, node := EntriesOf(children, start), children.node;
      && (es[0].attr == ATTR_DIRECTORY <==> node.Dir?)
      && (node.Dir? ==> es[0].cluster == start + ListSize(node.children, start))
      && es[1..] == EntriesOf(children.rest, start + NodeSize(node, start))
  {
    hide NodeSize, ListSize;
  }

  lemma SizeOfList(children: Children, start: nat)
    requires children.Cons?
    ensures var next := start + NodeSize(children.node, start);
            start + ListSize(children, start) == next + ListSize(children.rest, next)
  {
    hide NodeSize;
  }

  lemma FileStored(d: Disk, node: Node, start: nat, parent: nat)
    requires Stored(d, node, start, 0) && node.File?
    ensures Stored(d, node, start, parent)
  {
  }

  lemma SizeOfDirectory(node: Node, start: nat)
    requires node.Dir?
    ensures var own := start + ListSize(node.children, start);
            start + NodeSize(node, start) == own + DirectorySize(own, EntriesOf(node.children, start))
  {
    hide DirectorySize, EntriesOf, ListSize;
  }

  // ----- The whole tree -----

  /** add_tree's loop over the names: children stored, and what their directory says of
      them */
  method AddChildren(image: Image, children: Children) returns (ok: bool, entries: seq<Entry>)
    requires image.Valid()
    modifies image
    ensures image.Valid()
    ensures ok <==>
            ListWrites(children, old(image.nextFree))
              && old(image.nextFree) + ListSize(children, old(image.nextFree)) <= image.clusterCount + 2
    ensures ok ==>
      && entries == EntriesOf(children, old(image.nextFree))
      && image.nextFree == old(image.nextFree) + ListSize(children, old(image.nextFree))
      && StoredAll(image.Contents(), children, old(image.nextFree), 0)
      && Agree(old(image.Contents()), image.Contents(), 0, old(image.nextFree))
    decreases children, 0
  {
    hide Agree, Stored, NodeSize, NodeWrites, EntryOf;
    ghost var start, d := image.nextFree, image.Contents();
    AgreeItself(d, 0, start);
    if children.Nil? {
      return true, [];
    }
    var e;
    ok, e := AddNode(image, children.name, children.node);
    if !ok {
      return false, [];
    }
    ghost var next, d1 := image.nextFree, image.Contents();
    ok, entries := AddChildren(image, children.rest);
    if !ok {
      return;
    }
    entries := [e] + entries;
    AgreePart(d1, image.Contents(), 0, next, start, next);
    StoredElsewhere(d1, image.Contents(), children.node, start, 0);
    AgreeChain(d, d1, image.Contents(), 0, start, next);
  }

  /** One name of the loop: a file, or a directory with all that is in it */
  method AddNode(image: Image, name: Name, node: Node) returns (ok: bool, e: Entry)
    requires image.Valid()
    modifies image
    ensures image.Valid()
    ensures ok <==>
            NodeWrites(node, old(image.nextFree))
              && old(image.nextFree) + NodeSize(node, old(image.nextFree)) <= image.clusterCount + 2
    ensures ok ==>
      && e == EntryOf(name, node, old(image.nextFree))
      && image.nextFree == old(image.nextFree) + NodeSize(node, old(image.nextFree))
      && Stored(image.Contents(), node, old(image.nextFree), 0)
      && Agree(old(image.Contents()), image.Contents(), 0, old(image.nextFree))
    decreases node, 1
  {
    hide Agree, ChainHolds, ListSize, ListWrites, StoredAll, DirectoryHeld, DirectorySize;
    e := Entry(name, ATTR_ARCHIVE, 0, 0);
    match node
    case File(data) =>
      var first;
      ok, first := image.Allocate(data);
      e := Entry(name, ATTR_ARCHIVE, first, |data|);
      if |data| >= TWO32 {
        ok := false;
      }
    case Dir(children) =>
      var own;
      ok, own := AddDirectory(image, children);
      e := Entry(name, ATTR_DIRECTORY, own, 0);
  }

  /** add_tree of a directory below the root: its children, the directory, and then its
      number as their parent */
  method AddDirectory(image: Image, children: Children) returns (ok: bool, own: nat)
    requires image.Valid()
    modifies image
    ensures image.Valid()
    ensures ok <==>
            NodeWrites(Dir(children), old(image.nextFree))
              && old(image.nextFree) + NodeSize(Dir(children), old(image.nextFree)) <= image.clusterCount + 2
    ensures ok ==>
      && own == old(image.nextFree) + ListSize(children, old(image.nextFree))
      && image.nextFree == old(image.nextFree) + NodeSize(Dir(children), old(image.nextFree))
      && Stored(image.Contents(), Dir(children), old(image.nextFree), 0)
      && Agree(old(image.Contents()), image.Contents(), 0, old(image.nextFree))
    decreases children, 1
  {
    hide Agree, ListSize, ListWrites, StoredAll, EntriesOf, EncodeAll, Dots, Count;
    ghost var start, d := image.nextFree, image.Contents();
    own := 0;
    var entries;
    ok, entries := AddChildren(image, children);
    if !ok {
      return;
    }
    ghost var d1 := image.Contents();
    own := image.nextFree;
    var body := DirectoryBytes(own, 0, false, entries);
    if body.None? {
      return false, own;
    }
    var first;
    ok, first := image.Allocate(body.value);
    if !ok {
      return;
    }
    ghost var d2 := image.Contents();
    AgreePart(d1, d2, 0, own, start, own);
    AllElsewhere(d1, d2, children, start, 0);
    AgreeChain(d, d1, d2, 0, start, own);
    PatchParents(image, entries, own, children, start, image.nextFree);
    ChainElsewhere(d2, image.Contents(), own, body.value);
    AgreeChain(d, d2, image.Contents(), 0, start, start);
  }

  /** The whole tree, the root directory last */
  ghost predicate RootStored(d: Disk, children: Children, start: nat) {
    var own := start + ListSize(children, start);
    && StoredAll(d, children, start, 0)
    && DirectoryBytes(own, 0, true, EntriesOf(children, start)).Some?
    && ChainHolds(d, own, DirectoryBytes(own, 0, true, EntriesOf(children, start)).value)
  }

  /** Where the clusters of a tree from `start` on end, the root directory's last */
  function UsedClusters(children: Children, start: nat): nat {
    var own := start + ListSize(children, start);
    match DirectoryBytes(own, 0, true, EntriesOf(children, start))
    case None => own
    case Some(bytes) => own + Count(|bytes|)
  }

  /** Every name can be written, and everything fits */
  predicate Buildable(children: Children, start: nat, clusterCount: int) {
    && ListWrites(children, start)
    && DirectoryBytes(start + ListSize(children, start), 0, true, EntriesOf(children, start)).Some?
    && UsedClusters(children, start) <= clusterCount + 2
  }

  /** add_tree of the root */
  method AddRoot(image: Image, children: Children) returns (ok: bool, own: nat)
    requires image.Valid()
    modifies image
    ensures image.Valid()
    ensures ok <==> Buildable(children, old(image.nextFree), image.clusterCount)
    ensures ok ==> own == old(image.nextFree) + ListSize(children, old(image.nextFree))
    ensures ok ==> image.nextFree == UsedClusters(children, old(image.nextFree))
    ensures ok ==> RootStored(image.Contents(), children, old(image.nextFree))
  {
    hide Agree, ListSize, ListWrites, StoredAll, EntriesOf, EncodeAll, Count, ChainHolds;
    ghost var start := image.nextFree;
    own := 0;
    var entries;
    ok, entries := AddChildren(image, children);
    if !ok {
      return;
    }
    ghost var d1 := image.Contents();
    own := image.nextFree;
    var body := DirectoryBytes(own, 0, true, entries);
    if body.None? {
      return false, own;
    }
    RootNotEmpty(own, entries);
    var first;
    ok, first := image.Allocate(body.value);
    if !ok {
      return;
    }
    ghost var d2 := image.Contents();
    AgreePart(d1, d2, 0, own, start, own);
    AllElsewhere(d1, d2, children, start, 0);
    PatchParents(image, entries, 0, children, start, image.nextFree);
    ChainElsewhere(d2, image.Contents(), own, body.value);
  }

  lemma RootNotEmpty(own: nat, es: seq<Entry>)
    requires DirectoryBytes(own, 0, true, es).Some?
    ensures DirectoryBytes(own, 0, true, es).value != []
  {
    hide EncodeAll;
  }
}
