/** The chains of clusters of an image: where they are, what its FAT links, and that no
    two share a cluster.
 */
module FatChains {
  import opened Common
  import opened FatNames
  import opened FatDirectory
  import opened FatImage
  import opened FatTree
  import opened FatBuild

  datatype Chain = Chain(first: nat, count: nat)

  function ChainIfAny(first: nat, count: nat): seq<Chain> {
    if count == 0 then [] else [Chain(first, count)]
  }

  /** All chains of a node, in the order they are made */
  function NodeChains(node: Node, start: nat): seq<Chain>
    decreases node
  {
    match node
    case File(data) => ChainIfAny(start, Count(|data|))
    case Dir(children) =>
      var own := start + ListSize(children, start);
      ListChains(children, start) + ChainIfAny(own, DirectorySize(own, EntriesOf(children, start)))
  }

  function ListChains(children: Children, start: nat): seq<Chain>
    decreases children
  {
    match children
    case Nil => []
    case Cons(_, node, rest) => NodeChains(node, start) + ListChains(rest, start + NodeSize(node, start))
  }

  /** With the root directory's, the last */
  function AllChains(children: Children, start: nat): seq<Chain> {
    var own := start + ListSize(children, start);
    ListChains(children, start) + ChainIfAny(own, UsedClusters(children, start) - own)
  }

  // ----- One after another -----

  /** Each starts where the one before it ends */
  predicate Consecutive(cs: seq<Chain>, lo: nat, hi: nat) {
    if cs == [] then lo == hi
    else cs[0].first == lo && cs[0].count > 0 && Consecutive(cs[1..], lo + cs[0].count, hi)
  }

  lemma {:induction false} ConsecutiveSum(a: seq<Chain>, b: seq<Chain>, lo: nat, mid: nat, hi: nat)
    requires Consecutive(a, lo, mid) && Consecutive(b, mid, hi)
    ensures Consecutive(a + b, lo, hi)
  {
    if a == [] {
      assert a + b == b;
    } else {
      ConsecutiveSum(a[1..], b, lo + a[0].count, mid, hi);
      assert (a + b)[1..] == a[1..] + b;
    }
  }

  lemma {:induction false} ListConsecutive(children: Children, start: nat)
    ensures Consecutive(ListChains(children, start), start, start + ListSize(children, start))
    decreases children, 0
  {
    hide NodeSize, NodeChains;
    match children
    case Nil =>
    case Cons(_, node, rest) =>
      var next := start + NodeSize(node, start);
      SizeOfList(children, start);
      NodeConsecutive(node, start);
      ListConsecutive(rest, next);
      ConsecutiveSum(NodeChains(node, start), ListChains(rest, next), start, next, next + ListSize(rest, next));
  }

  lemma {:induction false} NodeConsecutive(node: Node, start: nat)
    ensures Consecutive(NodeChains(node, start), start, start + NodeSize(node, start))
    decreases node, 1
  {
    hide ListSize, ListChains, DirectorySize, EntriesOf;
    match node
    case File(data) =>
    case Dir(children) =>
      var own := start + ListSize(children, start);
      var size := DirectorySize(own, EntriesOf(children, start));
      SizeOfDirectory(node, start);
      ListConsecutive(children, start);
      ConsecutiveSum(ListChains(children, start), ChainIfAny(own, size), start, own, own + size);
  }

  /** No two chains share a cluster */
  lemma {:induction false} ChainsAreDisjoint(cs: seq<Chain>, lo: nat, hi: nat, i: nat, j: nat)
    requires Consecutive(cs, lo, hi) && i < j < |cs|
    ensures lo <= cs[i].first && cs[i].first + cs[i].count <= cs[j].first && cs[j].first + cs[j].count <= hi
    decreases |cs|
  {
    if i > 0 {
      ChainsAreDisjoint(cs[1..], lo + cs[0].count, hi, i - 1, j - 1);
    } else {
      ChainIsAfter(cs[1..], lo + cs[0].count, hi, j - 1);
    }
  }

  lemma {:induction false} ChainIsAfter(cs: seq<Chain>, lo: nat, hi: nat, j: nat)
    requires Consecutive(cs, lo, hi) && j < |cs|
    ensures lo <= cs[j].first && cs[j].first + cs[j].count <= hi
    decreases |cs|
  {
    EndIsAfter(cs[1..], lo + cs[0].count, hi);
    if j > 0 {
      ChainIsAfter(cs[1..], lo + cs[0].count, hi, j - 1);
    }
  }

  lemma {:induction false} EndIsAfter(cs: seq<Chain>, lo: nat, hi: nat)
    requires Consecutive(cs, lo, hi)
    ensures lo <= hi
  {
    if cs != [] {
      EndIsAfter(cs[1..], lo + cs[0].count, hi);
    }
  }

  lemma {:induction false} InOne(cs: seq<Chain>, lo: nat, hi: nat, c: nat) returns (i: nat)
    requires Consecutive(cs, lo, hi) && lo <= c < hi
    ensures i < |cs| && cs[i].first <= c < cs[i].first + cs[i].count
    decreases |cs|
  {
    if c < lo + cs[0].count {
      i := 0;
    } else {
      i := InOne(cs[1..], lo + cs[0].count, hi, c);
      i := i + 1;
    }
  }

  lemma AllConsecutive(children: Children, start: nat)
    ensures Consecutive(AllChains(children, start), start, UsedClusters(children, start))
  {
    hide ListSize, ListChains, DirectoryBytes, Count;
    var own := start + ListSize(children, start);
    ListConsecutive(children, start);
    ConsecutiveSum(ListChains(children, start), ChainIfAny(own, UsedClusters(children, start) - own), start, own,
                   UsedClusters(children, start));
  }

  // ----- What the FAT links -----

  /** The clusters found by following the FAT, so many at most */
  function FollowFat(fat: seq<nat>, cluster: nat, steps: nat): Option<seq<nat>>
    decreases steps
  {
    if steps == 0 || cluster >= |fat| then None
    else if fat[cluster] == END_OF_CHAIN then Some([cluster])
    else
      match FollowFat(fat, fat[cluster], steps - 1)
      case None => None
      case Some(rest) => Some([cluster] + rest)
  }

  function Clusters(c: Chain): seq<nat> {
    seq(c.count, i requires 0 <= i < c.count => c.first + i)
  }

  /** Following the FAT from the start of each chain gives the clusters of that chain;
      no cluster is in two, and every cluster that the FAT has an entry for is in one */
  ghost predicate LinksExactly(fat: seq<nat>, cs: seq<Chain>) {
    && (forall i | 0 <= i < |cs| :: FollowFat(fat, cs[i].first, |fat|) == Some(Clusters(cs[i])))
    && (forall i, j | 0 <= i < j < |cs| :: forall c | c in Clusters(cs[i]) :: c !in Clusters(cs[j]))
    && (forall c: nat | 2 <= c < |fat| :: InSome(cs, c))
  }

  predicate InSome(cs: seq<Chain>, c: nat) {
    exists i :: 0 <= i < |cs| && c in Clusters(cs[i])
  }

  /** The FAT's entries along a chain */
  ghost predicate Linked(fat: seq<nat>, c: Chain) {
    forall i: nat | i < c.count :: LinkAt(fat, c, i)
  }

  predicate LinkAt(fat: seq<nat>, c: Chain, i: nat) {
    c.first + i < |fat| && fat[c.first + i] == if i + 1 < c.count then c.first + i + 1 else END_OF_CHAIN
  }

  lemma {:induction false} LinkedIsFollowed(fat: seq<nat>, c: Chain, i: nat, steps: nat)
    requires Linked(fat, c) && i < c.count <= i + steps && c.first + c.count <= END_OF_CHAIN
    ensures FollowFat(fat, c.first + i, steps) == Some(Clusters(c)[i..])
    decreases steps
  {
    assert LinkAt(fat, c, i);
    if i + 1 < c.count {
      LinkedIsFollowed(fat, c, i + 1, steps - 1);
      assert Clusters(c)[i..] == [c.first + i] + Clusters(c)[i + 1..];
    } else {
      assert Clusters(c)[i..] == [c.first + i];
    }
  }

  lemma HeldIsLinked(d: Disk, first: nat, data: seq<Byte>)
    requires ChainHolds(d, first, data)
    ensures forall c | c in ChainIfAny(first, Count(|data|)) :: Linked(d.fat, c)
  {
    hide Count, SectorOf;
    var c := Chain(first, Count(|data|));
    forall i: nat | i < c.count
      ensures LinkAt(d.fat, c, i)
    {
      assert LinkHolds(d, first, data, i);
    }
  }

  lemma {:induction false} ListLinked(d: Disk, children: Children, start: nat, parent: nat)
    requires StoredAll(d, children, start, parent)
    ensures forall c | c in ListChains(children, start) :: Linked(d.fat, c)
    decreases children, 0
  {
    hide NodeChains, Stored, Linked;
    match children
    case Nil =>
    case Cons(_, node, rest) =>
      NodeLinked(d, node, start, parent);
      ListLinked(d, rest, start + NodeSize(node, start), parent);
  }

  lemma {:induction false} NodeLinked(d: Disk, node: Node, start: nat, parent: nat)
    requires Stored(d, node, start, parent)
    ensures forall c | c in NodeChains(node, start) :: Linked(d.fat, c)
    decreases node, 1
  {
    hide ListChains, StoredAll, Linked, ChainHolds, DirectoryBytes, DirectorySize, EntriesOf, ListSize, Count,
      ChainIfAny;
    match node
    case File(data) => HeldIsLinked(d, start, data);
    case Dir(children) =>
      var own, es := start + ListSize(children, start), EntriesOf(children, start);
      ListLinked(d, children, start, own);
      ParentSameLength(own, parent, es);
      HeldIsLinked(d, own, DirectoryBytes(own, parent, false, es).value);
  }

  lemma AllLinked(d: Disk, children: Children, start: nat)
    requires RootStored(d, children, start)
    ensures forall c | c in AllChains(children, start) :: Linked(d.fat, c)
  {
    hide ListChains, StoredAll, Linked, ChainHolds, DirectoryBytes, EntriesOf, ListSize, Count, ChainIfAny;
    var own, es := start + ListSize(children, start), EntriesOf(children, start);
    ListLinked(d, children, start, 0);
    HeldIsLinked(d, own, DirectoryBytes(own, 0, true, es).value);
  }

  /** The image of a tree */
  lemma TreeLinks(d: Disk, tree: Children)
    requires RootStored(d, tree, 2) && |d.fat| == UsedClusters(tree, 2) <= END_OF_CHAIN
    ensures LinksExactly(d.fat, AllChains(tree, 2))
  {
    hide AllChains, RootStored, UsedClusters, Linked;
    AllLinked(d, tree, 2);
    AllConsecutive(tree, 2);
    LaidOutLinks(d.fat, AllChains(tree, 2));
  }

  lemma LaidOutLinks(fat: seq<nat>, cs: seq<Chain>)
    requires Consecutive(cs, 2, |fat|) && |fat| <= END_OF_CHAIN && forall c | c in cs :: Linked(fat, c)
    ensures LinksExactly(fat, cs)
  {
    hide Consecutive, Linked, FollowFat;
    forall i | 0 <= i < |cs|
      ensures FollowFat(fat, cs[i].first, |fat|) == Some(Clusters(cs[i]))
    {
      ChainIsSome(cs, 2, |fat|, i);
      ChainIsAfter(cs, 2, |fat|, i);
      assert Linked(fat, cs[i]);
      LinkedIsFollowed(fat, cs[i], 0, |fat|);
      assert Clusters(cs[i])[0..] == Clusters(cs[i]);
    }
    forall i, j | 0 <= i < j < |cs|
      ensures forall c | c in Clusters(cs[i]) :: c !in Clusters(cs[j])
    {
      ChainsAreDisjoint(cs, 2, |fat|, i, j);
    }
    forall c: nat | 2 <= c < |fat|
      ensures InSome(cs, c)
    {
      var i := InOne(cs, 2, |fat|, c);
      assert Clusters(cs[i])[c - cs[i].first] == c;
    }
  }

  lemma {:induction false} ChainIsSome(cs: seq<Chain>, lo: nat, hi: nat, i: nat)
    requires Consecutive(cs, lo, hi) && i < |cs|
    ensures cs[i].count > 0
    decreases |cs|
  {
    if i > 0 {
      ChainIsSome(cs[1..], lo + cs[0].count, hi, i - 1);
    }
  }
}
