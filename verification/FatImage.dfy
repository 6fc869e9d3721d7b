/** The volume: its layout, chains of clusters, and what they hold. */
module FatImage {
  import opened Common
  import opened FatNames
  import opened FatDirectory

  const RESERVED_SECTORS: int := 32
  const NUM_FATS: int := 2
  const END_OF_CHAIN: nat := 0x0FFF_FFFF

  // ----- The layout -----

  function TotalSectors(mib: nat): nat {
    mib * 1024 * 1024 / SECTOR
  }

  function FatSectors(mib: nat): int {
    ((TotalSectors(mib) - RESERVED_SECTORS) * 4 + (SECTOR + NUM_FATS * 4) - 1) / (SECTOR + NUM_FATS * 4) + 1
  }

  function ClusterCount(mib: nat): int {
    TotalSectors(mib) - (RESERVED_SECTORS + NUM_FATS * FatSectors(mib))
  }

  /** Large enough to be FAT32 */
  predicate LargeEnough(mib: nat) {
    ClusterCount(mib) >= 65525
  }

  /** Whatever the size, each copy of the FAT has an entry for every cluster and the two
      reserved ones, at most one sector and a little more than that, and what is laid out
      is the whole volume */
  lemma FatHasRoom(mib: nat)
    ensures 4 * (ClusterCount(mib) + 2) <= 512 * FatSectors(mib) < 4 * (ClusterCount(mib) + 4) + 2 * 512
    ensures 32 + 2 * FatSectors(mib) + ClusterCount(mib) == 2048 * mib
  {
    assert TotalSectors(mib) == 2048 * mib;
    var d := TotalSectors(mib) - RESERVED_SECTORS;
    assert 4 * d <= 520 * (FatSectors(mib) - 1) < 4 * d + 520;
  }

  /** 33 MiB are enough, one less than the program asks for */
  lemma ThirtyThree(mib: nat)
    ensures LargeEnough(mib) <==> mib >= 33
  {
    assert TotalSectors(mib) == 2048 * mib;
  }

  // ----- Chains -----

  function Count(length: nat): nat {
    (length + SECTOR - 1) / SECTOR
  }

  /** Sector `i` of some data, padded */
  function SectorOf(data: seq<Byte>, i: nat): (s: seq<Byte>)
    requires i < Count(|data|)
    ensures |s| == SECTOR
  {
    if SECTOR * (i + 1) <= |data| then data[SECTOR * i..SECTOR * (i + 1)]
    else data[SECTOR * i..] + Zeros(SECTOR * (i + 1) - |data|)
  }

  datatype Disk = Disk(fat: seq<nat>, clusters: map<nat, seq<Byte>>)

  /** The chain of clusters from `first` on, one after another, has the data */
  ghost predicate ChainHolds(d: Disk, first: nat, data: seq<Byte>) {
    forall i | 0 <= i < Count(|data|) :: LinkHolds(d, first, data, i)
  }

  predicate LinkHolds(d: Disk, first: nat, data: seq<Byte>, i: nat)
    requires i < Count(|data|)
  {
    && first + i in d.clusters && d.clusters[first + i] == SectorOf(data, i)
    && first + i < |d.fat| && d.fat[first + i] == if i + 1 < Count(|data|) then first + i + 1 else END_OF_CHAIN
  }

  /** Following the FAT, for so many steps at most */
  function ReadChain(d: Disk, cluster: nat, steps: nat): Option<seq<Byte>>
    decreases steps
  {
    if steps == 0 || cluster !in d.clusters || cluster >= |d.fat| then None
    else if d.fat[cluster] == END_OF_CHAIN then Some(d.clusters[cluster])
    else
      match ReadChain(d, d.fat[cluster], steps - 1)
      case None => None
      case Some(rest) => Some(d.clusters[cluster] + rest)
  }

  /** The data from sector `i` on, padded to whole sectors */
  function PaddedFrom(data: seq<Byte>, i: nat): seq<Byte>
    requires i <= Count(|data|)
    decreases Count(|data|) - i
  {
    if i == Count(|data|) then [] else SectorOf(data, i) + PaddedFrom(data, i + 1)
  }

  lemma {:induction false} PaddedFromIs(data: seq<Byte>, i: nat)
    requires i < Count(|data|)
    ensures PaddedFrom(data, i) == data[SECTOR * i..] + Zeros(SECTOR * Count(|data|) - |data|)
    decreases Count(|data|) - i
  {
    if i + 1 < Count(|data|) {
      PaddedFromIs(data, i + 1);
      assert data[SECTOR * i..SECTOR * (i + 1)] + data[SECTOR * (i + 1)..] == data[SECTOR * i..];
    } else {
      LastSector(data, i);
      assert PaddedFrom(data, i + 1) == [];
    }
  }

  lemma LastSector(data: seq<Byte>, i: nat)
    requires i + 1 == Count(|data|)
    ensures SectorOf(data, i) == data[SECTOR * i..] + Zeros(SECTOR * Count(|data|) - |data|)
  {
  }

  /** What is held is read back, with zeros after it */
  lemma {:induction false} ChainIsRead(d: Disk, first: nat, data: seq<Byte>, i: nat, steps: nat)
    requires ChainHolds(d, first, data) && i < Count(|data|) <= i + steps && first + Count(|data|) <= END_OF_CHAIN
    ensures ReadChain(d, first + i, steps) == Some(PaddedFrom(data, i))
    decreases steps
  {
    hide SectorOf, Count;
    assert LinkHolds(d, first, data, i);
    if i + 1 < Count(|data|) {
      ChainIsRead(d, first, data, i + 1, steps - 1);
    } else {
      assert PaddedFrom(data, i + 1) == [];
      assert SectorOf(data, i) + [] == SectorOf(data, i);
    }
  }

  lemma DataIsRead(d: Disk, first: nat, data: seq<Byte>, steps: nat)
    requires ChainHolds(d, first, data) && data != [] && Count(|data|) <= steps && first + Count(|data|) <= END_OF_CHAIN
    ensures ReadChain(d, first, steps) == Some(data + Zeros(SECTOR * Count(|data|) - |data|))
  {
    hide ReadChain, PaddedFrom, ChainHolds;
    assert Count(|data|) > 0;
    ChainIsRead(d, first, data, 0, steps);
    PaddedFromIs(data, 0);
    assert data[SECTOR * 0..] == data;
  }

  /** Chains are their own: what happens to other clusters does not matter */
  lemma ChainElsewhere(d: Disk, d': Disk, first: nat, data: seq<Byte>)
    requires ChainHolds(d, first, data) && Agree(d, d', first, first + Count(|data|))
    ensures ChainHolds(d', first, data)
  {
    hide SectorOf, Count;
    forall i | 0 <= i < Count(|data|)
      ensures LinkHolds(d', first, data, i)
    {
      assert LinkHolds(d, first, data, i);
    }
  }

  /** The same clusters from `lo` up to `hi` */
  ghost predicate Agree(d: Disk, d': Disk, lo: nat, hi: nat) {
    forall c | lo <= c < hi ::
      && (c in d.clusters <==> c in d'.clusters) && (c in d.clusters ==> d.clusters[c] == d'.clusters[c])
      && (c < |d.fat| <==> c < |d'.fat|) && (c < |d.fat| ==> d.fat[c] == d'.fat[c])
  }

  // ----- The image being built -----

  class Image {
    const clusterCount: int
    var fat: seq<nat>
    var clusters: map<nat, seq<Byte>>
    var nextFree: nat

    ghost predicate Valid()
      reads this
    {
      && 2 <= nextFree <= clusterCount + 2 && |fat| == nextFree
      && (forall c: nat :: c in clusters <==> 2 <= c < nextFree)
    }

    function Contents(): Disk
      reads this
    {
      Disk(fat, clusters)
    }

    /** An image too small for FAT32 is refused */
    constructor (mib: nat)
      requires LargeEnough(mib)
      ensures Valid() && nextFree == 2 && clusterCount == ClusterCount(mib)
      ensures Contents() == Disk([0x0FFF_FFF8, 0x0FFF_FFFF], map[])
    {
      clusterCount := ClusterCount(mib);
      fat := [0x0FFF_FFF8, END_OF_CHAIN];
      clusters := map[];
      nextFree := 2;
    }

    /** One more cluster, and its entry in the FAT */
    method Append(sector: seq<Byte>, entry: nat)
      requires Valid() && nextFree < clusterCount + 2
      modifies this
      ensures Valid() && nextFree == old(nextFree) + 1 && Extends(old(Contents()), Contents())
      ensures clusters[old(nextFree)] == sector && fat[old(nextFree)] == entry
    {
      clusters := clusters[nextFree := sector];
      fat := fat + [entry];
      nextFree := nextFree + 1;
    }

    /** allocate: a new chain right after the last, or a refusal if it does not fit */
    method Allocate(data: seq<Byte>) returns (ok: bool, first: nat)
      requires Valid()
      modifies this
      ensures Valid()
      ensures ok <==> data == [] || old(nextFree) + Count(|data|) <= clusterCount + 2
      ensures !ok ==> Contents() == old(Contents()) && nextFree == old(nextFree)
      ensures ok ==> nextFree == old(nextFree) + Count(|data|) && first == (if data == [] then 0 else old(nextFree))
      ensures ok ==> ChainHolds(Contents(), old(nextFree), data) && Agree(old(Contents()), Contents(), 0, old(nextFree))
    {
      hide SectorOf, Agree, LinkHolds, Extends;
      if data == [] {
        AgreeItself(Contents(), 0, nextFree);
        return true, 0;
      }
      var count := (|data| + SECTOR - 1) / SECTOR;
      first := nextFree;
      if first + count > clusterCount + 2 {
        return false, first;
      }
      AgreeItself(Contents(), 0, first);
      for i := 0 to count
        invariant nextFree == first + i && Valid()
        invariant forall k | 0 <= k < i :: LinkHolds(Contents(), first, data, k)
        invariant Agree(old(Contents()), Contents(), 0, first)
      {
        var sector :=
          if SECTOR * (i + 1) <= |data| then data[SECTOR * i..SECTOR * (i + 1)]
          else data[SECTOR * i..] + Zeros(SECTOR * (i + 1) - |data|);
        SectorIs(data, i, sector);
        ghost var before := Contents();
        Append(sector, if i + 1 < count then first + i + 1 else END_OF_CHAIN);
        NewLink(Contents(), first, data, i);
        forall k | 0 <= k < i
          ensures LinkHolds(Contents(), first, data, k)
        {
          LinkStays(before, Contents(), first, data, k);
        }
        AgreeStays(old(Contents()), before, Contents(), first);
      }
      ok := true;
    }
  }

  lemma AgreeItself(d: Disk, lo: nat, hi: nat)
    ensures Agree(d, d, lo, hi)
  {
  }

  /** A cluster put after all others */
  ghost predicate Extends(d: Disk, d': Disk) {
    && |d'.fat| == |d.fat| + 1 && (forall c | 0 <= c < |d.fat| :: d'.fat[c] == d.fat[c])
    && (forall c: nat | c < |d.fat| ::
        (c in d'.clusters <==> c in d.clusters) && (c in d.clusters ==> d'.clusters[c] == d.clusters[c]))
  }

  lemma AgreeStays(d0: Disk, d: Disk, d': Disk, hi: nat)
    requires Agree(d0, d, 0, hi) && Extends(d, d') && hi <= |d.fat|
    ensures Agree(d0, d', 0, hi)
  {
    forall c | 0 <= c < hi
      ensures (c in d0.clusters <==> c in d'.clusters) && (c in d0.clusters ==> d0.clusters[c] == d'.clusters[c])
      ensures (c < |d0.fat| <==> c < |d'.fat|) && (c < |d0.fat| ==> d0.fat[c] == d'.fat[c])
    {
      assert c in d0.clusters <==> c in d.clusters;
    }
  }

  lemma LinkStays(d: Disk, d': Disk, first: nat, data: seq<Byte>, k: nat)
    requires k < Count(|data|) && LinkHolds(d, first, data, k) && Extends(d, d')
    ensures LinkHolds(d', first, data, k)
  {
    hide SectorOf;
  }

  lemma NewLink(d: Disk, first: nat, data: seq<Byte>, i: nat)
    requires i < Count(|data|) && first + i in d.clusters && d.clusters[first + i] == SectorOf(data, i)
    requires |d.fat| == first + i + 1 && d.fat[first + i] ==
             if i + 1 < Count(|data|) then first + i + 1 else END_OF_CHAIN
    ensures LinkHolds(d, first, data, i)
  {
  }

  lemma SectorIs(data: seq<Byte>, i: nat, sector: seq<Byte>)
    requires i < Count(|data|)
    requires sector == if SECTOR * (i + 1) <= |data| then data[SECTOR * i..SECTOR * (i + 1)]
                       else data[SECTOR * i..] + Zeros(SECTOR * (i + 1) - |data|)
    ensures sector == SectorOf(data, i)
  {
  }
}
