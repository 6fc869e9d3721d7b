/** An address space as the loader sees it: pages with permissions, and bytes. */
module ElfMemory {
  import opened Common
  import opened ElfFormat

  datatype Perm = Perm(writable: bool, noExecute: bool)

  /** A byte nothing was written to is 0: pages are zeroed when allocated */
  datatype Memory = Memory(pages: map<nat, Perm>, bytes: map<nat, Byte>) {
    ghost predicate Valid() {
      forall a | a in bytes :: PageOf(a) in pages
    }

    function ByteAt(a: nat): Option<Byte> {
      if PageOf(a) !in pages then None
      else Some(if a in bytes then bytes[a] else 0)
    }
  }

  function PageOf(a: nat): nat {
    a / PAGE_SIZE
  }

  function Range(lo: nat, hi: nat): (r: set<nat>)
    ensures forall k: nat :: k in r <==> lo <= k < hi
  {
    if hi <= lo then {} else Range(lo, hi - 1) + {hi - 1}
  }

  // ----- Pages -----

  /** Two segments on one page: writable if either is, executable if either is */
  function Merge(p: Perm, q: Perm): Perm {
    Perm(p.writable || q.writable, p.noExecute && q.noExecute)
  }

  function MapPage(m: Memory, page: nat, perm: Perm): Memory {
    m.(pages := m.pages[page := if page in m.pages then Merge(m.pages[page], perm) else perm])
  }

  /** The pages from `lo` up to `hi` mapped with `perm`, or widened to it */
  function MapPages(m: Memory, lo: nat, hi: nat, perm: Perm): Memory {
    m.(pages := map p | p in m.pages.Keys + Range(lo, hi) ::
         if p !in m.pages then perm else if lo <= p < hi then Merge(m.pages[p], perm) else m.pages[p])
  }

  lemma MapOneMore(m: Memory, lo: nat, hi: nat, perm: Perm)
    requires lo <= hi
    ensures MapPage(MapPages(m, lo, hi, perm), hi, perm) == MapPages(m, lo, hi + 1, perm)
  {
    var one, other := MapPage(MapPages(m, lo, hi, perm), hi, perm), MapPages(m, lo, hi + 1, perm);
    assert one.pages.Keys == other.pages.Keys;
    assert one.pages == other.pages;
  }

  lemma MapNone(m: Memory, lo: nat, perm: Perm)
    ensures MapPages(m, lo, lo, perm) == m
  {
    assert MapPages(m, lo, lo, perm).pages == m.pages;
  }

  // ----- Bytes -----

  function Write(m: Memory, dest: nat, s: seq<Byte>): Memory {
    m.(bytes := map a | a in m.bytes.Keys + Range(dest, dest + |s|) ::
         if dest <= a < dest + |s| then s[a - dest] else m.bytes[a])
  }

  lemma WriteMore(m: Memory, dest: nat, s: seq<Byte>, t: seq<Byte>)
    ensures Write(Write(m, dest, s), dest + |s|, t) == Write(m, dest, s + t)
  {
    var one, other := Write(Write(m, dest, s), dest + |s|, t), Write(m, dest, s + t);
    assert one.bytes.Keys == other.bytes.Keys;
    assert one.bytes == other.bytes;
  }

  lemma WriteNothing(m: Memory, dest: nat)
    ensures Write(m, dest, []) == m
  {
    assert Write(m, dest, []).bytes == m.bytes;
  }

  /** Every page of a range is there */
  ghost predicate Mapped(m: Memory, dest: nat, length: nat) {
    forall a | dest <= a < dest + length :: PageOf(a) in m.pages
  }

  lemma WriteKeepsPages(m: Memory, dest: nat, s: seq<Byte>)
    ensures Write(m, dest, s).pages == m.pages
  {
  }

  lemma WriteValid(m: Memory, dest: nat, s: seq<Byte>)
    requires m.Valid() && Mapped(m, dest, |s|)
    ensures Write(m, dest, s).Valid()
  {
  }

  /** What a write does to each byte */
  lemma WriteAt(m: Memory, dest: nat, s: seq<Byte>, a: nat)
    ensures Write(m, dest, s).ByteAt(a)
            == if dest <= a < dest + |s| && PageOf(a) in m.pages then Some(s[a - dest]) else m.ByteAt(a)
  {
    assert a in Write(m, dest, s).bytes <==> a in m.bytes || a in Range(dest, dest + |s|);
  }

  // ----- The address space itself -----

  class Space {
    var mem: Memory
    /** Set once a frame could not be had or the disk could not be read */
    var trouble: bool

    constructor (m: Memory)
      ensures mem == m && !trouble
    {
      mem := m;
      trouble := false;
    }

    /** Frames, and the disk: available or not */
    method Chance() returns (ok: bool)
      modifies `trouble
      ensures ok == !trouble
      ensures old(trouble) ==> trouble
    {
      if * {
        trouble := true;
      }
      ok := !trouble;
    }

    /** vmm_copy_to_space: page by page, as far as pages are mapped */
    method CopyTo(dest: nat, s: seq<Byte>) returns (done: nat)
      requires dest + |s| <= TWO64
      modifies `mem
      ensures done <= |s| && mem == Write(old(mem), dest, s[..done])
      ensures Mapped(mem, dest, done)
      ensures done < |s| ==> PageOf(dest + done) !in mem.pages
    {
      hide Write, PageOf;
      done := 0;
      WriteNothing(mem, dest);
      while done < |s|
        invariant done <= |s| && mem == Write(old(mem), dest, s[..done])
        invariant Mapped(mem, dest, done)
      {
        var virt := dest + done;
        if PageOf(virt) !in mem.pages {
          break;
        }
        var offset := virt % PAGE_SIZE;
        var chunk := PAGE_SIZE - offset;
        if chunk > |s| - done {
          chunk := |s| - done;
        }
        ChunkIsMapped(mem, virt, chunk);
        WriteKeepsPages(mem, virt, s[done..done + chunk]);
        WriteMore(old(mem), dest, s[..done], s[done..done + chunk]);
        assert s[..done] + s[done..done + chunk] == s[..done + chunk];
        mem := Write(mem, virt, s[done..done + chunk]);
        done := done + chunk;
      }
    }
  }

  lemma ChunkIsMapped(m: Memory, virt: nat, chunk: nat)
    requires PageOf(virt) in m.pages && virt % PAGE_SIZE + chunk <= PAGE_SIZE
    ensures Mapped(m, virt, chunk)
  {
    forall a | virt <= a < virt + chunk
      ensures PageOf(a) == PageOf(virt)
    {
      SamePage(virt / PAGE_SIZE, virt % PAGE_SIZE + (a - virt));
      assert a == virt / PAGE_SIZE * PAGE_SIZE + (virt % PAGE_SIZE + (a - virt));
    }
  }

  lemma SamePage(page: nat, within: nat)
    requires within < PAGE_SIZE
    ensures (page * PAGE_SIZE + within) / PAGE_SIZE == page
  {
  }
}
