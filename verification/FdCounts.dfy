/** The counts kept beside the files: how often a node is open and open for writing,
    and how often each end of each pipe has been closed.
 */
module FdCounts {
  import opened Common
  import opened FdProtocol
  import opened FdInvariant
  import opened FdThreads
  import opened FdTeardown

  // ----- Nodes -----

  /** The node whose open_count has the file in it */
  function OpensOn(m: Memory, f: FileId): Option<nat> {
    if f in m.files && m.files[f].kind.Vnode? && m.files[f].opens then Some(m.files[f].kind.node) else None
  }

  /** The node whose write_count has the file in it */
  function WritesOn(m: Memory, f: FileId): Option<nat> {
    if f in m.files && m.files[f].kind.Vnode? && m.files[f].writes then Some(m.files[f].kind.node) else None
  }

  ghost function OpenOn(m: Memory, node: nat): set<FileId> {
    set f | f in m.files && OpensOn(m, f) == Some(node)
  }

  ghost function WritingOn(m: Memory, node: nat): set<FileId> {
    set f | f in m.files && WritesOn(m, f) == Some(node)
  }

  /** A node's counts are the numbers of files that were counted there and not yet
      counted off */
  ghost predicate NodesOk(m: Memory) {
    forall node: nat :: CountsOf(m, node) == Counts(|OpenOn(m, node)|, |WritingOn(m, node)|)
  }

  lemma SameTallies(m: Memory, m': Memory)
    requires NodesOk(m) && m'.nodes == m.nodes
    requires forall f :: OpensOn(m', f) == OpensOn(m, f) && WritesOn(m', f) == WritesOn(m, f)
    ensures NodesOk(m')
  {
    hide OpenOn, WritingOn;
    forall node: nat
      ensures CountsOf(m', node) == Counts(|OpenOn(m', node)|, |WritingOn(m', node)|)
    {
      assert CountsOf(m', node) == CountsOf(m, node);
      SameOpen(m, m', node);
      SameWriting(m, m', node);
    }
  }

  lemma SameOpen(m: Memory, m': Memory, node: nat)
    requires forall f :: OpensOn(m', f) == OpensOn(m, f)
    ensures OpenOn(m', node) == OpenOn(m, node)
  {
    forall f
      ensures f in OpenOn(m', node) <==> f in OpenOn(m, node)
    {
      assert OpensOn(m', f) == OpensOn(m, f);
    }
  }

  lemma SameWriting(m: Memory, m': Memory, node: nat)
    requires forall f :: WritesOn(m', f) == WritesOn(m, f)
    ensures WritingOn(m', node) == WritingOn(m, node)
  {
    forall f
      ensures f in WritingOn(m', node) <==> f in WritingOn(m, node)
    {
      assert WritesOn(m', f) == WritesOn(m, f);
    }
  }

  /** `without` lacks only the file `f` of what `with` counts as open */
  lemma OneMoreOpen(without: Memory, with: Memory, f: FileId, node: nat)
    requires OpensOn(without, f).None? && OpensOn(with, f).Some?
    requires forall g | g != f :: OpensOn(with, g) == OpensOn(without, g)
    ensures |OpenOn(with, node)| == |OpenOn(without, node)| + (if OpensOn(with, f) == Some(node) then 1 else 0)
  {
    var more := if OpensOn(with, f) == Some(node) then {f} else {};
    forall g
      ensures g in OpenOn(with, node) <==> g in OpenOn(without, node) + more
    {
      if g != f {
        assert OpensOn(with, g) == OpensOn(without, g);
      }
    }
    assert OpenOn(with, node) == OpenOn(without, node) + more;
    assert f !in OpenOn(without, node);
  }

  lemma OneMoreWriting(without: Memory, with: Memory, f: FileId, node: nat)
    requires WritesOn(without, f).None? && WritesOn(with, f).Some?
    requires forall g | g != f :: WritesOn(with, g) == WritesOn(without, g)
    ensures |WritingOn(with, node)| == |WritingOn(without, node)| + (if WritesOn(with, f) == Some(node) then 1 else 0)
  {
    var more := if WritesOn(with, f) == Some(node) then {f} else {};
    forall g
      ensures g in WritingOn(with, node) <==> g in WritingOn(without, node) + more
    {
      if g != f {
        assert WritesOn(with, g) == WritesOn(without, g);
      }
    }
    assert WritingOn(with, node) == WritingOn(without, node) + more;
    assert f !in WritingOn(without, node);
  }

  /** A file comes into its node's open_count, which is written one higher than it is */
  lemma OpenAdded(m: Memory, m': Memory, f: FileId)
    requires NodesOk(m) && OpensOn(m, f).None? && OpensOn(m', f).Some?
    requires forall g | g != f :: OpensOn(m', g) == OpensOn(m, g)
    requires forall g :: WritesOn(m', g) == WritesOn(m, g)
    requires var node := OpensOn(m', f).value; m'.nodes == WithOpen(m, node, CountsOf(m, node).open + 1).nodes
    ensures NodesOk(m')
  {
    hide OpenOn, WritingOn, OpensOn, WritesOn;
    forall node: nat
      ensures CountsOf(m', node) == Counts(|OpenOn(m', node)|, |WritingOn(m', node)|)
    {
      assert CountsOf(m, node) == Counts(|OpenOn(m, node)|, |WritingOn(m, node)|);
      OneMoreOpen(m, m', f, node);
      SameWriting(m, m', node);
    }
  }

  lemma WritingAdded(m: Memory, m': Memory, f: FileId)
    requires NodesOk(m) && WritesOn(m, f).None? && WritesOn(m', f).Some?
    requires forall g | g != f :: WritesOn(m', g) == WritesOn(m, g)
    requires forall g :: OpensOn(m', g) == OpensOn(m, g)
    requires var node := WritesOn(m', f).value; m'.nodes == WithWrite(m, node, CountsOf(m, node).write + 1).nodes
    ensures NodesOk(m')
  {
    hide OpenOn, WritingOn, OpensOn, WritesOn;
    forall node: nat
      ensures CountsOf(m', node) == Counts(|OpenOn(m', node)|, |WritingOn(m', node)|)
    {
      assert CountsOf(m, node) == Counts(|OpenOn(m, node)|, |WritingOn(m, node)|);
      OneMoreWriting(m, m', f, node);
      SameOpen(m, m', node);
    }
  }

  /** The file is one of those its node counts, so there is something to take off */
  lemma OpenIsCounted(m: Memory, f: FileId, node: nat)
    requires NodesOk(m) && OpensOn(m, f) == Some(node)
    ensures CountsOf(m, node).open > 0
  {
    assert CountsOf(m, node) == Counts(|OpenOn(m, node)|, |WritingOn(m, node)|);
    assert f in OpenOn(m, node);
  }

  lemma WritingIsCounted(m: Memory, f: FileId, node: nat)
    requires NodesOk(m) && WritesOn(m, f) == Some(node)
    ensures CountsOf(m, node).write > 0
  {
    assert CountsOf(m, node) == Counts(|OpenOn(m, node)|, |WritingOn(m, node)|);
    assert f in WritingOn(m, node);
  }

  lemma OpenTakenOff(m: Memory, m': Memory, f: FileId)
    requires NodesOk(m) && OpensOn(m, f).Some? && OpensOn(m', f).None?
    requires forall g | g != f :: OpensOn(m', g) == OpensOn(m, g)
    requires forall g :: WritesOn(m', g) == WritesOn(m, g)
    requires var node := OpensOn(m, f).value;
             CountsOf(m, node).open > 0 && m'.nodes == WithOpen(m, node, CountsOf(m, node).open - 1).nodes
    ensures NodesOk(m')
  {
    hide OpenOn, WritingOn, OpensOn, WritesOn;
    forall node: nat
      ensures CountsOf(m', node) == Counts(|OpenOn(m', node)|, |WritingOn(m', node)|)
    {
      assert CountsOf(m, node) == Counts(|OpenOn(m, node)|, |WritingOn(m, node)|);
      OneMoreOpen(m', m, f, node);
      SameWriting(m, m', node);
    }
  }

  lemma WritingTakenOff(m: Memory, m': Memory, f: FileId)
    requires NodesOk(m) && WritesOn(m, f).Some? && WritesOn(m', f).None?
    requires forall g | g != f :: WritesOn(m', g) == WritesOn(m, g)
    requires forall g :: OpensOn(m', g) == OpensOn(m, g)
    requires var node := WritesOn(m, f).value;
             CountsOf(m, node).write > 0 && m'.nodes == WithWrite(m, node, CountsOf(m, node).write - 1).nodes
    ensures NodesOk(m')
  {
    hide OpenOn, WritingOn, OpensOn, WritesOn;
    forall node: nat
      ensures CountsOf(m', node) == Counts(|OpenOn(m', node)|, |WritingOn(m', node)|)
    {
      assert CountsOf(m, node) == Counts(|OpenOn(m, node)|, |WritingOn(m, node)|);
      OneMoreWriting(m', m, f, node);
      SameOpen(m, m', node);
    }
  }

  /** What a thread wrote is one more than the count is, because what it read has not
      changed since: nobody else has had the tree lock */
  lemma CountOpenNodes(m: Memory, t: Thread, pc: Pc)
    requires NodesOk(m) && Knows(m, t, pc) && pc.Opening?
    ensures DoCountOpen(m, pc.file, pc.n, pc.at).Some? && NodesOk(DoCountOpen(m, pc.file, pc.n, pc.at).value.0)
  {
    hide NodesOk;
    var m' := DoCountOpen(m, pc.file, pc.n, pc.at).value.0;
    if pc.at.seen.None? {
    } else if pc.at.ToOpen? {
      OpenAdded(m, m', pc.file);
    } else {
      WritingAdded(m, m', pc.file);
    }
  }

  /** Two threads that each know all that Knows says, but of which neither keeps the
      other out: both have read the same count, and the second to write loses what the
      first has written */
  lemma UnlockedUpdateIsLost(m: Memory, t: Thread, pc: Pc, u: Thread, pcu: Pc)
    requires NodesOk(m) && t != u && Knows(m, t, pc) && Knows(m, u, pcu)
    requires pc.Opening? && pc.at.ToOpen? && pc.at.seen.Some? && pcu.Opening? && pcu.at.ToOpen? && pcu.at.seen.Some?
    requires m.files[pc.file].kind.node == m.files[pcu.file].kind.node
    ensures Do(m, t, pc, CountOpen).Some? && Do(Do(m, t, pc, CountOpen).value.0, u, pcu, CountOpen).Some?
    ensures var (m', node) := (Do(Do(m, t, pc, CountOpen).value.0, u, pcu, CountOpen).value.0,
                               m.files[pc.file].kind.node);
            CountsOf(m', node).open == |OpenOn(m', node)| - 1
  {
    hide OpenOn, WritingOn;
    var node := m.files[pc.file].kind.node;
    var m1 := Do(m, t, pc, CountOpen).value.0;
    var m2 := Do(m1, u, pcu, CountOpen).value.0;
    assert CountsOf(m, node) == Counts(|OpenOn(m, node)|, |WritingOn(m, node)|);
    OneMoreOpen(m, m1, pc.file, node);
    OneMoreOpen(m1, m2, pcu.file, node);
  }

  lemma UncountNodes(m: Memory, t: Thread, pc: Pc)
    requires NodesOk(m) && Knows(m, t, pc) && pc.Closing? && m.files[pc.file].life.stage.TreeHeld?
    ensures DoUncount(m, pc.file, pc.at).Some? && NodesOk(DoUncount(m, pc.file, pc.at).value.0)
  {
    hide NodesOk;
    var node := m.files[pc.file].kind.node;
    if pc.at.seen.None? {
    } else if pc.at.ToOpen? {
      OpenIsCounted(m, pc.file, node);
      OpenTakenOff(m, DoUncount(m, pc.file, pc.at).value.0, pc.file);
    } else {
      WritingIsCounted(m, pc.file, node);
      WritingTakenOff(m, DoUncount(m, pc.file, pc.at).value.0, pc.file);
    }
  }

  lemma TeardownNodes(m: Memory, t: Thread, pc: Pc)
    requires NodesOk(m) && StagesOk(m) && ThreadOk(m, t, pc) && pc.Closing? && DoTeardown(m, t, pc.file, pc.at).Some?
    ensures NodesOk(DoTeardown(m, t, pc.file, pc.at).value.0)
  {
    hide NodesOk, DoUncount, NextProgress, LockOk, Owns;
    if m.files[pc.file].life.stage.TreeHeld? {
      UncountNodes(m, t, pc);
    } else {
      assert FileOk(m.files[pc.file]);
      SameTallies(m, DoTeardown(m, t, pc.file, pc.at).value.0);
    }
  }

  lemma CloseNodes(s: State, t: Thread, n: nat)
    requires RefsOk(s.mem) && (forall u: Thread :: ThreadOk(s.mem, u, s.PcOf(u))) && NodesOk(s.mem) && s.PcOf(t).Idle?
    requires DoClose(s.mem, t, n).Some?
    ensures NodesOk(DoClose(s.mem, t, n).value.0)
  {
    hide RefsOk, ThreadOk, NodesOk;
    ClosedWasOpened(s, t, n);
    SameTallies(s.mem, DoClose(s.mem, t, n).value.0);
  }

  /** A new file is not yet counted */
  lemma NewTally(m: Memory, f: FileId, kind: Kind, life: Life, p: Place, m': Memory)
    requires f !in m.files
    requires m'.files == NewFile(m, f, kind, life, p).files && m'.nodes == NewFile(m, f, kind, life, p).nodes
    ensures m'.nodes == m.nodes && forall g :: OpensOn(m', g) == OpensOn(m, g) && WritesOn(m', g) == WritesOn(m, g)
  {
  }

  lemma NewTwoTally(m: Memory, t: Thread, f: FileId, k: Kind, g: FileId, l: Kind, n: nat, n': nat, m': Memory)
    requires CanOpenTwo(m, t, f, g, n, n') && !k.Vnode? && !l.Vnode?
    requires m'.files == NewTwo(m, t, f, k, g, l, n, n').files && m'.nodes == NewTwo(m, t, f, k, g, l, n, n').nodes
    ensures m'.nodes == m.nodes && forall h :: OpensOn(m', h) == OpensOn(m, h) && WritesOn(m', h) == WritesOn(m, h)
  {
  }

  lemma ActTallies(m: Memory, t: Thread, pc: Pc, n: nat)
    requires DoAct(m, t, pc, n).Some?
    ensures var m' := DoAct(m, t, pc, n).value.0;
            m'.nodes == m.nodes && forall f :: OpensOn(m', f) == OpensOn(m, f) && WritesOn(m', f) == WritesOn(m, f)
  {
    if pc.Seen? && pc.op.DupSlot? && pc.seen.Some? {
    } else {
      assert DoAct(m, t, pc, n).value.0.files == m.files;
    }
  }

  lemma NodesKept(s: State, t: Thread, a: Action)
    requires RefsOk(s.mem) && (forall u: Thread :: ThreadOk(s.mem, u, s.PcOf(u))) && StagesOk(s.mem) && NodesOk(s.mem)
    requires Do(s.mem, t, s.PcOf(t), a).Some?
    ensures NodesOk(Do(s.mem, t, s.PcOf(t), a).value.0)
  {
    hide RefsOk, ThreadOk, NodesOk, StagesOk, DoAct, DoTeardown, DoClose, DoCountOpen, DoRefuseOpen, NewFile, NewTwo;
    var m, pc := s.mem, s.PcOf(t);
    var m' := Do(m, t, pc, a).value.0;
    assert ThreadOk(m, t, pc);
    match a
    case BeginOpen(f, node, writable, n) =>
      NewTally(m, f, Vnode(node, writable), BeingOpened(t), Hand(t, n), m');
      SameTallies(m, m');
    case OpenOther(f, n) =>
      NewTally(m, f, Other, Open, Hand(t, n), m');
      SameTallies(m, m');
    case OpenPipe(r, w, n, n') =>
      NewTwoTally(m, t, r, PipeReader(m.pipes), w, PipeWriter(m.pipes), n, n', m');
      SameTallies(m, m');
    case OpenPair(f, g, n, n') =>
      NewTwoTally(m, t, f, Local(m.pipes, m.pipes + 1), g, Local(m.pipes + 1, m.pipes), n, n', m');
      SameTallies(m, m');
    case CountOpen => CountOpenKnown(m, t, pc);
    case RefuseOpen => RefuseNodes(m, t, pc);
    case Act(n) =>
      ActTallies(m, t, pc, n);
      SameTallies(m, m');
    case Close(n) => CloseNodes(s, t, n);
    case Teardown => TeardownNodes(m, t, pc);
    case _ => SameTallies(m, m');
  }

  lemma CountOpenKnown(m: Memory, t: Thread, pc: Pc)
    requires NodesOk(m) && ThreadOk(m, t, pc) && pc.Opening?
    ensures DoCountOpen(m, pc.file, pc.n, pc.at).Some? && NodesOk(DoCountOpen(m, pc.file, pc.n, pc.at).value.0)
  {
    hide NodesOk, Knows, LockOk, Owns, DoCountOpen;
    CountOpenNodes(m, t, pc);
  }

  lemma RefuseNodes(m: Memory, t: Thread, pc: Pc)
    requires NodesOk(m) && ThreadOk(m, t, pc) && pc.Opening? && DoRefuseOpen(m, t, pc.file, pc.n, pc.at).Some?
    ensures NodesOk(DoRefuseOpen(m, t, pc.file, pc.n, pc.at).value.0)
  {
    hide NodesOk, LockOk, Owns;
    SameTallies(m, DoRefuseOpen(m, t, pc.file, pc.n, pc.at).value.0);
  }

  // ----- Pipes -----

  function EndsOf(kind: Kind): set<PipeEnd> {
    match kind
    case PipeReader(pipe) => {ReadEnd(pipe)}
    case PipeWriter(pipe) => {WriteEnd(pipe)}
    case Local(input, output) => {ReadEnd(input), WriteEnd(output)}
    case Vnode(_, _) => {}
    case Other => {}
  }

  /** The ends that a file's life still has to close */
  function Pending(file: File): set<PipeEnd> {
    match file.kind
    case Local(input, output) =>
      (if file.life.Dying? && !file.life.stage.Start? then {} else {ReadEnd(input)})
      + (if file.writer.Shut? then {} else {WriteEnd(output)})
    case _ => if file.life.Dying? && file.life.stage.CanFree? then {} else EndsOf(file.kind)
  }

  /** The ends are those of the pipes made so far; one file at most has an end */
  ghost predicate PipesOk(m: Memory) {
    && (forall e: PipeEnd :: e in m.ends <==> e.pipe < m.pipes)
    && (forall f, e | f in m.files && e in EndsOf(m.files[f].kind) :: e in m.ends)
    && (forall f, g, e | f in m.files && g in m.files && e in EndsOf(m.files[f].kind) && e in EndsOf(m.files[g].kind) ::
        f == g)
  }

  ghost predicate ToClose(m: Memory, e: PipeEnd) {
    exists f :: f in m.files && e in Pending(m.files[f])
  }

  /** An end has been closed once, or not yet and there is a file still to close it */
  ghost predicate EndsOk(m: Memory) {
    forall e: PipeEnd | e in m.ends :: m.ends[e] == if ToClose(m, e) then 0 else 1
  }

  lemma PendingAreEnds(file: File)
    ensures Pending(file) <= EndsOf(file.kind)
  {
  }

  lemma SamePending(m: Memory, m': Memory)
    requires PipesOk(m) && EndsOk(m) && m'.ends == m.ends && m'.pipes == m.pipes && m'.files.Keys == m.files.Keys
    requires forall f | f in m.files ::
               m'.files[f].kind == m.files[f].kind && Pending(m'.files[f]) == Pending(m.files[f])
    ensures PipesOk(m') && EndsOk(m')
  {
    hide EndsOf, Pending;
    forall e: PipeEnd
      ensures ToClose(m', e) == ToClose(m, e)
    {
      if ToClose(m, e) {
        var f :| f in m.files && e in Pending(m.files[f]);
        assert f in m'.files && e in Pending(m'.files[f]);
      }
    }
  }

  /** A file that has no ends, or none left to close, comes or goes */
  lemma PendingElsewhere(m: Memory, m': Memory, f: FileId)
    requires PipesOk(m) && EndsOk(m) && m'.ends == m.ends && m'.pipes == m.pipes
    requires f in m.files ==> Pending(m.files[f]) == {}
    requires f in m'.files ==> EndsOf(m'.files[f].kind) == {} && Pending(m'.files[f]) == {}
    requires forall g | g != f :: (g in m'.files <==> g in m.files) && (g in m.files ==> m'.files[g] == m.files[g])
    ensures PipesOk(m') && EndsOk(m')
  {
    hide EndsOf, Pending;
    forall e: PipeEnd
      ensures ToClose(m', e) == ToClose(m, e)
    {
      if ToClose(m, e) {
        var g :| g in m.files && e in Pending(m.files[g]);
        assert g in m'.files && e in Pending(m'.files[g]);
      }
    }
  }

  /** A file closes one of the ends it still has to close */
  lemma ClosesOne(m: Memory, m': Memory, f: FileId, e: PipeEnd)
    requires PipesOk(m) && EndsOk(m) && m'.ends == CloseEnd(m, e).ends && m'.pipes == m.pipes
    requires f in m.files && m'.files.Keys == m.files.Keys && m'.files[f].kind == m.files[f].kind
    requires e in Pending(m.files[f]) && Pending(m'.files[f]) == Pending(m.files[f]) - {e}
    requires forall g | g in m.files && g != f :: m'.files[g] == m.files[g]
    ensures PipesOk(m') && EndsOk(m')
  {
    PendingAreEnds(m.files[f]);
    ClosesOnePipes(m, m', f, e);
    forall d: PipeEnd | d in m.ends
      ensures ToClose(m', d) == (ToClose(m, d) && d != e)
    {
      ClosesOneLeft(m, m', f, e, d);
    }
    hide EndsOf, Pending;
  }

  lemma ClosesOnePipes(m: Memory, m': Memory, f: FileId, e: PipeEnd)
    requires PipesOk(m) && e in m.ends && m'.ends == CloseEnd(m, e).ends && m'.pipes == m.pipes
    requires m'.files.Keys == m.files.Keys
    requires forall g | g in m.files :: m'.files[g].kind == m.files[g].kind
    ensures PipesOk(m')
  {
    hide EndsOf, Pending;
  }

  lemma ClosesOneLeft(m: Memory, m': Memory, f: FileId, e: PipeEnd, d: PipeEnd)
    requires PipesOk(m) && f in m.files && m'.files.Keys == m.files.Keys
    requires e in Pending(m.files[f]) && Pending(m'.files[f]) == Pending(m.files[f]) - {e}
    requires forall g | g in m.files && g != f :: m'.files[g] == m.files[g]
    ensures ToClose(m', d) == (ToClose(m, d) && d != e)
  {
    hide EndsOf, Pending;
    if ToClose(m, d) && d != e {
      var g :| g in m.files && d in Pending(m.files[g]);
      assert g in m'.files && d in Pending(m'.files[g]);
    }
    if ToClose(m', e) {
      var g :| g in m'.files && e in Pending(m'.files[g]);
      PendingAreEnds(m.files[g]);
      PendingAreEnds(m.files[f]);
    }
  }

  /** Two new files share out all the ends of new pipes */
  lemma NewTwoEnds(m: Memory, m': Memory, f: FileId, g: FileId)
    requires PipesOk(m) && EndsOk(m) && f !in m.files && g !in m.files && f != g
    requires m'.files.Keys == m.files.Keys + {f, g}
    requires forall h | h in m.files :: m'.files[h] == m.files[h]
    requires m'.pipes >= m.pipes
    requires forall e: PipeEnd :: e in EndsOf(m'.files[f].kind) + EndsOf(m'.files[g].kind) <==>
               m.pipes <= e.pipe < m'.pipes
    requires EndsOf(m'.files[f].kind) !! EndsOf(m'.files[g].kind)
    requires Pending(m'.files[f]) == EndsOf(m'.files[f].kind) && Pending(m'.files[g]) == EndsOf(m'.files[g].kind)
    requires forall e: PipeEnd :: e in m'.ends <==> e.pipe < m'.pipes
    requires forall e: PipeEnd | e in m'.ends :: m'.ends[e] == if e in m.ends then m.ends[e] else 0
    ensures PipesOk(m') && EndsOk(m')
  {
    hide EndsOf, Pending;
    NewTwoPipes(m, m', f, g);
    forall e: PipeEnd | e in m'.ends
      ensures m'.ends[e] == if ToClose(m', e) then 0 else 1
    {
      NewTwoLeft(m, m', f, g, e);
    }
  }

  lemma NewTwoPipes(m: Memory, m': Memory, f: FileId, g: FileId)
    requires PipesOk(m) && f !in m.files && g !in m.files && f != g && m'.files.Keys == m.files.Keys + {f, g}
    requires forall h | h in m.files :: m'.files[h] == m.files[h]
    requires m'.pipes >= m.pipes
    requires forall e: PipeEnd :: e in EndsOf(m'.files[f].kind) + EndsOf(m'.files[g].kind) <==>
               m.pipes <= e.pipe < m'.pipes
    requires EndsOf(m'.files[f].kind) !! EndsOf(m'.files[g].kind)
    requires forall e: PipeEnd :: e in m'.ends <==> e.pipe < m'.pipes
    ensures PipesOk(m')
  {
    hide EndsOf, Pending;
    forall h, e | h in m'.files && e in EndsOf(m'.files[h].kind)
      ensures e in m'.ends
      ensures (h == f || h == g) <==> m.pipes <= e.pipe
    {
      assert e in EndsOf(m'.files[f].kind) + EndsOf(m'.files[g].kind) <==> m.pipes <= e.pipe < m'.pipes;
    }
    forall h, k, e | h in m'.files && k in m'.files && e in EndsOf(m'.files[h].kind) && e in EndsOf(m'.files[k].kind)
      ensures h == k
    {
      assert (h == f || h == g) <==> m.pipes <= e.pipe;
      assert (k == f || k == g) <==> m.pipes <= e.pipe;
    }
  }

  lemma NewTwoLeft(m: Memory, m': Memory, f: FileId, g: FileId, e: PipeEnd)
    requires PipesOk(m) && f !in m.files && g !in m.files && f != g && m'.files.Keys == m.files.Keys + {f, g}
    requires forall h | h in m.files :: m'.files[h] == m.files[h]
    requires e in EndsOf(m'.files[f].kind) + EndsOf(m'.files[g].kind) <==> e !in m.ends
    requires Pending(m'.files[f]) == EndsOf(m'.files[f].kind) && Pending(m'.files[g]) == EndsOf(m'.files[g].kind)
    ensures ToClose(m', e) == (ToClose(m, e) || e !in m.ends)
  {
    hide EndsOf, Pending, PipesOk;
    if e !in m.ends {
      var h := if e in EndsOf(m'.files[f].kind) then f else g;
      assert h in m'.files && e in Pending(m'.files[h]);
    } else if ToClose(m, e) {
      var h :| h in m.files && e in Pending(m.files[h]);
      assert h in m'.files && e in Pending(m'.files[h]);
    }
  }

  lemma OpenPipeEnds(m: Memory, t: Thread, r: FileId, w: FileId, n: nat, n': nat)
    requires PipesOk(m) && EndsOk(m) && DoOpenPipe(m, t, r, w, n, n').Some?
    ensures var m' := DoOpenPipe(m, t, r, w, n, n').value.0; PipesOk(m') && EndsOk(m')
  {
    hide PipesOk, EndsOk;
    PipesAreKnown(m);
    NewTwoEnds(m, DoOpenPipe(m, t, r, w, n, n').value.0, r, w);
  }

  lemma PipesAreKnown(m: Memory)
    requires PipesOk(m)
    ensures forall e: PipeEnd :: e in m.ends <==> e.pipe < m.pipes
  {
  }

  lemma OpenPairEnds(m: Memory, t: Thread, f: FileId, g: FileId, n: nat, n': nat)
    requires PipesOk(m) && EndsOk(m) && DoOpenPair(m, t, f, g, n, n').Some?
    ensures var m' := DoOpenPair(m, t, f, g, n, n').value.0; PipesOk(m') && EndsOk(m')
  {
    hide PipesOk, EndsOk;
    PipesAreKnown(m);
    NewTwoEnds(m, DoOpenPair(m, t, f, g, n, n').value.0, f, g);
  }

  lemma TeardownEnds(m: Memory, t: Thread, pc: Pc)
    requires PipesOk(m) && EndsOk(m) && StagesOk(m) && ThreadOk(m, t, pc) && pc.Closing?
    requires DoTeardown(m, t, pc.file, pc.at).Some?
    ensures var m' := DoTeardown(m, t, pc.file, pc.at).value.0; PipesOk(m') && EndsOk(m')
  {
    hide PipesOk, EndsOk, LockOk, Owns, Pending, NextProgress, DoUncount;
    var f, at := pc.file, pc.at;
    var file, m' := m.files[f], DoTeardown(m, t, f, at).value.0;
    assert FileOk(file);
    match file.life.stage
    case CanFree =>
      NothingLeft(file);
      PendingElsewhere(m, m', f);
    case Start => ProgressEnds(m, t, f, at);
    case TreeHeld =>
      UncountOnly(m, f, at);
      UncountedEnds(m, m', f);
    case TreeDone => ProgressEnds(m, t, f, at);
    case ReaderClosed => ProgressEnds(m, t, f, at);
    case Exchanged => ProgressEnds(m, t, f, at);
  }

  lemma UncountedEnds(m: Memory, m': Memory, f: FileId)
    requires PipesOk(m) && EndsOk(m) && OnlyCounts(m, m', f) && m.files[f].kind.Vnode?
    ensures PipesOk(m') && EndsOk(m')
  {
    hide PipesOk, EndsOk;
    SamePending(m, m');
  }

  lemma NothingLeft(file: File)
    requires FileOk(file) && file.life.Dying? && file.life.stage.CanFree?
    ensures Pending(file) == {}
  {
  }

  /** The end, if any, that the next step of a teardown closes */
  function Closes(file: File): set<PipeEnd>
    requires file.life.Dying?
  {
    match file.life.stage
    case Start =>
      (match file.kind
       case PipeReader(pipe) => {ReadEnd(pipe)}
       case PipeWriter(pipe) => {WriteEnd(pipe)}
       case Local(input, _) => {ReadEnd(input)}
       case Vnode(_, _) => {}
       case Other => {})
    case Exchanged => if file.kind.Local? then {WriteEnd(file.kind.output)} else {}
    case TreeHeld => {}
    case TreeDone => {}
    case ReaderClosed => {}
    case CanFree => {}
  }

  lemma NextPending(m: Memory, t: Thread, file: File)
    requires FileOk(file) && file.life.Dying? && file.life.who == t && NextProgress(m, t, file).Some?
    ensures var p := NextProgress(m, t, file).value;
            && Closes(file) <= Pending(file)
            && Pending(file.(life := Dying(t, p.stage), writer := p.writer)) == Pending(file) - Closes(file)
            && (Closes(file) == {} ==> p.ends == m.ends)
            && (forall e | e in Closes(file) :: Closes(file) == {e} && p.ends == CloseEnd(m, e).ends)
  {
    match file.life.stage
    case Start => StartPending(m, t, file);
    case TreeDone =>
    case ReaderClosed =>
    case Exchanged =>
  }

  lemma StartPending(m: Memory, t: Thread, file: File)
    requires FileOk(file) && file.life == Dying(t, Stage.Start) && NextProgress(m, t, file).Some?
    ensures var p := NextProgress(m, t, file).value;
            && Closes(file) <= Pending(file)
            && Pending(file.(life := Dying(t, p.stage), writer := p.writer)) == Pending(file) - Closes(file)
            && (Closes(file) == {} ==> p.ends == m.ends)
            && (forall e | e in Closes(file) :: Closes(file) == {e} && p.ends == CloseEnd(m, e).ends)
  {
  }

  lemma ProgressEnds(m: Memory, t: Thread, f: FileId, at: Counting)
    requires PipesOk(m) && EndsOk(m) && f in m.files && m.files[f].life.Dying? && m.files[f].life.who == t
    requires FileOk(m.files[f])
    requires DoTeardown(m, t, f, at).Some? && !m.files[f].life.stage.CanFree? && !m.files[f].life.stage.TreeHeld?
    ensures var m' := DoTeardown(m, t, f, at).value.0; PipesOk(m') && EndsOk(m')
  {
    hide PipesOk, EndsOk, NextProgress, Pending, Closes;
    var file, m' := m.files[f], DoTeardown(m, t, f, at).value.0;
    NextPending(m, t, file);
    if Closes(file) == {} {
      SamePending(m, m');
    } else {
      var e :| e in Closes(file);
      ClosesOne(m, m', f, e);
    }
  }

  lemma CloseKeepsEnds(s: State, t: Thread, n: nat)
    requires RefsOk(s.mem) && (forall u: Thread :: ThreadOk(s.mem, u, s.PcOf(u))) && PipesOk(s.mem) && EndsOk(s.mem)
    requires s.PcOf(t).Idle?
    requires DoClose(s.mem, t, n).Some?
    ensures var m' := DoClose(s.mem, t, n).value.0; PipesOk(m') && EndsOk(m')
  {
    hide RefsOk, ThreadOk, PipesOk, EndsOk, DoClose;
    if Hand(t, n) in s.mem.places {
      ClosedWasOpened(s, t, n);
    }
    CloseOfOpen(s.mem, t, n);
  }

  lemma CloseOfOpen(m: Memory, t: Thread, n: nat)
    requires PipesOk(m) && EndsOk(m) && DoClose(m, t, n).Some?
    requires Hand(t, n) in m.places ==> m.places[Hand(t, n)] in m.files && m.files[m.places[Hand(t, n)]].life.Open?
    ensures var m' := DoClose(m, t, n).value.0; PipesOk(m') && EndsOk(m')
  {
    hide PipesOk, EndsOk;
    SamePending(m, DoClose(m, t, n).value.0);
  }

  lemma EndsKept(s: State, t: Thread, a: Action)
    requires RefsOk(s.mem) && (forall u: Thread :: ThreadOk(s.mem, u, s.PcOf(u))) && StagesOk(s.mem) && PipesOk(s.mem)
    requires EndsOk(s.mem)
    requires Do(s.mem, t, s.PcOf(t), a).Some?
    ensures var m' := Do(s.mem, t, s.PcOf(t), a).value.0; PipesOk(m') && EndsOk(m')
  {
    hide RefsOk, ThreadOk, PipesOk, EndsOk, StagesOk, DoAct, DoTeardown, DoClose, DoCountOpen, DoRefuseOpen, DoOpenPipe,
      DoOpenPair;
    var m, pc := s.mem, s.PcOf(t);
    var m' := Do(m, t, pc, a).value.0;
    assert ThreadOk(m, t, pc);
    match a
    case BeginOpen(f, _, _, _) => PendingElsewhere(m, m', f);
    case OpenOther(f, _) => PendingElsewhere(m, m', f);
    case OpenPipe(r, w, n, n') => OpenPipeEnds(m, t, r, w, n, n');
    case OpenPair(f, g, n, n') => OpenPairEnds(m, t, f, g, n, n');
    case CloseWriter => CloseWriterEnds(m, t, pc);
    case CountOpen => CountOpenEnds(m, t, pc);
    case RefuseOpen => RefuseEnds(m, t, pc);
    case Act(n) =>
      ActTorn(m, t, pc, n);
      SamePending(m, m');
    case Close(n) => CloseKeepsEnds(s, t, n);
    case Teardown => TeardownEnds(m, t, pc);
    case _ => SamePending(m, m');
  }

  lemma CountOpenEnds(m: Memory, t: Thread, pc: Pc)
    requires PipesOk(m) && EndsOk(m) && ThreadOk(m, t, pc) && pc.Opening? && DoCountOpen(m, pc.file, pc.n, pc.at).Some?
    ensures var m' := DoCountOpen(m, pc.file, pc.n, pc.at).value.0; PipesOk(m') && EndsOk(m')
  {
    hide PipesOk, EndsOk, DoCountOpen, LockOk, Owns;
    CountOpenOnly(m, pc.file, pc.n, pc.at);
    UncountedEnds(m, DoCountOpen(m, pc.file, pc.n, pc.at).value.0, pc.file);
  }

  lemma RefuseEnds(m: Memory, t: Thread, pc: Pc)
    requires PipesOk(m) && EndsOk(m) && ThreadOk(m, t, pc) && pc.Opening?
    requires DoRefuseOpen(m, t, pc.file, pc.n, pc.at).Some?
    ensures var m' := DoRefuseOpen(m, t, pc.file, pc.n, pc.at).value.0; PipesOk(m') && EndsOk(m')
  {
    hide PipesOk, EndsOk, LockOk, Owns;
    PendingElsewhere(m, DoRefuseOpen(m, t, pc.file, pc.n, pc.at).value.0, pc.file);
  }

  lemma CloseWriterEnds(m: Memory, t: Thread, pc: Pc)
    requires PipesOk(m) && EndsOk(m) && ThreadOk(m, t, pc) && pc.Shutting? && DoCloseWriter(m, pc.file).Some?
    ensures var m' := DoCloseWriter(m, pc.file).value.0; PipesOk(m') && EndsOk(m')
  {
    hide PipesOk, EndsOk, LockOk, Owns;
    var file := m.files[pc.file];
    ClosesOne(m, DoCloseWriter(m, pc.file).value.0, pc.file, WriteEnd(file.kind.output));
  }
}
