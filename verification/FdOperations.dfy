/** What each operation on open files does, step by step, whatever the other threads do in
    between: what it stores, what it gives back, and that it touches nothing else.
 */
module FdOperations {
  import opened Common
  import opened FdProtocol
  import opened FdInvariant
  import opened FdThreads
  import opened FdTeardown
  import opened FdCounts
  import opened FdTheorems

  /** The same but for what is kept in these places */
  ghost predicate SameElsewhere(m: Memory, m': Memory, places: set<Place>) {
    && m' == m.(places := m'.places)
    && forall q | q !in places :: Lookup(m', q) == Lookup(m, q)
  }

  // ----- Slots -----

  /** What a reachable thread knows at the point where it writes */
  lemma SeenIsThere(s: State, t: Thread)
    requires Reachable(s) && s.PcOf(t).Seen?
    ensures Knows(s.mem, t, s.PcOf(t))
  {
    hide RefsOk, StagesOk, SerialsOk, TornOk, NodesOk, PipesOk, EndsOk, Knows, LockOk, Owns;
    ReachableInv(s);
    assert ThreadOk(s.mem, t, s.PcOf(t));
  }

  /** fd_slot_set: the slot has what the thread passed, or nothing; the thread has what was in
      the slot, in place of what it passed */
  lemma SetExchanges(s: State, t: Thread, n: nat, p: Place, h: Option<nat>)
    requires Reachable(s) && s.PcOf(t).Seen? && s.PcOf(t).op == SetSlot(p, h) && Hand(t, n) !in s.mem.places
    ensures Step(s, t, Act(n)).Some?
    ensures var m, m' := s.mem, Step(s, t, Act(n)).value.mem;
            && Lookup(m', p) == (if h.Some? then Lookup(m, Hand(t, h.value)) else None)
            && Lookup(m', Hand(t, n)) == Lookup(m, p)
            && (h.Some? ==> Lookup(m', Hand(t, h.value)).None? && Lookup(m', p).Some?)
            && SameElsewhere(m, m', {p, Hand(t, n)} + (if h.Some? then {Hand(t, h.value)} else {}))
  {
    hide Reachable;
    SeenIsThere(s, t);
  }

  /** fd_slot_dup: the thread gets one more reference to the file in the slot, which stays
      there; an empty slot changes nothing */
  lemma DupSlotShares(s: State, t: Thread, n: nat, p: Place)
    requires Reachable(s) && s.PcOf(t).Seen? && s.PcOf(t).op == DupSlot(p) && Hand(t, n) !in s.mem.places
    ensures Step(s, t, Act(n)).Some?
    ensures var m, m' := s.mem, Step(s, t, Act(n)).value.mem;
            if Lookup(m, p).None? then m' == m
            else && Lookup(m', Hand(t, n)) == Lookup(m, p) == Lookup(m', p)
                 && Shared(m, m', Lookup(m, p).value, Hand(t, n))
  {
    hide Reachable, RefsOk;
    SeenIsThere(s, t);
    ReachableRefs(s);
    if Lookup(s.mem, p).Some? {
      NamedIsAlive(s.mem, p);
    }
  }

  lemma ReachableRefs(s: State)
    requires Reachable(s)
    ensures RefsOk(s.mem)
  {
    hide RefsOk, ThreadsOk, StagesOk, SerialsOk, TornOk, NodesOk, PipesOk, EndsOk;
    ReachableInv(s);
  }

  /** One more reference, kept at a place that was free, and nothing else */
  ghost predicate Shared(m: Memory, m': Memory, f: FileId, p: Place) {
    && f in m.files && f in m'.files
    && m'.files[f] == m.files[f].(refs := m.files[f].refs + 1)
    && m' == m.(files := m'.files, places := m'.places)
    && (forall g | g != f :: (g in m'.files <==> g in m.files) && (g in m.files ==> m'.files[g] == m.files[g]))
    && Lookup(m', p) == Some(f)
    && (forall q | q != p :: Lookup(m', q) == Lookup(m, q))
  }

  /** A table's slot that is read is the one asked for */
  lemma LooksAtTheSlot(s: State, t: Thread)
    requires s.PcOf(t).Locked? && !s.PcOf(t).op.Install?
    ensures Step(s, t, Look).Some?
    ensures var s' := Step(s, t, Look).value;
            s'.mem == s.mem && s'.PcOf(t) == Seen(s.PcOf(t).op, Lookup(s.mem, s.PcOf(t).op.slot))
  {
  }

  /** A slot operation on its own, from the call to the return */
  function Alone(t: Thread, op: SlotOp, n: nat): seq<(Thread, Action)> {
    [(t, Begin(op)), (t, Acquire), (t, Look), (t, Act(n)), (t, Release)]
  }

  /** The lock taken and the slot read */
  lemma AloneReads(s: State, t: Thread, op: SlotOp, n: nat)
    requires s.PcOf(t).Idle? && CanBegin(s.mem, t, op) && s.mem.slotLock.None? && !op.Install?
    ensures var seen := Seen(op, Lookup(s.mem, op.slot));
            RunFrom(s, Alone(t, op, n))
            == RunFrom(State(s.mem.(slotLock := Some(t)), s.pcs[t := seen]), [(t, Act(n)), (t, Release)])
  {
    hide RunFrom, CanBegin;
    var trace := Alone(t, op, n);
    var locked := State(s.mem.(slotLock := Some(t)), s.pcs[t := Locked(op)]);
    RunOne(s, trace);
    RunOne(State(s.mem, s.pcs[t := Want(op)]), trace[1..]);
    assert s.pcs[t := Want(op)][t := Locked(op)] == locked.pcs;
    RunOne(locked, trace[1..][1..]);
    assert locked.pcs[t := Seen(op, Lookup(s.mem, op.slot))] == s.pcs[t := Seen(op, Lookup(s.mem, op.slot))];
    assert trace[1..][1..][1..] == [(t, Act(n)), (t, Release)];
  }

  /** The slot written and the lock left */
  lemma AloneWrites(s: State, t: Thread, n: nat)
    requires s.PcOf(t).Seen?
    ensures var done := DoAct(s.mem, t, s.PcOf(t), n);
            done.Some? && done.value.1.Finished?
            ==> RunFrom(s, [(t, Act(n)), (t, Release)])
                == Some(State(done.value.0.(slotLock := None), s.pcs[t := Idle]))
  {
    hide RunFrom, DoAct;
    var trace := [(t, Act(n)), (t, Release)];
    var done := DoAct(s.mem, t, s.PcOf(t), n);
    if done.Some? && done.value.1.Finished? {
      var after := State(done.value.0, s.pcs[t := done.value.1]);
      RunOne(s, trace);
      RunOne(after, trace[1..]);
      assert after.pcs[t := Idle] == s.pcs[t := Idle];
      RunNone(State(done.value.0.(slotLock := None), s.pcs[t := Idle]), trace[1..][1..]);
    }
  }

  lemma RunNone(s: State, trace: seq<(Thread, Action)>)
    requires trace == []
    ensures RunFrom(s, trace) == Some(s)
  {
  }

  lemma RunOne(s: State, trace: seq<(Thread, Action)>)
    requires trace != []
    ensures RunFrom(s, trace) ==
            match Step(s, trace[0].0, trace[0].1) case None => None case Some(next) => RunFrom(next, trace[1..])
  {
  }

  /** dup2 and close go through a slot this way: from the call to the return what was passed
      and what was in the slot change places, and both locks are as they were */
  lemma SetAlone(s: State, t: Thread, n: nat, p: Place, h: Option<nat>)
    requires s.PcOf(t).Idle? && s.mem.slotLock.None? && IsSlot(p) && Hand(t, n) !in s.mem.places
    requires h.Some? ==> Hand(t, h.value) in s.mem.places
    ensures var r := RunFrom(s, Alone(t, SetSlot(p, h), n));
            && r.Some? && r.value.pcs == s.pcs[t := Idle]
            && Lookup(r.value.mem, p) == (if h.Some? then Lookup(s.mem, Hand(t, h.value)) else None)
            && Lookup(r.value.mem, Hand(t, n)) == Lookup(s.mem, p)
            && (h.Some? ==> Lookup(r.value.mem, Hand(t, h.value)).None?)
            && SameElsewhere(s.mem, r.value.mem, {p, Hand(t, n)} + (if h.Some? then {Hand(t, h.value)} else {}))
  {
    hide RunFrom;
    var op := SetSlot(p, h);
    AloneReads(s, t, op, n);
    AloneWrites(State(s.mem.(slotLock := Some(t)), s.pcs[t := Seen(op, Lookup(s.mem, p))]), t, n);
    assert s.pcs[t := Seen(op, Lookup(s.mem, p))][t := Idle] == s.pcs[t := Idle];
  }

  /** Descriptors are 0 to 15 */
  ghost predicate InRange(m: Memory) {
    forall p | p in m.places && p.Slot? :: p.fd < 16
  }

  lemma RangeOfAct(m: Memory, t: Thread, pc: Pc, n: nat)
    requires Knows(m, t, pc) && InRange(m) && DoAct(m, t, pc, n).Some?
    ensures InRange(DoAct(m, t, pc, n).value.0)
  {
  }

  lemma RangeOfTeardown(m: Memory, t: Thread, f: FileId, at: Counting)
    requires DoTeardown(m, t, f, at).Some?
    ensures DoTeardown(m, t, f, at).value.0.places == m.places
  {
    hide NextProgress;
  }

  lemma RangeKept(m: Memory, t: Thread, pc: Pc, a: Action)
    requires Knows(m, t, pc) && InRange(m) && Do(m, t, pc, a).Some?
    ensures InRange(Do(m, t, pc, a).value.0)
  {
    hide DoAct, DoTeardown;
    if a.Act? {
      RangeOfAct(m, t, pc, a.n);
    } else if a.Teardown? {
      RangeOfTeardown(m, t, pc.file, pc.at);
    } else {
      hide Knows;
    }
  }

  lemma {:induction false} RangeOfRun(s: State, trace: seq<(Thread, Action)>)
    requires Inv(s) && InRange(s.mem) && RunFrom(s, trace).Some?
    ensures InRange(RunFrom(s, trace).value.mem)
    decreases |trace|
  {
    if trace != [] {
      var t, a := trace[0].0, trace[0].1;
      hide RefsOk, StagesOk, SerialsOk, TornOk, NodesOk, PipesOk, EndsOk, Knows, LockOk, Owns, Do, InRange;
      assert ThreadOk(s.mem, t, s.PcOf(t));
      RangeKept(s.mem, t, s.PcOf(t), a);
      hide Inv;
      InvKept(s, t, a);
      RangeOfRun(Step(s, t, a).value, trace[1..]);
    }
  }

  /** Every slot that is ever filled is one of the sixteen */
  lemma SlotsAreSixteen(s: State)
    requires Reachable(s)
    ensures InRange(s.mem)
  {
    hide Inv, RunFrom;
    var trace: seq<(Thread, Action)> :| RunFrom(Initial, trace) == Some(s);
    FdTheorems.Start();
    RangeOfRun(Initial, trace);
  }

  // ----- References -----

  /** file_dup */
  lemma DupShares(s: State, t: Thread, n: nat, n': nat)
    requires Reachable(s) && s.PcOf(t).Idle? && Hand(t, n) in s.mem.places && Hand(t, n') !in s.mem.places
    ensures Step(s, t, Dup(n, n')).Some?
    ensures Shared(s.mem, Step(s, t, Dup(n, n')).value.mem, s.mem.places[Hand(t, n)], Hand(t, n'))
  {
    hide Reachable, RefsOk;
    ReachableRefs(s);
    NamedIsAlive(s.mem, Hand(t, n));
  }

  /** file_close: the reference is gone. If others are left nothing else happens; else the file
      begins to be torn down, by this thread. */
  lemma CloseDropsOne(s: State, t: Thread, n: nat)
    requires Reachable(s) && s.PcOf(t).Idle? && Hand(t, n) in s.mem.places
    ensures Step(s, t, Close(n)).Some?
    ensures var m, s' := s.mem, Step(s, t, Close(n)).value;
            var f := m.places[Hand(t, n)];
            && f in m.files && f in s'.mem.files
            && Lookup(s'.mem, Hand(t, n)).None?
            && (forall q | q != Hand(t, n) :: Lookup(s'.mem, q) == Lookup(m, q))
            && s'.mem.files[f].refs == m.files[f].refs - 1 && s'.mem.files[f].kind == m.files[f].kind
            && s'.mem.files[f].writer == m.files[f].writer
            && (forall g | g in m.files && g != f :: g in s'.mem.files && s'.mem.files[g] == m.files[g])
            && s'.mem.files.Keys == m.files.Keys
            && s'.mem.nodes == m.nodes && s'.mem.ends == m.ends
            && s'.mem.slotLock == m.slotLock && s'.mem.treeLock == m.treeLock
            && (if m.files[f].refs > 1 then s'.PcOf(t).Idle? && s'.mem.files[f].life == m.files[f].life
                else s'.PcOf(t).Closing? && s'.PcOf(t).file == f && s'.mem.files[f].life == Dying(t, Start))
  {
    hide Reachable, RefsOk;
    ReachableRefs(s);
    NamedIsAlive(s.mem, Hand(t, n));
  }

  // ----- Opening -----

  /** A new file, alone in a hand, at an address that was free */
  ghost predicate Made(m: Memory, m': Memory, f: FileId, kind: Kind, p: Place) {
    && f !in m.files && f in m'.files && p !in m.places
    && m'.files[f].kind == kind && m'.files[f].refs == 1 && m'.files[f].writer == Unshut
    && Lookup(m', p) == Some(f)
  }

  /** What was there before is there still */
  ghost predicate Kept(m: Memory, m': Memory) {
    && (forall g | g in m.files :: g in m'.files && m'.files[g] == m.files[g])
    && (forall q | q in m.places :: Lookup(m', q) == Lookup(m, q))
    && m'.nodes == m.nodes && m'.slotLock == m.slotLock
  }

  /** file_open_as starts under the tree lock with a file for the node */
  lemma OpenMakes(s: State, t: Thread, f: FileId, node: nat, writable: bool, n: nat)
    requires s.PcOf(t).Idle? && s.mem.treeLock.None? && f !in s.mem.files && Hand(t, n) !in s.mem.places
    ensures Step(s, t, BeginOpen(f, node, writable, n)).Some?
    ensures var s' := Step(s, t, BeginOpen(f, node, writable, n)).value;
            && s'.mem.treeLock == Some(t)
            && Made(s.mem, s'.mem, f, Vnode(node, writable), Hand(t, n)) && Kept(s.mem, s'.mem)
            && s'.mem.files[f].life == BeingOpened(t) && s'.PcOf(t) == Opening(f, n, ToOpen(None))
  {
  }

  /** Two addresses and two hands that nothing has */
  ghost predicate Free(m: Memory, t: Thread, f: FileId, g: FileId, n: nat, n': nat) {
    f != g && n != n' && {f, g} !! m.files.Keys && {Hand(t, n), Hand(t, n')} !! m.places.Keys
  }

  /** A pipe: one file for each end, of a pipe not used before */
  lemma PipeMakesTwo(s: State, t: Thread, r: FileId, w: FileId, n: nat, n': nat)
    requires s.PcOf(t).Idle? && Free(s.mem, t, r, w, n, n')
    ensures Step(s, t, OpenPipe(r, w, n, n')).Some?
    ensures var m, m' := s.mem, Step(s, t, OpenPipe(r, w, n, n')).value.mem;
            && Made(m, m', r, PipeReader(m.pipes), Hand(t, n)) && Made(m, m', w, PipeWriter(m.pipes), Hand(t, n'))
            && Kept(m, m') && m'.pipes == m.pipes + 1
            && m'.files[r].life.Open? && m'.files[w].life.Open?
  {
  }

  /** A local connection: each side reads the pipe that the other writes */
  lemma PairIsCrossed(s: State, t: Thread, f: FileId, g: FileId, n: nat, n': nat)
    requires s.PcOf(t).Idle? && Free(s.mem, t, f, g, n, n')
    ensures Step(s, t, OpenPair(f, g, n, n')).Some?
    ensures var m, m' := s.mem, Step(s, t, OpenPair(f, g, n, n')).value.mem;
            && m'.files[f].kind.Local? && m'.files[g].kind.Local?
            && m'.files[f].kind.input == m'.files[g].kind.output && m'.files[g].kind.input == m'.files[f].kind.output
            && m'.files[f].kind.input != m'.files[f].kind.output
            && Made(m, m', f, m'.files[f].kind, Hand(t, n)) && Made(m, m', g, m'.files[g].kind, Hand(t, n'))
            && Kept(m, m') && m'.pipes == m.pipes + 2
  {
  }

  // ----- Shutting down -----

  /** file_local_shutdown: whoever is first to take the writer's end closes it; to anyone
      later it does nothing */
  lemma ShutdownTakesTheWriter(s: State, t: Thread, n: nat)
    requires s.PcOf(t).Idle? && Hand(t, n) in s.mem.places
    requires s.mem.places[Hand(t, n)] in s.mem.files && s.mem.files[s.mem.places[Hand(t, n)]].kind.Local?
    ensures Step(s, t, Shutdown(n)).Some?
    ensures var f, s' := s.mem.places[Hand(t, n)], Step(s, t, Shutdown(n)).value;
            if s.mem.files[f].writer.Unshut?
            then && s'.mem == s.mem.(files := s.mem.files[f := s.mem.files[f].(writer := Taken(t))])
                 && s'.PcOf(t) == Shutting(f, n)
            else s'.mem == s.mem && s'.PcOf(t).Idle?
  {
  }

  /** Then the end it writes is closed, once more than before, and the file is shut */
  lemma WriterIsClosed(s: State, t: Thread)
    requires Reachable(s) && s.PcOf(t).Shutting?
    ensures Step(s, t, CloseWriter).Some?
    ensures var f, m, m' := s.PcOf(t).file, s.mem, Step(s, t, CloseWriter).value.mem;
            && f in m.files && m.files[f].kind.Local?
            && m'.files == m.files[f := m.files[f].(writer := Shut)]
            && m'.ends == m.ends[WriteEnd(m.files[f].kind.output) := 1]
            && m' == m.(files := m'.files, ends := m'.ends)
  {
    hide RefsOk, StagesOk, SerialsOk, TornOk, NodesOk, LockOk, Owns, Reachable;
    ReachableInv(s);
    assert ThreadOk(s.mem, t, s.PcOf(t));
    WriterIsOpen(s.mem, t, s.PcOf(t));
  }

  lemma WriterIsOpen(m: Memory, t: Thread, pc: Pc)
    requires Knows(m, t, pc) && pc.Shutting? && PipesOk(m) && EndsOk(m)
    ensures WriteEnd(m.files[pc.file].kind.output) in m.ends && m.ends[WriteEnd(m.files[pc.file].kind.output)] == 0
  {
    var file := m.files[pc.file];
    var e := WriteEnd(file.kind.output);
    assert e in EndsOf(file.kind) && e in Pending(file);
    assert ToClose(m, e);
  }
}
