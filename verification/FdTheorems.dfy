/** What every run of the open-file protocol keeps, whatever the threads do and in
    whatever order.
 */
module FdTheorems {
  import opened Common
  import opened FdProtocol
  import opened FdInvariant
  import opened FdThreads
  import opened FdTeardown
  import opened FdCounts

  ghost predicate ThreadsOk(s: State) {
    forall t: Thread :: ThreadOk(s.mem, t, s.PcOf(t))
  }

  ghost predicate Inv(s: State) {
    && RefsOk(s.mem) && ThreadsOk(s)
    && StagesOk(s.mem) && SerialsOk(s.mem) && TornOk(s.mem)
    && NodesOk(s.mem) && PipesOk(s.mem) && EndsOk(s.mem)
  }

  lemma Start()
    ensures Inv(Initial)
  {
    assert forall f :: Holders(Initial.mem.places, f) == {};
    forall node: nat
      ensures CountsOf(Initial.mem, node) == Counts(|OpenOn(Initial.mem, node)|, |WritingOn(Initial.mem, node)|)
    {
      assert OpenOn(Initial.mem, node) == {} && WritingOn(Initial.mem, node) == {};
    }
  }

  lemma ThreadsKept(s: State, t: Thread, a: Action)
    requires RefsOk(s.mem) && StagesOk(s.mem) && ThreadsOk(s) && Step(s, t, a).Some?
    ensures ThreadsOk(Step(s, t, a).value)
  {
    hide RefsOk, StagesOk, ThreadOk, Do;
    var s' := Step(s, t, a).value;
    assert ThreadOk(s.mem, t, s.PcOf(t));
    forall u: Thread
      ensures ThreadOk(s'.mem, u, s'.PcOf(u))
    {
      if u == t {
        OwnStep(s.mem, t, s.PcOf(t), a);
      } else {
        assert ThreadOk(s.mem, u, s.PcOf(u));
        StepRely(s.mem, t, s.PcOf(t), a, u, s.PcOf(u));
        RelyKeeps(s.mem, s'.mem, u, s.PcOf(u));
      }
    }
  }

  lemma OwnStep(m: Memory, t: Thread, pc: Pc, a: Action)
    requires RefsOk(m) && StagesOk(m) && ThreadOk(m, t, pc) && Do(m, t, pc, a).Some?
    ensures var (m', pc') := Do(m, t, pc, a).value;
            ThreadOk(m', t, pc')
  {
    hide RefsOk, StagesOk, Knows, LockOk, Owns, Do;
    OwnKnowledge(m, t, pc, a);
    OwnLock(m, t, pc, a);
    OwnFiles(m, t, pc, a);
  }

  lemma InvKept(s: State, t: Thread, a: Action)
    requires Inv(s) && Step(s, t, a).Some?
    ensures Inv(Step(s, t, a).value)
  {
    hide RefsOk, StagesOk, SerialsOk, TornOk, NodesOk, PipesOk, EndsOk, Do;
    ThreadsKept(s, t, a);
    assert ThreadOk(s.mem, t, s.PcOf(t));
    RefsStep(s.mem, t, s.PcOf(t), a);
    hide ThreadOk;
    StagesKept(s, t, a);
    TornKept(s.mem, t, s.PcOf(t), a);
    NodesKept(s, t, a);
    EndsKept(s, t, a);
  }

  lemma RefsStep(m: Memory, t: Thread, pc: Pc, a: Action)
    requires RefsOk(m) && ThreadOk(m, t, pc) && Do(m, t, pc, a).Some?
    ensures RefsOk(Do(m, t, pc, a).value.0)
  {
    hide RefsOk, Knows, LockOk, Owns, Do;
    RefsKept(m, t, pc, a);
  }

  lemma {:induction false} InvRun(s: State, trace: seq<(Thread, Action)>)
    requires Inv(s) && RunFrom(s, trace).Some?
    ensures Inv(RunFrom(s, trace).value)
    decreases |trace|
  {
    hide Inv, Step;
    if trace != [] {
      InvKept(s, trace[0].0, trace[0].1);
      InvRun(Step(s, trace[0].0, trace[0].1).value, trace[1..]);
    }
  }

  // ----- Whole runs -----

  ghost predicate Reachable(s: State) {
    exists trace: seq<(Thread, Action)> :: RunFrom(Initial, trace) == Some(s)
  }

  lemma ReachableInv(s: State)
    requires Reachable(s)
    ensures Inv(s)
  {
    hide Inv, RunFrom;
    var trace: seq<(Thread, Action)> :| RunFrom(Initial, trace) == Some(s);
    Start();
    InvRun(Initial, trace);
  }

  /** No slot and no hand names a file that has been given back; a file's count is
      the number of places that name it, and 0 exactly while it is torn down */
  lemma NothingNamesAFreedFile(s: State)
    requires Reachable(s)
    ensures forall p | p in s.mem.places :: s.mem.places[p] in s.mem.files && s.mem.files[s.mem.places[p]].refs > 0
    ensures forall f | f in s.mem.files :: s.mem.files[f].refs == |set p | p in s.mem.places && s.mem.places[p] == f|
    ensures forall f | f in s.mem.files :: s.mem.files[f].refs == 0 <==> s.mem.files[f].life.Dying?
  {
    ReachableInv(s);
    forall p | p in s.mem.places
      ensures s.mem.places[p] in s.mem.files && s.mem.files[s.mem.places[p]].refs > 0
    {
      NamedIsAlive(s.mem, p);
    }
    forall f | f in s.mem.files
      ensures s.mem.files[f].refs == |set p | p in s.mem.places && s.mem.places[p] == f|
    {
      assert s.mem.files[f].refs == Count(s.mem.places, f);
      assert Holders(s.mem.places, f) == set p | p in s.mem.places && s.mem.places[p] == f;
    }
  }

  /** Of all files ever made, those alive have not begun to be torn down and the
      others have begun once, or were given back unopened */
  lemma TornDownOnce(s: State, serial: nat)
    requires Reachable(s) && serial < s.mem.serials
    ensures serial in s.mem.torn && s.mem.torn[serial] <= 1
    ensures s.mem.torn[serial] == 0 <==>
            exists f :: f in s.mem.files && s.mem.files[f].serial == serial && s.mem.files[f].refs > 0
  {
    hide TornOk, SerialsOk, RefsOk, ThreadsOk, StagesOk, NodesOk, PipesOk, EndsOk;
    ReachableInv(s);
    TornIsLive(s.mem, serial);
  }

  lemma TornIsLive(m: Memory, serial: nat)
    requires RefsOk(m) && TornOk(m) && serial < m.serials
    ensures serial in m.torn && m.torn[serial] <= 1
    ensures m.torn[serial] == 0 <==> exists f :: f in m.files && m.files[f].serial == serial && m.files[f].refs > 0
  {
    if Live(m, serial) {
      var f :| f in m.files && m.files[f].serial == serial && !m.files[f].life.Dying?;
      assert m.files[f].refs > 0;
    }
  }

  /** Opened, and not begun to be torn down, or begun but not yet at the tree lock */
  predicate IsOpen(file: File) {
    file.life.Open? || (file.life.Dying? && file.life.stage.Start?)
  }

  ghost function FilesOn(m: Memory, node: nat): set<FileId> {
    set f | f in m.files && IsOpen(m.files[f]) && m.files[f].kind.Vnode? && m.files[f].kind.node == node
  }

  ghost function WritersOn(m: Memory, node: nat): set<FileId> {
    set f | f in m.files && IsOpen(m.files[f]) && m.files[f].kind == Vnode(node, true)
  }

  /** While nobody has the tree lock, a node's counts are the numbers of files open on
      it and open for writing on it, however many threads have opened and closed files
      there, although every count is read in one step and written in another */
  lemma NodeCountsAreOpenFiles(s: State, node: nat)
    requires Reachable(s) && s.mem.treeLock.None?
    ensures CountsOf(s.mem, node).open == |FilesOn(s.mem, node)|
    ensures CountsOf(s.mem, node).write == |WritersOn(s.mem, node)|
  {
    hide FilesOn, WritersOn, OpenOn, WritingOn, Reachable, CountsOf, RefsOk, ThreadsOk, StagesOk, SerialsOk, TornOk,
      PipesOk, EndsOk;
    ReachableInv(s);
    assert CountsOf(s.mem, node) == Counts(|OpenOn(s.mem, node)|, |WritingOn(s.mem, node)|);
    OpenAreCounted(s, node);
  }

  lemma OpenAreCounted(s: State, node: nat)
    requires ThreadsOk(s) && StagesOk(s.mem) && s.mem.treeLock.None?
    ensures OpenOn(s.mem, node) == FilesOn(s.mem, node) && WritingOn(s.mem, node) == WritersOn(s.mem, node)
  {
    hide ThreadsOk, StagesOk, FileOk;
    forall f
      ensures f in OpenOn(s.mem, node) <==> f in FilesOn(s.mem, node)
      ensures f in WritingOn(s.mem, node) <==> f in WritersOn(s.mem, node)
    {
      if f in s.mem.files {
        CountedOrNot(s, f);
      }
    }
  }

  /** A file is in all its node's counts or in none, except the one for which the tree
      lock is held */
  lemma CountedOrNot(s: State, f: FileId)
    requires ThreadsOk(s) && StagesOk(s.mem) && f in s.mem.files
    ensures var file := s.mem.files[f];
            || (file.opens == (file.kind.Vnode? && IsOpen(file)) && file.writes == (file.opens && file.kind.writable))
            || (s.mem.treeLock.Some? && !IsOpen(file) && file.life.who == s.mem.treeLock.value)
  {
    var file := s.mem.files[f];
    assert FileOk(file);
    if !IsOpen(file) {
      assert ThreadOk(s.mem, file.life.who, s.PcOf(file.life.who));
    }
  }

  /** With the tree lock held too, each count is the number of files that were counted
      in it and not counted off */
  lemma NodeCountsAtEveryStep(s: State, node: nat)
    requires Reachable(s)
    ensures CountsOf(s.mem, node).open == |OpenOn(s.mem, node)|
    ensures CountsOf(s.mem, node).write == |WritingOn(s.mem, node)|
  {
    hide OpenOn, WritingOn, TornOk, SerialsOk, RefsOk, ThreadsOk, StagesOk, PipesOk, EndsOk;
    ReachableInv(s);
    assert CountsOf(s.mem, node) == Counts(|OpenOn(s.mem, node)|, |WritingOn(s.mem, node)|);
  }

  /** Each end of each pipe is closed at most once, and once exactly when no file is
      left that still has to close it: a shutdown and a last close never both do it,
      and not neither */
  lemma EveryEndClosedOnce(s: State, e: PipeEnd)
    requires Reachable(s) && e.pipe < s.mem.pipes
    ensures e in s.mem.ends && s.mem.ends[e] <= 1
    ensures s.mem.ends[e] == 0 <==> exists f :: f in s.mem.files && e in Pending(s.mem.files[f])
  {
    hide Pending, NodesOk, TornOk, SerialsOk, RefsOk, ThreadsOk, StagesOk;
    ReachableInv(s);
    assert ToClose(s.mem, e) <==> exists f :: f in s.mem.files && e in Pending(s.mem.files[f]);
  }

  /** One thread at a time is between taking and leaving a lock */
  lemma OneInside(s: State, t: Thread, u: Thread)
    requires Reachable(s) && t != u
    ensures !(HoldsSlotLock(s.PcOf(t)) && HoldsSlotLock(s.PcOf(u)))
    ensures !(HoldsTreeLock(s.mem, s.PcOf(t)) && HoldsTreeLock(s.mem, s.PcOf(u)))
  {
    hide RefsOk, StagesOk, SerialsOk, TornOk, NodesOk, PipesOk, EndsOk, HoldsSlotLock, HoldsTreeLock, Knows, Owns;
    ReachableInv(s);
    assert ThreadOk(s.mem, t, s.PcOf(t));
    assert ThreadOk(s.mem, u, s.PcOf(u));
  }

  /** fd_take_back gets the reference exactly when the slot still holds that very
      file as it acts; then the slot is empty, so that nobody else gets it. Otherwise
      it changes nothing. */
  lemma TakeBackOrNothing(s: State, t: Thread, n: nat, p: Place, f: FileId)
    requires Reachable(s) && s.PcOf(t).Seen? && s.PcOf(t).op == TakeBack(p, f) && Hand(t, n) !in s.mem.places
    ensures Step(s, t, Act(n)).Some?
    ensures var m' := Step(s, t, Act(n)).value.mem;
            if Lookup(s.mem, p) == Some(f)
            then Lookup(m', Hand(t, n)) == Some(f) && Lookup(m', p).None?
                 && (forall q | q != p && q != Hand(t, n) :: Lookup(m', q) == Lookup(s.mem, q))
                 && m' == s.mem.(places := m'.places)
            else m' == s.mem
  {
    hide RefsOk, StagesOk, SerialsOk, TornOk, NodesOk, PipesOk, EndsOk, LockOk, Owns;
    ReachableInv(s);
    assert ThreadOk(s.mem, t, s.PcOf(t));
  }

  /** A full table of slots is the only reason for fd_install to fail: it stores in
      the lowest free slot */
  lemma InstallsLowest(s: State, t: Thread, n: nat)
    requires Reachable(s) && (s.PcOf(t).Scanning? || s.PcOf(t).Found?)
    requires Step(s, t, Act(n)).Some? && Step(s, t, Act(n)).value.PcOf(t).Finished?
    ensures var (op, m') := (s.PcOf(t).op, Step(s, t, Act(n)).value.mem);
            if forall k | 0 <= k < TASK_MAX_FDS :: Slot(op.table, k) in s.mem.places
            then m' == s.mem
            else exists fd: nat ::
                   && fd < TASK_MAX_FDS && Slot(op.table, fd) !in s.mem.places
                   && (forall k | 0 <= k < fd :: Slot(op.table, k) in s.mem.places)
                   && Lookup(m', Slot(op.table, fd)) == Lookup(s.mem, Hand(t, op.from))
                   && Lookup(m', Hand(t, op.from)).None?
  {
    hide RefsOk, StagesOk, SerialsOk, TornOk, NodesOk, PipesOk, EndsOk, LockOk, Owns;
    ReachableInv(s);
    assert ThreadOk(s.mem, t, s.PcOf(t));
    var fd := s.PcOf(t).fd;
    if fd < TASK_MAX_FDS {
      assert Slot(s.PcOf(t).op.table, fd) !in s.mem.places;
    }
  }

  // ----- Progress -----

  /** How many steps of its own a thread has left until it is idle */
  function Remaining(m: Memory, pc: Pc): nat {
    match pc
    case Idle => 0
    case Want(_) => TASK_MAX_FDS + 4
    case Locked(_) => TASK_MAX_FDS + 3
    case Scanning(_, fd) => if fd <= TASK_MAX_FDS then TASK_MAX_FDS - fd + 2 else 2
    case Found(_, _) => 2
    case Seen(_, _) => 2
    case Finished(_) => 1
    case Opening(_, _, at) => CountsLeft(at) + 1
    case Opened => 1
    case Shutting(_, _) => 1
    case Closing(f, at) => if f in m.files && m.files[f].life.Dying? then StagesLeft(m.files[f].life.stage, at) else 0
  }

  function CountsLeft(at: Counting): nat {
    (if at.ToOpen? then 2 else 0) + (if at.seen.None? then 2 else 1)
  }

  function StagesLeft(stage: Stage, at: Counting): nat {
    match stage
    case Start => 7
    case TreeHeld => CountsLeft(at) + 2
    case TreeDone => 2
    case ReaderClosed => 3
    case Exchanged => 2
    case CanFree => 1
  }

  /** Waiting for a lock */
  predicate Waiting(m: Memory, pc: Pc) {
    || (pc.Want? && m.slotLock.Some?)
    || (pc.Closing? && pc.file in m.files && m.files[pc.file].life.Dying? && m.files[pc.file].life.stage.Start?
        && m.files[pc.file].kind.Vnode? && m.treeLock.Some?)
  }

  lemma {:induction false} FreshHand(places: set<Place>, t: Thread) returns (n: nat)
    ensures forall k: nat | Hand(t, k) in places :: k < n
  {
    n := 0;
    var rest := places;
    while rest != {}
      invariant rest <= places
      invariant forall k: nat | Hand(t, k) in places && Hand(t, k) !in rest :: k < n
      decreases rest
    {
      var p :| p in rest;
      rest := rest - {p};
      if p.Hand? && p.n >= n {
        n := p.n + 1;
      }
    }
  }

  /** Every operation, once begun, is at most 20 steps of its thread from its end,
      each step bringing it nearer */
  lemma StepsRunOut(s: State, t: Thread, a: Action)
    requires Reachable(s) && Step(s, t, a).Some? && !s.PcOf(t).Idle?
    ensures var s' := Step(s, t, a).value;
            Remaining(s'.mem, s'.PcOf(t)) < Remaining(s.mem, s.PcOf(t)) <= 20
  {
    hide RefsOk, StagesOk, SerialsOk, TornOk, NodesOk, PipesOk, EndsOk, LockOk, Owns, DoTeardown, DoAct;
    ReachableInv(s);
    assert ThreadOk(s.mem, t, s.PcOf(t));
    match a
    case Act(n) => ActRunsOut(s.mem, t, s.PcOf(t), n);
    case Teardown => TeardownRunsOut(s.mem, t, s.PcOf(t));
    case _ =>
  }

  lemma ActRunsOut(m: Memory, t: Thread, pc: Pc, n: nat)
    requires Knows(m, t, pc) && DoAct(m, t, pc, n).Some?
    ensures var (m', pc') := DoAct(m, t, pc, n).value;
            Remaining(m', pc') < Remaining(m, pc) <= 20
  {
  }

  lemma TeardownRunsOut(m: Memory, t: Thread, pc: Pc)
    requires Knows(m, t, pc) && pc.Closing? && DoTeardown(m, t, pc.file, pc.at).Some?
    ensures var (m', pc') := DoTeardown(m, t, pc.file, pc.at).value;
            Remaining(m', pc') < Remaining(m, pc) <= 20
  {
  }

  /** Nothing that the other threads do puts it further off */
  lemma OthersDoNotDelay(s: State, t: Thread, a: Action, u: Thread)
    requires Reachable(s) && Step(s, t, a).Some? && u != t
    ensures var s' := Step(s, t, a).value;
            s'.PcOf(u) == s.PcOf(u) && Remaining(s'.mem, s'.PcOf(u)) == Remaining(s.mem, s.PcOf(u))
  {
    hide RefsOk, StagesOk, SerialsOk, TornOk, NodesOk, PipesOk, EndsOk, LockOk, Owns, Do;
    ReachableInv(s);
    assert ThreadOk(s.mem, t, s.PcOf(t));
    assert ThreadOk(s.mem, u, s.PcOf(u));
    StepRely(s.mem, t, s.PcOf(t), a, u, s.PcOf(u));
  }

  /** A thread in the middle of an operation can go on, unless it waits for a lock */
  lemma NeverStuck(s: State, t: Thread) returns (a: Action)
    requires Reachable(s) && !s.PcOf(t).Idle? && !Waiting(s.mem, s.PcOf(t))
    ensures Step(s, t, a).Some?
  {
    hide RefsOk, StagesOk, SerialsOk, TornOk, NodesOk, PipesOk, EndsOk, Knows, LockOk, Owns, Do, Waiting;
    ReachableInv(s);
    assert ThreadOk(s.mem, t, s.PcOf(t));
    a := GoesOn(s.mem, t, s.PcOf(t));
  }

  lemma GoesOn(m: Memory, t: Thread, pc: Pc) returns (a: Action)
    requires RefsOk(m) && StagesOk(m) && NodesOk(m) && Knows(m, t, pc) && !pc.Idle? && !Waiting(m, pc)
    ensures Do(m, t, pc, a).Some?
  {
    hide RefsOk, StagesOk, NodesOk, DoTeardown, DoAct, DoCountOpen, Holders, SeenIsCurrent, Uncounting, Lookup,
      CanBegin;
    match pc
    case Want(_) => a := Acquire;
    case Locked(_) => a := Look;
    case Seen(_, _) =>
      var n := FreshHand(m.places.Keys, t);
      ActGoesOn(m, t, pc, n);
      a := Act(n);
    case Scanning(_, _) =>
      ActGoesOn(m, t, pc, 0);
      a := Act(0);
    case Found(_, _) =>
      ActGoesOn(m, t, pc, 0);
      a := Act(0);
    case Finished(_) => a := Release;
    case Opening(_, _, _) =>
      CountOpenNodes(m, t, pc);
      a := CountOpen;
    case Opened => a := EndOpen;
    case Shutting(_, _) => a := CloseWriter;
    case Closing(_, _) =>
      TeardownGoesOn(m, t, pc);
      a := Teardown;
  }

  lemma ActGoesOn(m: Memory, t: Thread, pc: Pc, n: nat)
    requires RefsOk(m) && Knows(m, t, pc) && (pc.Scanning? || pc.Found? || (pc.Seen? && Hand(t, n) !in m.places))
    ensures DoAct(m, t, pc, n).Some?
  {
  }

  lemma TeardownGoesOn(m: Memory, t: Thread, pc: Pc)
    requires Knows(m, t, pc) && pc.Closing? && StagesOk(m) && NodesOk(m) && !Waiting(m, pc)
    ensures DoTeardown(m, t, pc.file, pc.at).Some?
  {
    hide NodesOk, DoUncount;
    assert FileOk(m.files[pc.file]);
    if m.files[pc.file].life.stage.TreeHeld? {
      UncountNodes(m, t, pc);
    }
  }

  /** Whoever waits, waits for a thread that can go on */
  lemma NoDeadlock(s: State, t: Thread) returns (u: Thread, a: Action)
    requires Reachable(s) && !s.PcOf(t).Idle?
    ensures !s.PcOf(u).Idle? && Step(s, u, a).Some?
  {
    hide Inv, Step;
    if Waiting(s.mem, s.PcOf(t)) {
      u := WaitedFor(s, t);
    } else {
      u := t;
    }
    a := NeverStuck(s, u);
  }

  lemma WaitedFor(s: State, t: Thread) returns (u: Thread)
    requires Reachable(s) && Waiting(s.mem, s.PcOf(t))
    ensures !s.PcOf(u).Idle? && !Waiting(s.mem, s.PcOf(u))
  {
    hide RefsOk, StagesOk, SerialsOk, TornOk, NodesOk, PipesOk, EndsOk, Owns;
    ReachableInv(s);
    u := if s.PcOf(t).Want? then s.mem.slotLock.value else s.mem.treeLock.value;
    assert ThreadOk(s.mem, u, s.PcOf(u));
  }
}
