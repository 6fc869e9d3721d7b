/** What each thread knows stays true while the others step: the locks exclude each
    other, and nobody touches what is another's.
 */
module FdThreads {
  import opened Common
  import opened FdProtocol
  import opened FdInvariant

  // ----- Locks -----

  predicate HoldsSlotLock(pc: Pc) {
    pc.Locked? || pc.Seen? || pc.Scanning? || pc.Found? || pc.Finished?
  }

  predicate HoldsTreeLock(m: Memory, pc: Pc) {
    || pc.Opening? || pc.Opened?
    || (pc.Closing? && pc.file in m.files && m.files[pc.file].life.Dying?
        && (m.files[pc.file].life.stage.TreeHeld? || m.files[pc.file].life.stage.TreeDone?))
  }

  /** A lock is held by the thread that is between taking and leaving it */
  predicate LockOk(m: Memory, t: Thread, pc: Pc) {
    && (HoldsSlotLock(pc) <==> m.slotLock == Some(t))
    && (HoldsTreeLock(m, pc) <==> m.treeLock == Some(t))
  }

  /** A file that is a thread's to open, shut down or tear down has that thread at
      it */
  ghost predicate Owns(m: Memory, t: Thread, pc: Pc) {
    && (forall f | f in m.files && m.files[f].life == BeingOpened(t) :: pc.Opening? && pc.file == f)
    && (forall f | f in m.files && m.files[f].life.Dying? && m.files[f].life.who == t :: pc.Closing? && pc.file == f)
    && (forall f | f in m.files && m.files[f].writer == Taken(t) ::
          (pc.Shutting? && pc.file == f) || m.files[f].life == Dying(t, Exchanged))
  }

  ghost predicate ThreadOk(m: Memory, t: Thread, pc: Pc) {
    Knows(m, t, pc) && LockOk(m, t, pc) && Owns(m, t, pc)
  }

  lemma OwnLock(m: Memory, t: Thread, pc: Pc, a: Action)
    requires RefsOk(m) && ThreadOk(m, t, pc) && Do(m, t, pc, a).Some?
    ensures var (m', pc') := Do(m, t, pc, a).value;
            LockOk(m', t, pc')
  {
    hide RefsOk, DoTeardown, DoClose, DoCountOpen, DoAct, NewFile, Owns, Knows;
    match a
    case BeginOpen(f, node, writable, n) => NewFileLocks(m, f, Vnode(node, writable), BeingOpened(t), Hand(t, n));
    case OpenOther(f, n) => NewFileLocks(m, f, Other, Open, Hand(t, n));
    case OpenPipe(r, w, n, n') => NewTwoLocks(m, t, r, PipeReader(m.pipes), w, PipeWriter(m.pipes), n, n');
    case OpenPair(f, g, n, n') =>
      NewTwoLocks(m, t, f, Local(m.pipes, m.pipes + 1), g, Local(m.pipes + 1, m.pipes), n, n');
    case Act(n) => ActLock(m, t, pc, n);
    case CountOpen => CountOpenOnly(m, pc.file, pc.n, pc.at);
    case Teardown => TeardownLock(m, t, pc);
    case Close(n) => CloseLock(m, t, n);
    case _ =>
  }

  lemma NewTwoLocks(m: Memory, t: Thread, f: FileId, k: Kind, g: FileId, l: Kind, n: nat, n': nat)
    ensures NewTwo(m, t, f, k, g, l, n, n').slotLock == m.slotLock
    ensures NewTwo(m, t, f, k, g, l, n, n').treeLock == m.treeLock
  {
  }

  lemma ActLock(m: Memory, t: Thread, pc: Pc, n: nat)
    requires LockOk(m, t, pc) && DoAct(m, t, pc, n).Some?
    ensures var (m', pc') := DoAct(m, t, pc, n).value;
            LockOk(m', t, pc')
  {
    hide Lookup;
  }

  lemma CloseLock(m: Memory, t: Thread, n: nat)
    requires m.slotLock != Some(t) && m.treeLock != Some(t) && DoClose(m, t, n).Some?
    ensures var (m', pc') := DoClose(m, t, n).value;
            LockOk(m', t, pc')
  {
  }

  lemma TeardownLock(m: Memory, t: Thread, pc: Pc)
    requires ThreadOk(m, t, pc) && pc.Closing? && DoTeardown(m, t, pc.file, pc.at).Some?
    ensures var (m', pc') := DoTeardown(m, t, pc.file, pc.at).value;
            LockOk(m', t, pc')
  {
    hide Owns, DoUncount;
    if m.files[pc.file].life.stage.TreeHeld? {
      UncountOnly(m, pc.file, pc.at);
    }
  }

  // ----- A thread's own steps -----

  lemma OwnKnowledge(m: Memory, t: Thread, pc: Pc, a: Action)
    requires RefsOk(m) && StagesOk(m) && ThreadOk(m, t, pc) && Do(m, t, pc, a).Some?
    ensures var (m', pc') := Do(m, t, pc, a).value;
            Knows(m', t, pc')
  {
    hide DoAct, RefsOk, StagesOk, DoTeardown, DoCountOpen, DoClose;
    match a
    case CountOpen => CountOpenKnowledge(m, t, pc);
    case Teardown => TeardownKnowledge(m, t, pc);
    case BeginOpen(f, node, writable, n) => OpeningHolders(m, t, f, node, writable, n);
    case Act(n) => ActKnowledge(m, t, pc, n);
    case Close(n) => CloseKnowledge(m, t, n);
    case _ =>
  }

  lemma CountOpenKnowledge(m: Memory, t: Thread, pc: Pc)
    requires Knows(m, t, pc) && pc.Opening? && DoCountOpen(m, pc.file, pc.n, pc.at).Some?
    ensures var (m', pc') := DoCountOpen(m, pc.file, pc.n, pc.at).value;
            Knows(m', t, pc')
  {
  }

  lemma TeardownKnowledge(m: Memory, t: Thread, pc: Pc)
    requires StagesOk(m) && Knows(m, t, pc) && pc.Closing? && DoTeardown(m, t, pc.file, pc.at).Some?
    ensures var (m', pc') := DoTeardown(m, t, pc.file, pc.at).value;
            Knows(m', t, pc')
  {
    assert FileOk(m.files[pc.file]);
  }

  lemma CloseKnowledge(m: Memory, t: Thread, n: nat)
    requires DoClose(m, t, n).Some?
    ensures var (m', pc') := DoClose(m, t, n).value;
            Knows(m', t, pc')
  {
  }

  lemma ActKnowledge(m: Memory, t: Thread, pc: Pc, n: nat)
    requires Knows(m, t, pc) && DoAct(m, t, pc, n).Some?
    ensures var (m', pc') := DoAct(m, t, pc, n).value;
            Knows(m', t, pc')
  {
  }

  lemma OpeningHolders(m: Memory, t: Thread, f: FileId, node: nat, writable: bool, n: nat)
    requires RefsOk(m) && DoBeginOpen(m, t, f, node, writable, n).Some?
    ensures Holders(DoBeginOpen(m, t, f, node, writable, n).value.0.places, f) == {Hand(t, n)}
  {
  }

  // ----- The other threads' steps -----

  /** What a step of another thread leaves to thread `u` */
  ghost predicate Rely(m: Memory, m': Memory, u: Thread) {
    && (forall n: nat :: Lookup(m', Hand(u, n)) == Lookup(m, Hand(u, n)))
    && (m'.slotLock == Some(u) <==> m.slotLock == Some(u))
    && (m'.treeLock == Some(u) <==> m.treeLock == Some(u))
    && (m.slotLock == Some(u) ==> forall p: Place | p.Slot? :: Lookup(m', p) == Lookup(m, p))
    && (m.treeLock == Some(u) ==> m'.nodes == m.nodes)
    && (forall f | f in m.files && m.files[f].life == BeingOpened(u) ::
          f in m'.files && m'.files[f] == m.files[f] && Holders(m'.places, f) == Holders(m.places, f))
    && (forall f | f in m.files && m.files[f].life.Dying? && m.files[f].life.who == u ::
          f in m'.files && m'.files[f] == m.files[f])
    && (forall f | f in m.files && m.files[f].refs > 0 && m.files[f].writer == Taken(u) ::
          f in m'.files && m'.files[f].kind == m.files[f].kind && m'.files[f].writer == Taken(u))
    && NoNewClaims(m, m', u)
  }

  /** Nothing has become `u`'s that was not */
  ghost predicate NoNewClaims(m: Memory, m': Memory, u: Thread) {
    && (forall f | f in m'.files && m'.files[f].life == BeingOpened(u) ::
        f in m.files && m.files[f].life == BeingOpened(u))
    && (forall f | f in m'.files && m'.files[f].life.Dying? && m'.files[f].life.who == u ::
          f in m.files && m.files[f].life == m'.files[f].life)
    && (forall f | f in m'.files && m'.files[f].writer == Taken(u) ::
          f in m.files && m.files[f].writer == Taken(u)
            && (m.files[f].life == Dying(u, Exchanged) ==> m'.files[f].life == m.files[f].life))
  }

  lemma RelyKeeps(m: Memory, m': Memory, u: Thread, pc: Pc)
    requires RefsOk(m) && ThreadOk(m, u, pc) && Rely(m, m', u)
    ensures ThreadOk(m', u, pc)
  {
    hide RefsOk, Rely, Knows, LockOk, Owns;
    LockKept(m, m', u, pc);
    OwnedKept(m, m', u, pc);
    if pc.Opening? || pc.Closing? || pc.Shutting? {
      FileKept(m, m', u, pc);
    } else {
      SlotsKept(m, m', u, pc);
    }
  }

  lemma LockKept(m: Memory, m': Memory, u: Thread, pc: Pc)
    requires Knows(m, u, pc) && LockOk(m, u, pc) && Rely(m, m', u)
    ensures LockOk(m', u, pc)
  {
    hide Holders, NoNewClaims;
  }

  lemma OwnedKept(m: Memory, m': Memory, u: Thread, pc: Pc)
    requires Owns(m, u, pc) && Rely(m, m', u)
    ensures Owns(m', u, pc)
  {
    hide Holders;
  }

  /** The file that the thread opens, shuts down or closes */
  lemma FileKept(m: Memory, m': Memory, u: Thread, pc: Pc)
    requires RefsOk(m) && Knows(m, u, pc) && LockOk(m, u, pc) && Rely(m, m', u)
    requires pc.Opening? || pc.Closing? || pc.Shutting?
    ensures Knows(m', u, pc)
  {
    hide RefsOk, Holders, NoNewClaims;
    if pc.Shutting? {
      NamedIsAlive(m, Hand(u, pc.n));
      assert Lookup(m', Hand(u, pc.n)) == Lookup(m, Hand(u, pc.n));
    }
  }

  /** Its operand, and what it has seen of the slots */
  lemma SlotsKept(m: Memory, m': Memory, u: Thread, pc: Pc)
    requires Knows(m, u, pc) && LockOk(m, u, pc) && Rely(m, m', u)
    requires !pc.Opening? && !pc.Closing? && !pc.Shutting?
    ensures Knows(m', u, pc)
  {
    hide Holders, NoNewClaims, CanBegin;
    if pc.Want? || pc.Locked? || pc.Seen? || pc.Scanning? || pc.Found? {
      OperandKept(m, m', u, pc.op);
    }
    if pc.Seen? {
      assert Lookup(m', pc.op.slot) == Lookup(m, pc.op.slot) by { SlotOperand(m, u, pc.op); }
    } else if pc.Scanning? || pc.Found? {
      assert Lookup(m', Slot(pc.op.table, pc.fd)) == Lookup(m, Slot(pc.op.table, pc.fd));
      forall k | 0 <= k < pc.fd
        ensures Slot(pc.op.table, k) in m'.places
      {
        assert Lookup(m', Slot(pc.op.table, k)) == Lookup(m, Slot(pc.op.table, k));
      }
    }
  }

  lemma SlotOperand(m: Memory, u: Thread, op: SlotOp)
    requires CanBegin(m, u, op) && !op.Install?
    ensures op.slot.Slot?
  {
  }

  lemma OperandKept(m: Memory, m': Memory, u: Thread, op: SlotOp)
    requires Rely(m, m', u) && CanBegin(m, u, op)
    ensures CanBegin(m', u, op)
  {
    if op.SetSlot? && op.hand.Some? {
      assert Lookup(m', Hand(u, op.hand.value)) == Lookup(m, Hand(u, op.hand.value));
    }
    if op.Install? {
      assert Lookup(m', Hand(u, op.from)) == Lookup(m, Hand(u, op.from));
    }
  }

  /** New files at unused addresses, kept in the thread's own hands */
  lemma NewFileRely(m: Memory, f: FileId, kind: Kind, life: Life, t: Thread, n: nat, u: Thread)
    requires RefsOk(m) && f !in m.files && Hand(t, n) !in m.places && u != t
    requires life.Open? || life == BeingOpened(t)
    ensures Rely(m, NewFile(m, f, kind, life, Hand(t, n)), u)
  {
    var m' := NewFile(m, f, kind, life, Hand(t, n));
    forall g | g in m.files
      ensures Holders(m'.places, g) == Holders(m.places, g)
    {
    }
  }

  lemma RelyTwice(m: Memory, m1: Memory, m2: Memory, u: Thread)
    requires Rely(m, m1, u) && Rely(m1, m2, u)
    requires forall f | f in m.files && f in m1.files :: m1.files[f] == m.files[f]
    ensures Rely(m, m2, u)
  {
    forall n: nat
      ensures Lookup(m2, Hand(u, n)) == Lookup(m, Hand(u, n))
    {
      assert Lookup(m1, Hand(u, n)) == Lookup(m, Hand(u, n));
    }
    if m.slotLock == Some(u) {
      forall p: Place | p.Slot?
        ensures Lookup(m2, p) == Lookup(m, p)
      {
        assert Lookup(m1, p) == Lookup(m, p);
      }
    }
  }

  /** Only these parts matter to another thread */
  lemma RelyAlike(m: Memory, m1: Memory, m2: Memory, t: Thread, u: Thread)
    requires Rely(m, m1, u) && u != t
    requires m2.files == m1.files && m2.places == m1.places && (m.treeLock == Some(u) ==> m2.nodes == m1.nodes)
    requires m2.slotLock == m1.slotLock || (m1.slotLock.None? && m2.slotLock == Some(t))
             || (m1.slotLock == Some(t) && m2.slotLock.None?)
    requires m2.treeLock == m1.treeLock || (m1.treeLock.None? && m2.treeLock == Some(t))
             || (m1.treeLock == Some(t) && m2.treeLock.None?)
    ensures Rely(m, m2, u)
  {
    forall n: nat
      ensures Lookup(m2, Hand(u, n)) == Lookup(m, Hand(u, n))
    {
      assert Lookup(m1, Hand(u, n)) == Lookup(m, Hand(u, n));
    }
    if m.slotLock == Some(u) {
      forall p: Place | p.Slot?
        ensures Lookup(m2, p) == Lookup(m, p)
      {
        assert Lookup(m1, p) == Lookup(m, p);
      }
    }
  }

  lemma RelyItself(m: Memory, u: Thread)
    ensures Rely(m, m, u)
  {
  }

  /** A change to a file that is not `u`'s to rely on */
  lemma FileRely(m: Memory, f: FileId, file: File, u: Thread)
    requires f in m.files && m.files[f].life != BeingOpened(u)
    requires !(m.files[f].life.Dying? && m.files[f].life.who == u)
    requires m.files[f].writer == Taken(u) ==> file.kind == m.files[f].kind
    requires m.files[f].writer == Taken(u) <==> file.writer == Taken(u)
    requires file.life != BeingOpened(u) && !(file.life.Dying? && file.life.who == u)
    ensures Rely(m, SetFile(m, f, file), u)
  {
  }

  lemma NewTwoRely(m: Memory, t: Thread, f: FileId, k: Kind, g: FileId, l: Kind, n: nat, n': nat, u: Thread)
    requires RefsOk(m) && CanOpenTwo(m, t, f, g, n, n') && u != t
    ensures Rely(m, NewTwo(m, t, f, k, g, l, n, n'), u)
  {
    hide RefsOk, Rely;
    var m1 := NewFile(m, f, k, Open, Hand(t, n));
    NewFileRefs(m, f, k, Open, Hand(t, n));
    NewFileRely(m, f, k, Open, t, n, u);
    NewFileRely(m1, g, l, Open, t, n', u);
    RelyTwice(m, m1, NewTwo(m, t, f, k, g, l, n, n'), u);
  }

  /** A reference more to a file that someone already names, in the thread's own
      hand */
  lemma ShareRely(m: Memory, p: Place, t: Thread, n: nat, u: Thread)
    requires RefsOk(m) && p in m.places && Hand(t, n) !in m.places && u != t
    requires m.files[m.places[p]].life != BeingOpened(u)
    ensures Rely(m, Share(m, m.places[p], Hand(t, n)), u)
  {
    hide RefsOk;
    NamedIsAlive(m, p);
    var m' := Share(m, m.places[p], Hand(t, n));
    forall g | g in m.files && g != m.places[p]
      ensures Holders(m'.places, g) == Holders(m.places, g)
    {
    }
  }

  /** A file that a thread is still opening is named only from that thread's hand */
  lemma OpenedElsewhere(m: Memory, p: Place, u: Thread, pc: Pc)
    requires RefsOk(m) && p in m.places && ThreadOk(m, u, pc) && !(p.Hand? && p.thread == u)
    ensures m.files[m.places[p]].life != BeingOpened(u)
  {
    assert p in Holders(m.places, m.places[p]);
  }

  /** A reference moved out of one's own hand or a slot, to one's own hand or a
      slot. Moving to or from a slot takes the lock. */
  lemma MoveRely(m: Memory, p: Place, q: Place, t: Thread, u: Thread, pc: Pc)
    requires RefsOk(m) && p in m.places && q !in m.places && u != t && m.slotLock == Some(t) && ThreadOk(m, u, pc)
    requires (p.Slot? || p.thread == t) && (q.Slot? || q.thread == t)
    ensures Rely(m, m.(places := (m.places - {p})[q := m.places[p]]), u)
  {
    hide RefsOk, ThreadOk;
    var m' := m.(places := (m.places - {p})[q := m.places[p]]);
    NamedIsAlive(m, p);
    OpenedElsewhere(m, p, u, pc);
    forall f | f in m.files && f != m.places[p]
      ensures Holders(m'.places, f) == Holders(m.places, f)
    {
    }
  }

  lemma SetRely(m: Memory, t: Thread, op: SlotOp, n: nat, u: Thread, pc: Pc)
    requires RefsOk(m) && op.SetSlot? && IsSlot(op.slot) && Hand(t, n) !in m.places
    requires u != t && m.slotLock == Some(t) && ThreadOk(m, u, pc)
    requires DoSet(m, t, op, Lookup(m, op.slot), n).Some?
    ensures Rely(m, DoSet(m, t, op, Lookup(m, op.slot), n).value.0, u)
  {
    hide RefsOk, Rely, ThreadOk;
    var taken :=
      if op.slot in m.places then (m.places - {op.slot})[Hand(t, n) := m.places[op.slot]] else m.places - {op.slot};
    var m1 := m.(places := taken);
    RelyItself(m, u);
    if op.slot in m.places {
      MoveRefs(m, op.slot, Hand(t, n));
      MoveRely(m, op.slot, Hand(t, n), t, u, pc);
      RelyKeeps(m, m1, u, pc);
    } else {
      assert m.places - {op.slot} == m.places;
      assert m1 == m;
    }
    if op.hand.Some? {
      MoveRely(m1, Hand(t, op.hand.value), op.slot, t, u, pc);
      RelyTwice(m, m1, DoSet(m, t, op, Lookup(m, op.slot), n).value.0, u);
    }
  }

  lemma ActRely(m: Memory, t: Thread, pc: Pc, n: nat, u: Thread, pcu: Pc)
    requires RefsOk(m) && ThreadOk(m, t, pc) && ThreadOk(m, u, pcu) && u != t && DoAct(m, t, pc, n).Some?
    ensures Rely(m, DoAct(m, t, pc, n).value.0, u)
  {
    hide RefsOk, Rely, Owns;
    RelyItself(m, u);
    if pc.Scanning? {
    } else if pc.Found? {
      MoveRely(m, Hand(t, pc.op.from), Slot(pc.op.table, pc.fd), t, u, pcu);
    } else if pc.op.SetSlot? {
      SetRely(m, t, pc.op, n, u, pcu);
    } else if pc.op.TakeBack? {
      if pc.seen == Some(pc.op.file) {
        MoveRely(m, pc.op.slot, Hand(t, n), t, u, pcu);
      }
    } else if pc.seen.Some? {
      NamedIsAlive(m, pc.op.slot);
      OpenedElsewhere(m, pc.op.slot, u, pcu);
      ShareRely(m, pc.op.slot, t, n, u);
    }
  }

  lemma CloseRely(m: Memory, t: Thread, n: nat, u: Thread, pcu: Pc)
    requires RefsOk(m) && ThreadOk(m, u, pcu) && u != t && DoClose(m, t, n).Some?
    ensures Rely(m, DoClose(m, t, n).value.0, u)
  {
    hide RefsOk, Rely, ThreadOk;
    var m', f := DoClose(m, t, n).value.0, m.places[Hand(t, n)];
    var m1 := m.(places := m.places - {Hand(t, n)});
    NamedIsAlive(m, Hand(t, n));
    OpenedElsewhere(m, Hand(t, n), u, pcu);
    DropRely(m, t, n, u, pcu);
    FileRely(m1, f, m'.files[f], u);
    RelyTwice(m, m1, SetFile(m1, f, m'.files[f]), u);
    RelyAlike(m, SetFile(m1, f, m'.files[f]), m', t, u);
  }

  lemma DropRely(m: Memory, t: Thread, n: nat, u: Thread, pcu: Pc)
    requires RefsOk(m) && ThreadOk(m, u, pcu) && u != t && Hand(t, n) in m.places
    ensures Rely(m, m.(places := m.places - {Hand(t, n)}), u)
  {
    hide RefsOk, ThreadOk;
    var m' := m.(places := m.places - {Hand(t, n)});
    NamedIsAlive(m, Hand(t, n));
    OpenedElsewhere(m, Hand(t, n), u, pcu);
    forall f | f in m.files && f != m.places[Hand(t, n)]
      ensures Holders(m'.places, f) == Holders(m.places, f)
    {
    }
  }

  lemma TeardownRely(m: Memory, t: Thread, pc: Pc, u: Thread, pcu: Pc)
    requires RefsOk(m) && ThreadOk(m, t, pc) && pc.Closing? && ThreadOk(m, u, pcu) && u != t
    requires DoTeardown(m, t, pc.file, pc.at).Some?
    ensures Rely(m, DoTeardown(m, t, pc.file, pc.at).value.0, u)
  {
    hide NextProgress, DoUncount, RefsOk, Rely;
    var f := pc.file;
    DyingIsNotTaken(m, t, f, pc, u, pcu);
    var m' := DoTeardown(m, t, f, pc.at).value.0;
    if m.files[f].life.stage.CanFree? {
      FreeRely(m, t, f, u);
    } else if m.files[f].life.stage.TreeHeld? {
      UncountOnly(m, f, pc.at);
      FileRely(m, f, m'.files[f], u);
      CountsRely(m, SetFile(m, f, m'.files[f]), m', f, t, u);
    } else {
      ProgressIsOwn(m, t, f, pc, u);
      FileRely(m, f, m'.files[f], u);
      RelyAlike(m, SetFile(m, f, m'.files[f]), m', t, u);
    }
  }

  lemma FreeRely(m: Memory, t: Thread, f: FileId, u: Thread)
    requires RefsOk(m) && f in m.files && m.files[f].life.Dying? && m.files[f].life.who == t && u != t
    requires m.files[f].writer != Taken(u)
    ensures Rely(m, m.(files := m.files - {f}), u)
  {
  }

  /** The tree lock is held: nobody else has it */
  lemma CountsRely(m: Memory, m1: Memory, m': Memory, f: FileId, t: Thread, u: Thread)
    requires OnlyCounts(m, m', f) && m1 == SetFile(m, f, m'.files[f]) && Rely(m, m1, u) && m.treeLock == Some(t)
    requires u != t
    ensures Rely(m, m', u)
  {
    hide Rely;
    assert m'.files == m1.files;
    RelyAlike(m, m1, m', t, u);
  }

  lemma DyingIsNotTaken(m: Memory, t: Thread, f: FileId, pc: Pc, u: Thread, pcu: Pc)
    requires RefsOk(m) && ThreadOk(m, t, pc) && pc.Closing? && pc.file == f && ThreadOk(m, u, pcu) && u != t
    ensures m.files[f].writer != Taken(u)
  {
    if m.files[f].writer == Taken(u) {
      NamedIsAlive(m, Hand(u, pcu.n));
    }
  }

  lemma ProgressIsOwn(m: Memory, t: Thread, f: FileId, pc: Pc, u: Thread)
    requires LockOk(m, t, pc) && pc.Closing? && pc.file == f && f in m.files && m.files[f].life.Dying?
    requires m.files[f].life.who == t && u != t
    requires NextProgress(m, t, m.files[f]).Some? && m.files[f].writer != Taken(u)
    ensures var p := NextProgress(m, t, m.files[f]).value;
            && p.writer != Taken(u)
            && (p.treeLock == m.treeLock || (m.treeLock.None? && p.treeLock == Some(t))
                || (m.treeLock == Some(t) && p.treeLock.None?))
  {
  }

  /** Every step of one thread leaves to every other what it relies on */
  lemma StepRely(m: Memory, t: Thread, pc: Pc, a: Action, u: Thread, pcu: Pc)
    requires RefsOk(m) && ThreadOk(m, t, pc) && ThreadOk(m, u, pcu) && u != t && Do(m, t, pc, a).Some?
    ensures Rely(m, Do(m, t, pc, a).value.0, u)
  {
    hide RefsOk, Rely, NewFile, NewTwo, DoAct, DoClose, DoTeardown, DoCountOpen, DoRefuseOpen, Share, OnlyCounts,
      DoBeginOpen, DoOpenPipe, DoOpenPair, Owns, Knows;
    var m' := Do(m, t, pc, a).value.0;
    match a
    case BeginOpen(_, _, _, _) => NewRely(m, t, pc, a, u);
    case OpenOther(_, _) => NewRely(m, t, pc, a, u);
    case OpenPipe(_, _, _, _) => NewRely(m, t, pc, a, u);
    case OpenPair(_, _, _, _) => NewRely(m, t, pc, a, u);
    case RefuseOpen => RefuseRely(m, t, pc, u, pcu);
    case CountOpen =>
      CountOpenOnly(m, pc.file, pc.n, pc.at);
      OpeningRely(m, m', t, pc, u);
    case Dup(n, n') =>
      NamedIsAlive(m, Hand(t, n));
      OpenedElsewhere(m, Hand(t, n), u, pcu);
      ShareRely(m, Hand(t, n), t, n', u);
    case Shutdown(n) => ShutdownRely(m, t, n, u, pcu);
    case CloseWriter =>
      var file := m.files[pc.file];
      WriterRely(m, t, pc, u, pcu);
      RelyAlike(m, SetFile(m, pc.file, file.(writer := Shut)), m', t, u);
    case Act(n) => ActRely(m, t, pc, n, u, pcu);
    case Close(n) => CloseRely(m, t, n, u, pcu);
    case Teardown => TeardownRely(m, t, pc, u, pcu);
    case _ =>
      RelyItself(m, u);
      RelyAlike(m, m, m', t, u);
  }

  /** Steps that make files */
  lemma NewRely(m: Memory, t: Thread, pc: Pc, a: Action, u: Thread)
    requires RefsOk(m) && u != t && Do(m, t, pc, a).Some?
    requires a.BeginOpen? || a.OpenOther? || a.OpenPipe? || a.OpenPair?
    ensures Rely(m, Do(m, t, pc, a).value.0, u)
  {
    hide RefsOk, Rely, NewFile, NewTwo;
    var m' := Do(m, t, pc, a).value.0;
    match a
    case BeginOpen(f, node, writable, n) =>
      var m1 := NewFile(m, f, Vnode(node, writable), BeingOpened(t), Hand(t, n));
      NewFileRely(m, f, Vnode(node, writable), BeingOpened(t), t, n, u);
      NewFileLocks(m, f, Vnode(node, writable), BeingOpened(t), Hand(t, n));
      RelyAlike(m, m1, m', t, u);
    case OpenOther(f, n) => NewFileRely(m, f, Other, Open, t, n, u);
    case OpenPipe(r, w, n, n') =>
      NewTwoRely(m, t, r, PipeReader(m.pipes), w, PipeWriter(m.pipes), n, n', u);
      RelyAlike(m, NewTwo(m, t, r, PipeReader(m.pipes), w, PipeWriter(m.pipes), n, n'), m', t, u);
    case OpenPair(f, g, n, n') =>
      var one, other := m.pipes, m.pipes + 1;
      NewTwoRely(m, t, f, Local(one, other), g, Local(other, one), n, n', u);
      RelyAlike(m, NewTwo(m, t, f, Local(one, other), g, Local(other, one), n, n'), m', t, u);
  }

  lemma OpeningRely(m: Memory, m': Memory, t: Thread, pc: Pc, u: Thread)
    requires ThreadOk(m, t, pc) && pc.Opening? && u != t && OnlyCounts(m, m', pc.file)
    requires m'.files[pc.file].life == m.files[pc.file].life || m'.files[pc.file].life == Open
    ensures Rely(m, m', u)
  {
    hide Rely, Owns;
    FileRely(m, pc.file, m'.files[pc.file], u);
    CountsRely(m, SetFile(m, pc.file, m'.files[pc.file]), m', pc.file, t, u);
  }

  lemma RefuseRely(m: Memory, t: Thread, pc: Pc, u: Thread, pcu: Pc)
    requires RefsOk(m) && ThreadOk(m, t, pc) && ThreadOk(m, u, pcu) && pc.Opening? && u != t
    requires DoRefuseOpen(m, t, pc.file, pc.n, pc.at).Some?
    ensures Rely(m, DoRefuseOpen(m, t, pc.file, pc.n, pc.at).value.0, u)
  {
    hide LockOk, RefsOk, Rely;
    assert Hand(t, pc.n) in Holders(m.places, pc.file);
    GivenBackRely(m, DoRefuseOpen(m, t, pc.file, pc.n, pc.at).value.0, t, pc.file, pc.n, u);
  }

  /** A file that `t` had to itself is gone */
  lemma GivenBackRely(m: Memory, m': Memory, t: Thread, f: FileId, n: nat, u: Thread)
    requires u != t && f in m.files && m.files[f].life == BeingOpened(t) && m.files[f].writer != Taken(u)
    requires Lookup(m, Hand(t, n)) == Some(f)
    requires m'.files == m.files - {f} && m'.places == m.places - {Hand(t, n)} && m'.nodes == m.nodes
    requires m'.slotLock == m.slotLock && m'.treeLock == m.treeLock
    ensures Rely(m, m', u)
  {
    forall g | g in m.files && g != f
      ensures Holders(m'.places, g) == Holders(m.places, g)
    {
    }
  }

  lemma NewFileLocks(m: Memory, f: FileId, kind: Kind, life: Life, p: Place)
    ensures NewFile(m, f, kind, life, p).slotLock == m.slotLock && NewFile(m, f, kind, life, p).treeLock == m.treeLock
    ensures NewFile(m, f, kind, life, p).nodes == m.nodes
  {
  }

  lemma ShutdownRely(m: Memory, t: Thread, n: nat, u: Thread, pcu: Pc)
    requires RefsOk(m) && ThreadOk(m, u, pcu) && u != t && DoShutdown(m, t, n).Some?
    ensures Rely(m, DoShutdown(m, t, n).value.0, u)
  {
    hide RefsOk, Rely;
    RelyItself(m, u);
    var f := m.places[Hand(t, n)];
    NamedIsAlive(m, Hand(t, n));
    OpenedElsewhere(m, Hand(t, n), u, pcu);
    if m.files[f].writer == Unshut {
      FileRely(m, f, m.files[f].(writer := Taken(t)), u);
    }
  }

  lemma WriterRely(m: Memory, t: Thread, pc: Pc, u: Thread, pcu: Pc)
    requires RefsOk(m) && ThreadOk(m, t, pc) && ThreadOk(m, u, pcu) && u != t && pc.Shutting?
    ensures Rely(m, SetFile(m, pc.file, m.files[pc.file].(writer := Shut)), u)
  {
    hide RefsOk, Rely;
    NamedIsAlive(m, Hand(t, pc.n));
    OpenedElsewhere(m, Hand(t, pc.n), u, pcu);
    FileRely(m, pc.file, m.files[pc.file].(writer := Shut), u);
  }
}
