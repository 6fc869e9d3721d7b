/** What holds in every state that any run of `FdProtocol` reaches: the references,
    the locks, and what each thread may rely on while the others go on.
 */
module FdInvariant {
  import opened Common
  import opened FdProtocol

  // ----- Counting references -----

  /** Where a file is referred to from */
  ghost function Holders(places: map<Place, FileId>, f: FileId): set<Place> {
    set p | p in places && places[p] == f
  }

  ghost function Count(places: map<Place, FileId>, f: FileId): nat {
    |Holders(places, f)|
  }

  lemma CountAdd(places: map<Place, FileId>, p: Place, f: FileId, g: FileId)
    requires p !in places
    ensures Count(places[p := f], g) == Count(places, g) + (if f == g then 1 else 0)
  {
    assert Holders(places[p := f], g) == Holders(places, g) + (if f == g then {p} else {});
  }

  lemma CountRemove(places: map<Place, FileId>, p: Place, g: FileId)
    requires p in places
    ensures Count(places, g) == Count(places - {p}, g) + (if places[p] == g then 1 else 0)
  {
    assert Holders(places, g) == Holders(places - {p}, g) + (if places[p] == g then {p} else {});
  }

  lemma CountPositive(places: map<Place, FileId>, p: Place)
    requires p in places
    ensures Count(places, places[p]) > 0
  {
    assert p in Holders(places, places[p]);
  }

  lemma CountMove(places: map<Place, FileId>, p: Place, q: Place, g: FileId)
    requires p in places && q !in places
    ensures Count((places - {p})[q := places[p]], g) == Count(places, g)
  {
    CountRemove(places, p, g);
    CountAdd(places - {p}, q, places[p], g);
  }

  // ----- References -----

  /** No place names a file that is not there; a file's count is the number of its
      places; and it is 0 exactly while the file is being torn down */
  ghost predicate RefsOk(m: Memory) {
    && (forall p | p in m.places :: m.places[p] in m.files)
    && (forall f | f in m.files :: m.files[f].refs == Count(m.places, f))
    && (forall f | f in m.files :: m.files[f].refs == 0 <==> m.files[f].life.Dying?)
  }

  lemma NewFileRefs(m: Memory, f: FileId, kind: Kind, life: Life, p: Place)
    requires RefsOk(m) && f !in m.files && p !in m.places && !life.Dying?
    ensures RefsOk(NewFile(m, f, kind, life, p))
  {
    var m' := NewFile(m, f, kind, life, p);
    assert Holders(m.places, f) == {};
    forall g | g in m'.files
      ensures m'.files[g].refs == Count(m'.places, g)
    {
      CountAdd(m.places, p, f, g);
    }
  }

  lemma NewTwoRefs(m: Memory, t: Thread, f: FileId, k: Kind, g: FileId, l: Kind, n: nat, n': nat)
    requires RefsOk(m) && CanOpenTwo(m, t, f, g, n, n')
    ensures RefsOk(NewTwo(m, t, f, k, g, l, n, n'))
  {
    hide RefsOk;
    NewFileRefs(m, f, k, Open, Hand(t, n));
    NewFileRefs(NewFile(m, f, k, Open, Hand(t, n)), g, l, Open, Hand(t, n'));
  }

  /** One more place for a file, and one more reference */
  lemma ShareRefs(m: Memory, f: FileId, p: Place)
    requires RefsOk(m) && f in m.files && p !in m.places && m.files[f].refs > 0
    ensures RefsOk(Share(m, f, p))
  {
    var m' := Share(m, f, p);
    forall g | g in m'.files
      ensures m'.files[g].refs == Count(m'.places, g)
    {
      CountAdd(m.places, p, f, g);
    }
  }

  /** What is named somewhere has a reference */
  lemma NamedIsAlive(m: Memory, p: Place)
    requires RefsOk(m) && p in m.places
    ensures m.places[p] in m.files && m.files[m.places[p]].refs > 0 && !m.files[m.places[p]].life.Dying?
  {
    CountPositive(m.places, p);
  }

  lemma MoveRefs(m: Memory, p: Place, q: Place)
    requires RefsOk(m) && p in m.places && q !in m.places
    ensures RefsOk(m.(places := (m.places - {p})[q := m.places[p]]))
  {
    var m' := m.(places := (m.places - {p})[q := m.places[p]]);
    forall g | g in m'.files
      ensures m'.files[g].refs == Count(m'.places, g)
    {
      CountMove(m.places, p, q, g);
    }
  }

  /** Only files and places matter; a file's progress may change, not its count or
      whether it is dying */
  lemma SameRefs(m: Memory, m': Memory)
    requires RefsOk(m) && m'.places == m.places && m'.files.Keys == m.files.Keys
    requires forall f | f in m.files ::
               m'.files[f].refs == m.files[f].refs && m'.files[f].life.Dying? == m.files[f].life.Dying?
    ensures RefsOk(m')
  {
  }

  lemma CloseRefs(m: Memory, t: Thread, n: nat)
    requires RefsOk(m) && DoClose(m, t, n).Some?
    ensures RefsOk(DoClose(m, t, n).value.0)
  {
    var m' := DoClose(m, t, n).value.0;
    forall g | g in m'.files
      ensures m'.files[g].refs == Count(m'.places, g)
    {
      CountRemove(m.places, Hand(t, n), g);
    }
  }

  /** Only a node's counts have changed, and how far a file is counted */
  ghost predicate OnlyCounts(m: Memory, m': Memory, f: FileId) {
    && m' == m.(files := m'.files, nodes := m'.nodes) && f in m.files && m'.files.Keys == m.files.Keys
    && (forall g | g in m.files && g != f :: m'.files[g] == m.files[g])
    && m'.files[f] == m.files[f].(life := m'.files[f].life, opens := m'.files[f].opens, writes := m'.files[f].writes)
  }

  lemma CountOpenOnly(m: Memory, f: FileId, n: nat, at: Counting)
    requires DoCountOpen(m, f, n, at).Some?
    ensures var (m', pc') := DoCountOpen(m, f, n, at).value;
            && OnlyCounts(m, m', f) && (m'.files[f].life == m.files[f].life || m'.files[f].life == Open)
            && (pc'.Opening? || pc' == Opened)
  {
  }

  lemma UncountOnly(m: Memory, f: FileId, at: Counting)
    requires f in m.files && m.files[f].life.Dying? && m.files[f].life.stage.TreeHeld? && DoUncount(m, f, at).Some?
    ensures var (m', pc') := DoUncount(m, f, at).value;
            && OnlyCounts(m, m', f) && pc'.Closing? && pc'.file == f
            && (m'.files[f].life == m.files[f].life || m'.files[f].life == Dying(m.files[f].life.who, TreeDone))
  {
  }

  lemma TeardownRefs(m: Memory, t: Thread, f: FileId, at: Counting)
    requires RefsOk(m) && DoTeardown(m, t, f, at).Some?
    ensures RefsOk(DoTeardown(m, t, f, at).value.0)
  {
    hide NextProgress, DoUncount;
    var m' := DoTeardown(m, t, f, at).value.0;
    if m.files[f].life.stage.CanFree? {
      forall p | p in m'.places
        ensures m'.places[p] in m'.files
      {
        NamedIsAlive(m, p);
      }
    } else {
      if m.files[f].life.stage.TreeHeld? {
        UncountOnly(m, f, at);
      }
      SameRefs(m, m');
    }
  }

  /** fd_slot_set: the reference taken out and the one stored are counted as before */
  lemma SetRefs(m: Memory, t: Thread, op: SlotOp, n: nat)
    requires RefsOk(m) && op.SetSlot? && IsSlot(op.slot) && Hand(t, n) !in m.places
    requires DoSet(m, t, op, Lookup(m, op.slot), n).Some?
    ensures RefsOk(DoSet(m, t, op, Lookup(m, op.slot), n).value.0)
  {
    hide RefsOk;
    var taken :=
      if op.slot in m.places then (m.places - {op.slot})[Hand(t, n) := m.places[op.slot]] else m.places - {op.slot};
    var m1 := m.(places := taken);
    if op.slot in m.places {
      MoveRefs(m, op.slot, Hand(t, n));
    } else {
      assert m.places - {op.slot} == m.places;
      assert m1 == m;
    }
    if op.hand.Some? {
      MoveRefs(m1, Hand(t, op.hand.value), op.slot);
    }
  }

  lemma ActRefs(m: Memory, t: Thread, pc: Pc, n: nat)
    requires RefsOk(m) && Knows(m, t, pc) && DoAct(m, t, pc, n).Some?
    ensures RefsOk(DoAct(m, t, pc, n).value.0)
  {
    hide RefsOk;
    if pc.Scanning? {
    } else if pc.Found? {
      MoveRefs(m, Hand(t, pc.op.from), Slot(pc.op.table, pc.fd));
    } else if pc.op.SetSlot? {
      SetRefs(m, t, pc.op, n);
    } else if pc.op.TakeBack? {
      if pc.seen == Some(pc.op.file) {
        MoveRefs(m, pc.op.slot, Hand(t, n));
      }
    } else if pc.seen.Some? {
      NamedIsAlive(m, pc.op.slot);
      ShareRefs(m, pc.seen.value, Hand(t, n));
    }
  }

  /** Every step of a thread keeps the references right */
  lemma RefsKept(m: Memory, t: Thread, pc: Pc, a: Action)
    requires RefsOk(m) && Knows(m, t, pc) && Do(m, t, pc, a).Some?
    ensures RefsOk(Do(m, t, pc, a).value.0)
  {
    hide RefsOk, NewFile, NewTwo, DoAct, DoClose, DoTeardown, DoCountOpen, DoRefuseOpen, Share, Knows;
    var m' := Do(m, t, pc, a).value.0;
    match a
    case BeginOpen(f, node, writable, n) =>
      NewFileRefs(m, f, Vnode(node, writable), BeingOpened(t), Hand(t, n));
      SameRefs(NewFile(m, f, Vnode(node, writable), BeingOpened(t), Hand(t, n)), m');
    case RefuseOpen => RefuseRefs(m, t, pc);
    case CountOpen =>
      OpeningIsAlive(m, t, pc);
      CountOpenOnly(m, pc.file, pc.n, pc.at);
      SameRefs(m, m');
    case OpenOther(f, n) => NewFileRefs(m, f, Other, Open, Hand(t, n));
    case OpenPipe(r, w, n, n') =>
      NewTwoRefs(m, t, r, PipeReader(m.pipes), w, PipeWriter(m.pipes), n, n');
      SameRefs(NewTwo(m, t, r, PipeReader(m.pipes), w, PipeWriter(m.pipes), n, n'), m');
    case OpenPair(f, g, n, n') =>
      NewTwoRefs(m, t, f, Local(m.pipes, m.pipes + 1), g, Local(m.pipes + 1, m.pipes), n, n');
      SameRefs(NewTwo(m, t, f, Local(m.pipes, m.pipes + 1), g, Local(m.pipes + 1, m.pipes), n, n'), m');
    case Dup(n, n') =>
      NamedIsAlive(m, Hand(t, n));
      ShareRefs(m, m.places[Hand(t, n)], Hand(t, n'));
    case Act(n) => ActRefs(m, t, pc, n);
    case Close(n) => CloseRefs(m, t, n);
    case Teardown => TeardownRefs(m, t, pc.file, pc.at);
    case _ => SameRefs(m, m');
  }

  /** The file refused goes with its only reference */
  lemma RefuseRefs(m: Memory, t: Thread, pc: Pc)
    requires RefsOk(m) && Knows(m, t, pc) && pc.Opening? && DoRefuseOpen(m, t, pc.file, pc.n, pc.at).Some?
    ensures RefsOk(DoRefuseOpen(m, t, pc.file, pc.n, pc.at).value.0)
  {
    var m' := DoRefuseOpen(m, t, pc.file, pc.n, pc.at).value.0;
    var hand := Hand(t, pc.n);
    assert hand in Holders(m.places, pc.file);
    forall p | p in m'.places
      ensures m'.places[p] in m'.files
    {
      assert p !in Holders(m.places, pc.file);
    }
    forall g | g in m'.files
      ensures m'.files[g].refs == Count(m'.places, g)
    {
      CountRemove(m.places, hand, g);
    }
  }

  lemma OpeningIsAlive(m: Memory, t: Thread, pc: Pc)
    requires RefsOk(m) && Knows(m, t, pc) && pc.Opening?
    ensures pc.file in m.files && !m.files[pc.file].life.Dying?
  {
  }

  // ----- Stages -----

  predicate StageFits(kind: Kind, stage: Stage) {
    match stage
    case Start => true
    case CanFree => true
    case TreeHeld => kind.Vnode?
    case TreeDone => kind.Vnode?
    case ReaderClosed => kind.Local?
    case Exchanged => kind.Local?
  }

  /** A file that the tree lock is not held for is in all its counts or in none */
  predicate TallyFits(file: File) {
    if !file.kind.Vnode? then !file.opens && !file.writes
    else if file.life.Open? || (file.life.Dying? && file.life.stage.Start?)
    then file.opens && file.writes == file.kind.writable
    else if file.life.Dying? && !file.life.stage.TreeHeld? then !file.opens && !file.writes
    else true
  }

  /** The teardown a file is in fits its kind; its writer's end was closed before it
      can be freed; its node counts it from its opening to its teardown */
  predicate FileOk(file: File) {
    && (file.life.BeingOpened? ==> file.kind.Vnode?)
    && (file.life.Dying? ==> StageFits(file.kind, file.life.stage))
    && (!file.kind.Local? ==> file.writer == Unshut)
    && (file.life.Dying? && file.life.stage.Exchanged? ==> file.writer == Taken(file.life.who))
    && (file.life.Dying? && file.life.stage.CanFree? && file.kind.Local? ==> file.writer == Shut)
    && TallyFits(file)
  }

  ghost predicate StagesOk(m: Memory) {
    forall f | f in m.files :: FileOk(m.files[f])
  }

  // ----- What a thread knows -----

  /** A count that was read has not changed since */
  predicate SeenIsCurrent(m: Memory, node: nat, at: Counting) {
    match at
    case ToOpen(seen) => seen.Some? ==> seen.value == CountsOf(m, node).open
    case ToWrite(seen) => seen.Some? ==> seen.value == CountsOf(m, node).write
  }

  /** Which counts a file being closed is still in */
  predicate Uncounting(m: Memory, file: File, at: Counting)
    requires file.kind.Vnode?
  {
    && SeenIsCurrent(m, file.kind.node, at)
    && (if at.ToOpen? then file.opens && file.writes == file.kind.writable
        else !file.opens && file.writes && file.kind.writable)
  }

  /** In the middle of an operation: its operand is still its own, what it read in
      the slot is still there, the file it opens, shuts down or tears down is still
      its to open, shut down or tear down */
  ghost predicate Knows(m: Memory, t: Thread, pc: Pc) {
    match pc
    case Idle => true
    case Opened => true
    case Finished(_) => true
    case Want(op) => CanBegin(m, t, op)
    case Locked(op) => CanBegin(m, t, op)
    case Seen(op, seen) => !op.Install? && CanBegin(m, t, op) && seen == Lookup(m, op.slot)
    case Scanning(op, fd) =>
      && op.Install? && CanBegin(m, t, op) && fd <= TASK_MAX_FDS
      && forall k | 0 <= k < fd :: Slot(op.table, k) in m.places
    case Found(op, fd) =>
      && op.Install? && CanBegin(m, t, op) && fd < TASK_MAX_FDS && Slot(op.table, fd) !in m.places
      && forall k | 0 <= k < fd :: Slot(op.table, k) in m.places
    case Opening(f, n, at) =>
      && f in m.files && m.files[f].life == BeingOpened(t) && m.files[f].kind.Vnode?
      && Holders(m.places, f) == {Hand(t, n)}
      && SeenIsCurrent(m, m.files[f].kind.node, at)
      && (if at.ToOpen? then !m.files[f].opens && !m.files[f].writes
          else m.files[f].opens && !m.files[f].writes && m.files[f].kind.writable)
    case Shutting(f, n) =>
      && f in m.files && m.files[f].kind.Local? && m.files[f].writer == Taken(t)
      && Lookup(m, Hand(t, n)) == Some(f)
    case Closing(f, at) =>
      && f in m.files && m.files[f].life.Dying? && m.files[f].life.who == t
      && (if m.files[f].life.stage.TreeHeld? then m.files[f].kind.Vnode? && Uncounting(m, m.files[f], at)
          else at == ToOpen(None))
  }
}
