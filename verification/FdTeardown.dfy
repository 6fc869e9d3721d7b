/** What the last reference to a file sets going: the node's counts, the ends of the
    pipes, and that it happens once.
 */
module FdTeardown {
  import opened Common
  import opened FdProtocol
  import opened FdInvariant
  import opened FdThreads

  // ----- A thread's own files -----

  lemma OwnFiles(m: Memory, t: Thread, pc: Pc, a: Action)
    requires RefsOk(m) && ThreadOk(m, t, pc) && Do(m, t, pc, a).Some?
    ensures var (m', pc') := Do(m, t, pc, a).value;
            Owns(m', t, pc')
  {
    hide RefsOk, DoAct, DoClose, DoTeardown, DoCountOpen, DoRefuseOpen, LockOk, DoShutdown, Knows, NewFile, Owns;
    match a
    case BeginOpen(f, node, writable, n) =>
      var pc' := Opening(f, n, ToOpen(None));
      NewFileFiles(m, t, pc, f, Vnode(node, writable), BeingOpened(t), n, pc');
      SameFiles(NewFile(m, f, Vnode(node, writable), BeingOpened(t), Hand(t, n)), Do(m, t, pc, a).value.0, t, pc', pc');
    case RefuseOpen => RefuseFiles(m, t, pc);
    case OpenOther(f, n) => NewFileFiles(m, t, pc, f, Other, Open, n, pc);
    case OpenPipe(r, w, n, n') =>
      NewTwoFiles(m, t, r, PipeReader(m.pipes), w, PipeWriter(m.pipes), n, n', Do(m, t, pc, a).value.0);
    case OpenPair(f, g, n, n') =>
      NewTwoFiles(m, t, f, Local(m.pipes, m.pipes + 1), g, Local(m.pipes + 1, m.pipes), n, n', Do(m, t, pc, a).value.0);
    case Act(n) => ActFiles(m, t, pc, n);
    case Close(n) => CloseFiles(m, t, pc, n);
    case Teardown => TeardownFiles(m, t, pc);
    case Shutdown(n) => ShutdownFiles(m, t, pc, n);
    case CountOpen => CountOpenFiles(m, t, pc);
    case CloseWriter => CloseWriterFiles(m, t, pc);
    case Dup(n, n') => ShareFiles(m, t, pc, m.places[Hand(t, n)], Hand(t, n'));
    case Begin(op) => SameFiles(m, m, t, pc, Want(op));
    case Acquire => SameFiles(m, Do(m, t, pc, a).value.0, t, pc, Locked(pc.op));
    case Look => SameFiles(m, m, t, pc, Do(m, t, pc, a).value.1);
    case Release => SameFiles(m, Do(m, t, pc, a).value.0, t, pc, Idle);
    case EndOpen => SameFiles(m, Do(m, t, pc, a).value.0, t, pc, Idle);
  }

  lemma SameFiles(m: Memory, m': Memory, t: Thread, pc: Pc, pc': Pc)
    requires Owns(m, t, pc) && m'.files == m.files && (pc' == pc || (!pc.Opening? && !pc.Closing? && !pc.Shutting?))
    ensures Owns(m', t, pc')
  {
  }

  lemma NewFileFiles(m: Memory, t: Thread, pc: Pc, f: FileId, kind: Kind, life: Life, n: nat, pc': Pc)
    requires Owns(m, t, pc) && f !in m.files
    requires life == Open || (life == BeingOpened(t) && pc'.Opening? && pc'.file == f)
    requires pc.Idle? && (pc' == pc || pc'.Opening?)
    ensures Owns(NewFile(m, f, kind, life, Hand(t, n)), t, pc')
  {
  }

  lemma NewTwoFiles(m: Memory, t: Thread, f: FileId, k: Kind, g: FileId, l: Kind, n: nat, n': nat, m': Memory)
    requires Owns(m, t, Idle) && CanOpenTwo(m, t, f, g, n, n') && m'.files == NewTwo(m, t, f, k, g, l, n, n').files
    ensures Owns(m', t, Idle)
  {
    hide Owns;
    var m1 := NewFile(m, f, k, Open, Hand(t, n));
    NewFileFiles(m, t, Idle, f, k, Open, n, Idle);
    NewFileFiles(m1, t, Idle, g, l, Open, n', Idle);
    SameFiles(NewTwo(m, t, f, k, g, l, n, n'), m', t, Idle, Idle);
  }

  lemma CountOpenFiles(m: Memory, t: Thread, pc: Pc)
    requires RefsOk(m) && ThreadOk(m, t, pc) && pc.Opening?
    requires DoCountOpen(m, pc.file, pc.n, pc.at).Some?
    ensures var (m', pc') := DoCountOpen(m, pc.file, pc.n, pc.at).value;
            Owns(m', t, pc')
  {
    hide RefsOk, LockOk, Holders, SeenIsCurrent, CountsOf;
  }

  lemma RefuseFiles(m: Memory, t: Thread, pc: Pc)
    requires ThreadOk(m, t, pc) && pc.Opening? && DoRefuseOpen(m, t, pc.file, pc.n, pc.at).Some?
    ensures var (m', pc') := DoRefuseOpen(m, t, pc.file, pc.n, pc.at).value;
            Owns(m', t, pc')
  {
  }

  lemma CloseWriterFiles(m: Memory, t: Thread, pc: Pc)
    requires RefsOk(m) && ThreadOk(m, t, pc) && pc.Shutting? && DoCloseWriter(m, pc.file).Some?
    ensures Owns(DoCloseWriter(m, pc.file).value.0, t, Idle)
  {
  }

  lemma ShareFiles(m: Memory, t: Thread, pc: Pc, f: FileId, p: Place)
    requires Owns(m, t, pc) && f in m.files
    ensures Owns(Share(m, f, p), t, pc)
  {
  }

  lemma ShutdownFiles(m: Memory, t: Thread, pc: Pc, n: nat)
    requires ThreadOk(m, t, pc) && pc.Idle? && DoShutdown(m, t, n).Some?
    ensures var (m', pc') := DoShutdown(m, t, n).value;
            Owns(m', t, pc')
  {
  }

  lemma ActFiles(m: Memory, t: Thread, pc: Pc, n: nat)
    requires ThreadOk(m, t, pc) && DoAct(m, t, pc, n).Some?
    ensures var (m', pc') := DoAct(m, t, pc, n).value;
            Owns(m', t, pc')
  {
    hide Knows, LockOk;
    if pc.Seen? && pc.op.DupSlot? && pc.seen.Some? {
      ShareFiles(m, t, pc, pc.seen.value, Hand(t, n));
    } else {
      assert DoAct(m, t, pc, n).value.0.files == m.files;
    }
  }

  lemma CloseFiles(m: Memory, t: Thread, pc: Pc, n: nat)
    requires RefsOk(m) && ThreadOk(m, t, pc) && pc.Idle? && DoClose(m, t, n).Some?
    ensures var (m', pc') := DoClose(m, t, n).value;
            Owns(m', t, pc')
  {
    hide RefsOk;
    NamedIsAlive(m, Hand(t, n));
  }

  lemma TeardownFiles(m: Memory, t: Thread, pc: Pc)
    requires RefsOk(m) && ThreadOk(m, t, pc) && pc.Closing? && DoTeardown(m, t, pc.file, pc.at).Some?
    ensures var (m', pc') := DoTeardown(m, t, pc.file, pc.at).value;
            Owns(m', t, pc')
  {
    hide NextProgress, DoUncount, RefsOk, LockOk;
    if m.files[pc.file].life.stage.TreeHeld? {
      UncountOnly(m, pc.file, pc.at);
    } else if !m.files[pc.file].life.stage.CanFree? {
      ProgressWriter(m, t, pc);
    }
  }

  lemma ProgressWriter(m: Memory, t: Thread, pc: Pc)
    requires ThreadOk(m, t, pc) && pc.Closing? && NextProgress(m, t, m.files[pc.file]).Some?
    ensures var p := NextProgress(m, t, m.files[pc.file]).value;
            p.writer == Taken(t) ==> p.stage.Exchanged?
  {
  }

  // ----- Stages -----

  /** When a teardown comes to the exchange, a writer's end already shut has been
      closed: the thread that would still have to close it would hold a reference */
  lemma {:induction false} NotTakenByAnyone(s: State, t: Thread, f: FileId)
    requires RefsOk(s.mem) && (forall u: Thread :: ThreadOk(s.mem, u, s.PcOf(u)))
    requires s.PcOf(t).Closing? && s.PcOf(t).file == f
    requires f in s.mem.files && s.mem.files[f].life.Dying? && !s.mem.files[f].life.stage.Exchanged?
    ensures !s.mem.files[f].writer.Taken?
  {
    hide RefsOk;
    var writer := s.mem.files[f].writer;
    assert ThreadOk(s.mem, t, s.PcOf(t));
    if writer.Taken? && writer.who != t {
      assert ThreadOk(s.mem, writer.who, s.PcOf(writer.who));
      DyingIsNotTaken(s.mem, t, f, s.PcOf(t), writer.who, s.PcOf(writer.who));
    }
  }

  lemma StagesKept(s: State, t: Thread, a: Action)
    requires RefsOk(s.mem) && (forall u: Thread :: ThreadOk(s.mem, u, s.PcOf(u))) && StagesOk(s.mem)
    requires Do(s.mem, t, s.PcOf(t), a).Some?
    ensures StagesOk(Do(s.mem, t, s.PcOf(t), a).value.0)
  {
    hide RefsOk, ThreadOk, DoAct, DoTeardown, DoCountOpen;
    assert ThreadOk(s.mem, t, s.PcOf(t));
    match a
    case Teardown => TeardownStages(s, t, s.PcOf(t));
    case CountOpen => CountOpenStages(s.mem, t, s.PcOf(t));
    case Act(n) => ActStages(s.mem, t, s.PcOf(t), n);
    case Close(n) => ClosedWasOpened(s, t, n);
    case Shutdown(n) => NamedIsAlive(s.mem, Hand(t, n));
    case CloseWriter => ShuttingIsAlive(s.mem, t, s.PcOf(t));
    case _ =>
  }

  /** A file whose node is still to be counted is in the hand of the thread opening
      it, which is not closing anything */
  lemma ClosedWasOpened(s: State, t: Thread, n: nat)
    requires RefsOk(s.mem) && (forall u: Thread :: ThreadOk(s.mem, u, s.PcOf(u))) && s.PcOf(t).Idle?
    requires Hand(t, n) in s.mem.places
    ensures s.mem.places[Hand(t, n)] in s.mem.files && s.mem.files[s.mem.places[Hand(t, n)]].life.Open?
  {
    hide RefsOk, LockOk, Knows;
    NamedIsAlive(s.mem, Hand(t, n));
    var life := s.mem.files[s.mem.places[Hand(t, n)]].life;
    if life.BeingOpened? {
      assert ThreadOk(s.mem, life.who, s.PcOf(life.who));
      if life.who != t {
        OpenedElsewhere(s.mem, Hand(t, n), life.who, s.PcOf(life.who));
      }
    }
  }

  lemma CountOpenStages(m: Memory, t: Thread, pc: Pc)
    requires StagesOk(m) && ThreadOk(m, t, pc) && pc.Opening? && DoCountOpen(m, pc.file, pc.n, pc.at).Some?
    ensures StagesOk(DoCountOpen(m, pc.file, pc.n, pc.at).value.0)
  {
    hide LockOk, Owns;
  }

  lemma ShuttingIsAlive(m: Memory, t: Thread, pc: Pc)
    requires RefsOk(m) && ThreadOk(m, t, pc) && pc.Shutting?
    ensures pc.file in m.files && !m.files[pc.file].life.Dying?
  {
    NamedIsAlive(m, Hand(t, pc.n));
  }

  lemma ActStages(m: Memory, t: Thread, pc: Pc, n: nat)
    requires StagesOk(m) && DoAct(m, t, pc, n).Some?
    ensures StagesOk(DoAct(m, t, pc, n).value.0)
  {
  }

  lemma TeardownStages(s: State, t: Thread, pc: Pc)
    requires RefsOk(s.mem) && (forall u: Thread :: ThreadOk(s.mem, u, s.PcOf(u))) && StagesOk(s.mem)
    requires s.PcOf(t) == pc && pc.Closing? && DoTeardown(s.mem, t, pc.file, pc.at).Some?
    ensures StagesOk(DoTeardown(s.mem, t, pc.file, pc.at).value.0)
  {
    hide RefsOk, NextProgress, DoUncount, FileOk;
    var m, f := s.mem, pc.file;
    assert ThreadOk(m, t, pc);
    if m.files[f].life.stage.TreeHeld? {
      UncountStages(m, t, pc);
    } else if !m.files[f].life.stage.CanFree? {
      if !m.files[f].life.stage.Exchanged? {
        NotTakenByAnyone(s, t, f);
      }
      ProgressFits(m, t, m.files[f]);
    }
  }

  lemma UncountStages(m: Memory, t: Thread, pc: Pc)
    requires StagesOk(m) && Knows(m, t, pc) && pc.Closing? && m.files[pc.file].life.stage.TreeHeld?
    requires DoUncount(m, pc.file, pc.at).Some?
    ensures StagesOk(DoUncount(m, pc.file, pc.at).value.0)
  {
    assert FileOk(m.files[pc.file]);
  }

  lemma ProgressFits(m: Memory, t: Thread, file: File)
    requires FileOk(file) && file.life.Dying? && file.life.who == t && NextProgress(m, t, file).Some?
    requires !file.life.stage.Exchanged? ==> !file.writer.Taken?
    ensures var p := NextProgress(m, t, file).value;
            FileOk(file.(life := Dying(t, p.stage), writer := p.writer))
  {
  }

  // ----- Torn down once -----

  /** Files have serial numbers of their own */
  ghost predicate SerialsOk(m: Memory) {
    && (forall f | f in m.files :: m.files[f].serial < m.serials)
    && (forall f, g | f in m.files && g in m.files && m.files[f].serial == m.files[g].serial :: f == g)
  }

  ghost predicate Live(m: Memory, serial: nat) {
    exists f :: f in m.files && m.files[f].serial == serial && !m.files[f].life.Dying?
  }

  /** Every file that ever was has begun to be torn down: not at all while it is
      alive, once from then on */
  ghost predicate TornOk(m: Memory) {
    forall k: nat | k < m.serials :: k in m.torn && m.torn[k] == if Live(m, k) then 0 else 1
  }

  /** The same files are alive */
  lemma SameTorn(m: Memory, m': Memory)
    requires SerialsOk(m) && TornOk(m) && m'.files.Keys == m.files.Keys && m'.torn == m.torn && m'.serials == m.serials
    requires forall f | f in m.files ::
               m'.files[f].serial == m.files[f].serial && m'.files[f].life.Dying? == m.files[f].life.Dying?
    ensures SerialsOk(m') && TornOk(m')
  {
    forall k: nat
      ensures Live(m', k) == Live(m, k)
    {
      if Live(m, k) {
        var f :| f in m.files && m.files[f].serial == k && !m.files[f].life.Dying?;
        assert f in m'.files && m'.files[f].serial == k && !m'.files[f].life.Dying?;
      }
    }
  }

  lemma NewFileTorn(m: Memory, f: FileId, kind: Kind, life: Life, p: Place)
    requires SerialsOk(m) && TornOk(m) && f !in m.files && !life.Dying?
    ensures SerialsOk(NewFile(m, f, kind, life, p)) && TornOk(NewFile(m, f, kind, life, p))
  {
    var m' := NewFile(m, f, kind, life, p);
    forall k: nat | k < m'.serials
      ensures Live(m', k) == (Live(m, k) || k == m.serials)
    {
      NewFileLive(m, f, kind, life, p, k);
    }
  }

  lemma NewFileLive(m: Memory, f: FileId, kind: Kind, life: Life, p: Place, k: nat)
    requires SerialsOk(m) && f !in m.files && !life.Dying?
    ensures Live(NewFile(m, f, kind, life, p), k) == (Live(m, k) || k == m.serials)
  {
    var m' := NewFile(m, f, kind, life, p);
    if k == m.serials {
      assert f in m'.files && m'.files[f].serial == k && !m'.files[f].life.Dying?;
    } else if Live(m, k) {
      var g :| g in m.files && m.files[g].serial == k && !m.files[g].life.Dying?;
      assert g in m'.files && m'.files[g].serial == k && !m'.files[g].life.Dying?;
    }
  }

  /** A file dies, or is taken away */
  lemma DyingLive(m: Memory, m': Memory, f: FileId, k: nat)
    requires SerialsOk(m) && f in m.files && (f in m'.files ==> m'.files[f].life.Dying?)
    requires forall g | g != f :: (g in m'.files <==> g in m.files) && (g in m.files ==> m'.files[g] == m.files[g])
    ensures Live(m', k) == (Live(m, k) && k != m.files[f].serial)
  {
    if Live(m, k) && k != m.files[f].serial {
      var g :| g in m.files && m.files[g].serial == k && !m.files[g].life.Dying?;
      assert g in m'.files && m'.files[g].serial == k && !m'.files[g].life.Dying?;
    }
  }

  lemma CloseTorn(m: Memory, t: Thread, n: nat)
    requires RefsOk(m) && SerialsOk(m) && TornOk(m) && DoClose(m, t, n).Some?
    ensures SerialsOk(DoClose(m, t, n).value.0) && TornOk(DoClose(m, t, n).value.0)
  {
    hide RefsOk, Live;
    var m', f := DoClose(m, t, n).value.0, m.places[Hand(t, n)];
    NamedIsAlive(m, Hand(t, n));
    if m.files[f].refs > 1 {
      SameTorn(m, m');
    } else {
      LiveItself(m, f);
      forall k: nat
        ensures Live(m', k) == (Live(m, k) && k != m.files[f].serial)
      {
        DyingLive(m, m', f, k);
      }
    }
  }

  lemma LiveItself(m: Memory, f: FileId)
    requires SerialsOk(m) && f in m.files
    ensures Live(m, m.files[f].serial) == !m.files[f].life.Dying?
  {
  }

  lemma FreeTorn(m: Memory, f: FileId)
    requires SerialsOk(m) && TornOk(m) && f in m.files && m.files[f].life.Dying?
    ensures SerialsOk(m.(files := m.files - {f})) && TornOk(m.(files := m.files - {f}))
  {
    hide Live;
    var m' := m.(files := m.files - {f});
    LiveItself(m, f);
    forall k: nat
      ensures Live(m', k) == Live(m, k)
    {
      DyingLive(m, m', f, k);
    }
  }

  lemma TornKept(m: Memory, t: Thread, pc: Pc, a: Action)
    requires RefsOk(m) && ThreadOk(m, t, pc) && SerialsOk(m) && TornOk(m) && Do(m, t, pc, a).Some?
    ensures SerialsOk(Do(m, t, pc, a).value.0) && TornOk(Do(m, t, pc, a).value.0)
  {
    hide RefsOk, ThreadOk, SerialsOk, TornOk, DoBeginOpen, NewFile, DoOpenPipe, DoOpenPair, DoClose, DoAct, DoTeardown,
      DoCountOpen, DoRefuseOpen;
    var m' := Do(m, t, pc, a).value.0;
    match a
    case BeginOpen(_, _, _, _) => NewTorn(m, t, pc, a);
    case OpenOther(_, _) => NewTorn(m, t, pc, a);
    case OpenPipe(_, _, _, _) => NewTorn(m, t, pc, a);
    case OpenPair(_, _, _, _) => NewTorn(m, t, pc, a);
    case Close(n) => CloseTorn(m, t, n);
    case Act(n) =>
      ActTorn(m, t, pc, n);
      SameTorn(m, m');
    case Teardown => TeardownTorn(m, t, pc.file, pc.at);
    case CountOpen =>
      OpeningIsNotDying(m, t, pc);
      CountOpenOnly(m, pc.file, pc.n, pc.at);
      SameTorn(m, m');
    case RefuseOpen => RefuseTorn(m, t, pc);
    case _ => SameTorn(m, m');
  }

  lemma NewTorn(m: Memory, t: Thread, pc: Pc, a: Action)
    requires SerialsOk(m) && TornOk(m) && Do(m, t, pc, a).Some?
    requires a.BeginOpen? || a.OpenOther? || a.OpenPipe? || a.OpenPair?
    ensures SerialsOk(Do(m, t, pc, a).value.0) && TornOk(Do(m, t, pc, a).value.0)
  {
    hide SerialsOk, TornOk, NewFile, NewTwo;
    var m' := Do(m, t, pc, a).value.0;
    match a
    case BeginOpen(f, node, writable, n) =>
      NewFileTorn(m, f, Vnode(node, writable), BeingOpened(t), Hand(t, n));
      SameTorn(NewFile(m, f, Vnode(node, writable), BeingOpened(t), Hand(t, n)), m');
    case OpenOther(f, n) => NewFileTorn(m, f, Other, Open, Hand(t, n));
    case OpenPipe(r, w, n, n') => NewTwoTorn(m, t, r, PipeReader(m.pipes), w, PipeWriter(m.pipes), n, n', m');
    case OpenPair(f, g, n, n') =>
      NewTwoTorn(m, t, f, Local(m.pipes, m.pipes + 1), g, Local(m.pipes + 1, m.pipes), n, n', m');
  }

  lemma OpeningIsNotDying(m: Memory, t: Thread, pc: Pc)
    requires ThreadOk(m, t, pc) && pc.Opening?
    ensures pc.file in m.files && m.files[pc.file].life.BeingOpened?
  {
  }

  lemma RefuseTorn(m: Memory, t: Thread, pc: Pc)
    requires ThreadOk(m, t, pc) && pc.Opening? && SerialsOk(m) && TornOk(m)
    requires DoRefuseOpen(m, t, pc.file, pc.n, pc.at).Some?
    ensures var m' := DoRefuseOpen(m, t, pc.file, pc.n, pc.at).value.0;
            SerialsOk(m') && TornOk(m')
  {
    hide Live;
    var m', f := DoRefuseOpen(m, t, pc.file, pc.n, pc.at).value.0, pc.file;
    LiveItself(m, f);
    forall k: nat
      ensures Live(m', k) == (Live(m, k) && k != m.files[f].serial)
    {
      DyingLive(m, m', f, k);
    }
  }

  lemma TeardownTorn(m: Memory, t: Thread, f: FileId, at: Counting)
    requires SerialsOk(m) && TornOk(m) && DoTeardown(m, t, f, at).Some?
    ensures SerialsOk(DoTeardown(m, t, f, at).value.0) && TornOk(DoTeardown(m, t, f, at).value.0)
  {
    hide SerialsOk, TornOk, NextProgress, DoUncount;
    if m.files[f].life.stage.CanFree? {
      FreeTorn(m, f);
    } else {
      if m.files[f].life.stage.TreeHeld? {
        UncountOnly(m, f, at);
      }
      SameTorn(m, DoTeardown(m, t, f, at).value.0);
    }
  }

  lemma NewTwoTorn(m: Memory, t: Thread, f: FileId, k: Kind, g: FileId, l: Kind, n: nat, n': nat, m': Memory)
    requires SerialsOk(m) && TornOk(m) && CanOpenTwo(m, t, f, g, n, n')
    requires var m2 := NewTwo(m, t, f, k, g, l, n, n');
             m'.files == m2.files && m'.torn == m2.torn && m'.serials == m2.serials
    ensures SerialsOk(m') && TornOk(m')
  {
    hide SerialsOk, TornOk;
    NewFileTorn(m, f, k, Open, Hand(t, n));
    NewFileTorn(NewFile(m, f, k, Open, Hand(t, n)), g, l, Open, Hand(t, n'));
    SameTorn(NewTwo(m, t, f, k, g, l, n, n'), m');
  }

  lemma ActTorn(m: Memory, t: Thread, pc: Pc, n: nat)
    requires DoAct(m, t, pc, n).Some?
    ensures var m' := DoAct(m, t, pc, n).value.0;
            && m'.files.Keys == m.files.Keys && m'.torn == m.torn && m'.serials == m.serials
            && m'.nodes == m.nodes && m'.ends == m.ends && m'.pipes == m.pipes
            && forall f | f in m.files :: m'.files[f].serial == m.files[f].serial && m'.files[f].life == m.files[f].life
                                          && m'.files[f].kind == m.files[f].kind
                                          && m'.files[f].writer == m.files[f].writer
  {
    hide Lookup;
    if pc.Seen? && pc.op.DupSlot? && pc.seen.Some? {
      assert DoAct(m, t, pc, n) == DoDupSlot(m, t, pc.op, pc.seen, n);
    } else {
      ActMovesOnly(m, t, pc, n);
    }
  }

  lemma ActMovesOnly(m: Memory, t: Thread, pc: Pc, n: nat)
    requires DoAct(m, t, pc, n).Some? && !(pc.Seen? && pc.op.DupSlot? && pc.seen.Some?)
    ensures DoAct(m, t, pc, n).value.0 == m.(places := DoAct(m, t, pc, n).value.0.places)
  {
  }
}
