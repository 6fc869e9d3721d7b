/** Open files shared by threads: reference counts changed atomically, descriptor
    slots changed under one lock, the counts of a node under another, and what
    the last reference to go tears down.

    Any number of threads run the operations at once; a state machine takes
    one step of one thread at a time. A step is one access to shared memory: taking or
    leaving a lock, reading a slot, writing it, changing a count.
 */
module FdProtocol {
  import opened Common

  const TASK_MAX_FDS: nat := 16

  type Thread = nat
  type FileId = nat   // An address: used again once the file there is freed

  /** Where a reference is kept: a descriptor slot, or a variable of a thread */
  datatype Place = Slot(table: nat, fd: nat) | Hand(thread: Thread, n: nat)

  datatype Kind =
    | Vnode(node: nat, writable: bool)
    | PipeReader(pipe: nat)
    | PipeWriter(pipe: nat)
    | Local(input: nat, output: nat)
    | Other

  /** One end of a pipe */
  datatype PipeEnd = ReadEnd(pipe: nat) | WriteEnd(pipe: nat)

  /** How far a file_close that dropped the last reference has got */
  datatype Stage = Start | TreeHeld | TreeDone | ReaderClosed | Exchanged | CanFree

  /** Where a file is in its life, and which thread is at it */
  datatype Life = BeingOpened(who: Thread) | Open | Dying(who: Thread, stage: Stage)

  /** The writer's end of a local file: `Taken` once a thread has set local_shut and
      before that thread has closed the end */
  datatype Writer = Unshut | Taken(who: Thread) | Shut

  /** An open file; `serial` tells files apart that were at one address, and `opens` and
      `writes` say whether its node's counts have it in them. The code has none of the
      three, and no step depends on them. */
  datatype File = File(refs: nat, kind: Kind, serial: nat, life: Life, writer: Writer, opens: bool, writes: bool)

  datatype Counts = Counts(open: nat, write: nat)

  /** What the threads share */
  datatype Memory = Memory(
    files: map<FileId, File>,
    places: map<Place, FileId>,
    slotLock: Option<Thread>,
    treeLock: Option<Thread>,
    nodes: map<nat, Counts>,
    ends: map<PipeEnd, nat>,     // How often each end has been closed
    torn: map<nat, nat>,         // How often each file, by serial number, has begun to be torn down
    serials: nat,
    pipes: nat)

  /** The operations under the slot lock */
  datatype SlotOp =
    | SetSlot(slot: Place, hand: Option<nat>)
    | TakeBack(slot: Place, file: FileId)
    | DupSlot(slot: Place)
    | Install(table: nat, from: nat)

  /** Which of a node's counts a thread changes next, and the value it has read of it */
  datatype Counting = ToOpen(seen: Option<nat>) | ToWrite(seen: Option<nat>)

  /** Where a thread is */
  datatype Pc =
    | Idle
    | Want(op: SlotOp)                            // Before the lock
    | Locked(op: SlotOp)                          // The lock held
    | Seen(op: SlotOp, seen: Option<FileId>)      // The slot read
    | Scanning(op: SlotOp, fd: nat)               // Slots below fd found in use
    | Found(op: SlotOp, fd: nat)                  // And slot fd found free
    | Finished(op: SlotOp)                        // The slot written, the lock still held
    | Opening(file: FileId, n: nat, at: Counting) // The tree lock held, the node being counted
    | Opened                                      // Counted or refused, the tree lock still held
    | Shutting(file: FileId, n: nat)              // local_shut taken, the writer's end still to close
    | Closing(file: FileId, at: Counting)

  datatype State = State(mem: Memory, pcs: map<Thread, Pc>) {
    function PcOf(t: Thread): Pc {
      if t in pcs then pcs[t] else Idle
    }
  }

  function Lookup(m: Memory, p: Place): Option<FileId> {
    if p in m.places then Some(m.places[p]) else None
  }

  predicate IsSlot(p: Place) {
    p.Slot? && p.fd < TASK_MAX_FDS
  }

  // ----- Steps -----

  /** What a thread may do next. New addresses and hands are the step's to choose. */
  datatype Action =
    | BeginOpen(file: FileId, node: nat, writable: bool, n: nat)
    | RefuseOpen
    | CountOpen
    | EndOpen
    | OpenOther(file: FileId, n: nat)
    | OpenPipe(reader: FileId, writer: FileId, n: nat, m: nat)
    | OpenPair(first: FileId, second: FileId, n: nat, m: nat)
    | Dup(n: nat, m: nat)
    | Shutdown(n: nat)
    | CloseWriter
    | Begin(op: SlotOp)
    | Acquire
    | Look
    | Act(n: nat)
    | Release
    | Close(n: nat)
    | Teardown

  /** The memory after a step, and where the thread is then */
  type Effect = Option<(Memory, Pc)>

  /** file_alloc, the one reference kept at `p` */
  function NewFile(m: Memory, f: FileId, kind: Kind, life: Life, p: Place): Memory {
    m.(files := m.files[f := File(1, kind, m.serials, life, Unshut, false, false)],
       places := m.places[p := f],
       torn := m.torn[m.serials := 0],
       serials := m.serials + 1)
  }

  function SetFile(m: Memory, f: FileId, file: File): Memory {
    m.(files := m.files[f := file])
  }

  /** pipe_close_reader and pipe_close_writer, as counters */
  function CloseEnd(m: Memory, e: PipeEnd): Memory {
    m.(ends := m.ends[e := (if e in m.ends then m.ends[e] else 0) + 1])
  }

  function CountsOf(m: Memory, node: nat): Counts {
    if node in m.nodes then m.nodes[node] else Counts(0, 0)
  }

  /** file_open_as: under the tree lock the file is made and its node counted */
  function DoBeginOpen(m: Memory, t: Thread, f: FileId, node: nat, writable: bool, n: nat): Effect {
    if m.treeLock.None? && f !in m.files && Hand(t, n) !in m.places then
      Some((NewFile(m, f, Vnode(node, writable), BeingOpened(t), Hand(t, n)).(treeLock := Some(t)),
            Opening(f, n, ToOpen(None))))
    else None
  }

  /** The file system refuses: the file is given back before anything was counted */
  function DoRefuseOpen(m: Memory, t: Thread, f: FileId, n: nat, at: Counting): Effect {
    if f !in m.files || at != ToOpen(None) then None
    else
      var serial := m.files[f].serial;
      var times := if serial in m.torn then m.torn[serial] else 0;
      Some((m.(files := m.files - {f}, places := m.places - {Hand(t, n)}, torn := m.torn[serial := times + 1]), Opened))
  }

  function WithOpen(m: Memory, node: nat, v: nat): Memory {
    m.(nodes := m.nodes[node := CountsOf(m, node).(open := v)])
  }

  function WithWrite(m: Memory, node: nat, v: nat): Memory {
    m.(nodes := m.nodes[node := CountsOf(m, node).(write := v)])
  }

  /** open_count++ and write_count++: each is read in one step and written in another */
  function DoCountOpen(m: Memory, f: FileId, n: nat, at: Counting): Effect {
    if f !in m.files || !m.files[f].kind.Vnode? then None
    else
      var file := m.files[f];
      var node, writable := file.kind.node, file.kind.writable;
      match at
      case ToOpen(None) => Some((m, Opening(f, n, ToOpen(Some(CountsOf(m, node).open)))))
      case ToOpen(Some(v)) =>
        Some((WithOpen(SetFile(m, f, file.(opens := true, life := if writable then file.life else Open)), node, v + 1),
              if writable then Opening(f, n, ToWrite(None)) else Opened))
      case ToWrite(None) => Some((m, Opening(f, n, ToWrite(Some(CountsOf(m, node).write)))))
      case ToWrite(Some(v)) =>
        Some((WithWrite(SetFile(m, f, file.(writes := true, life := Open)), node, v + 1), Opened))
  }

  predicate CanOpenTwo(m: Memory, t: Thread, f: FileId, g: FileId, n: nat, n': nat) {
    f !in m.files && g !in m.files && f != g && n != n' && Hand(t, n) !in m.places && Hand(t, n') !in m.places
  }

  /** Two files at once: a pipe's ends, or the two sides of a local connection */
  function NewTwo(m: Memory, t: Thread, f: FileId, k: Kind, g: FileId, l: Kind, n: nat, n': nat): Memory {
    NewFile(NewFile(m, f, k, Open, Hand(t, n)), g, l, Open, Hand(t, n'))
  }

  function NewEnds(ends: map<PipeEnd, nat>, pipe: nat): map<PipeEnd, nat> {
    ends[ReadEnd(pipe) := 0][WriteEnd(pipe) := 0]
  }

  function DoOpenPipe(m: Memory, t: Thread, r: FileId, w: FileId, n: nat, n': nat): Effect {
    if !CanOpenTwo(m, t, r, w, n, n') then None
    else Some((NewTwo(m, t, r, PipeReader(m.pipes), w, PipeWriter(m.pipes), n, n')
                 .(pipes := m.pipes + 1, ends := NewEnds(m.ends, m.pipes)), Idle))
  }

  function DoOpenPair(m: Memory, t: Thread, f: FileId, g: FileId, n: nat, n': nat): Effect {
    if !CanOpenTwo(m, t, f, g, n, n') then None
    else
      var one, other := m.pipes, m.pipes + 1;
      Some((NewTwo(m, t, f, Local(one, other), g, Local(other, one), n, n')
              .(pipes := m.pipes + 2, ends := NewEnds(NewEnds(m.ends, one), other)), Idle))
  }

  /** The file a thread holds in hand `n` */
  function InHand(m: Memory, t: Thread, n: nat): Option<FileId> {
    if Hand(t, n) in m.places && m.places[Hand(t, n)] in m.files then Some(m.places[Hand(t, n)]) else None
  }

  /** One more reference to a file, kept at `p` */
  function Share(m: Memory, f: FileId, p: Place): Memory
    requires f in m.files
  {
    SetFile(m, f, m.files[f].(refs := m.files[f].refs + 1)).(places := m.places[p := f])
  }

  /** file_dup */
  function DoDup(m: Memory, t: Thread, n: nat, n': nat): Effect {
    if InHand(m, t, n).None? || Hand(t, n') in m.places then None
    else Some((Share(m, InHand(m, t, n).value, Hand(t, n')), Idle))
  }

  /** file_local_shutdown: local_shut is exchanged in one step; whoever finds it
      unset closes the writer's end next */
  function DoShutdown(m: Memory, t: Thread, n: nat): Effect {
    var held := InHand(m, t, n);
    if held.None? || !m.files[held.value].kind.Local? then None
    else if m.files[held.value].writer != Unshut then Some((m, Idle))
    else Some((SetFile(m, held.value, m.files[held.value].(writer := Taken(t))), Shutting(held.value, n)))
  }

  function DoCloseWriter(m: Memory, f: FileId): Effect {
    if f !in m.files || !m.files[f].kind.Local? then None
    else Some((CloseEnd(SetFile(m, f, m.files[f].(writer := Shut)), WriteEnd(m.files[f].kind.output)), Idle))
  }

  /** The caller's part: a slot that exists, and a reference of its own to store */
  predicate CanBegin(m: Memory, t: Thread, op: SlotOp) {
    match op
    case SetSlot(p, h) => IsSlot(p) && (h.Some? ==> Hand(t, h.value) in m.places)
    case TakeBack(p, _) => IsSlot(p)
    case DupSlot(p) => IsSlot(p)
    case Install(_, n) => Hand(t, n) in m.places
  }

  /** fd_slot_set, the slot read: what is stored leaves the thread's hand, what was
      in the slot comes into hand `n` */
  function DoSet(m: Memory, t: Thread, op: SlotOp, seen: Option<FileId>, n: nat): Effect
    requires op.SetSlot?
  {
    if op.hand.Some? && Hand(t, op.hand.value) !in m.places then None
    else
      var taken := if seen.Some? then (m.places - {op.slot})[Hand(t, n) := seen.value] else m.places - {op.slot};
      var stored :=
        if op.hand.Some? && Hand(t, op.hand.value) in taken
        then (taken - {Hand(t, op.hand.value)})[op.slot := taken[Hand(t, op.hand.value)]] else taken;
      Some((m.(places := stored), Finished(op)))
  }

  /** fd_take_back: only if the slot still held that file */
  function DoTakeBack(m: Memory, t: Thread, op: SlotOp, seen: Option<FileId>, n: nat): Effect
    requires op.TakeBack?
  {
    if seen != Some(op.file) then Some((m, Finished(op)))
    else Some((m.(places := (m.places - {op.slot})[Hand(t, n) := op.file]), Finished(op)))
  }

  /** fd_slot_dup */
  function DoDupSlot(m: Memory, t: Thread, op: SlotOp, seen: Option<FileId>, n: nat): Effect {
    if seen.None? then Some((m, Finished(op)))
    else if seen.value !in m.files then None
    else Some((Share(m, seen.value, Hand(t, n)), Finished(op)))
  }

  /** fd_install: the next slot looked at, if there is one */
  function DoScan(m: Memory, op: SlotOp, fd: nat): Effect {
    if !op.Install? then None
    else if fd >= TASK_MAX_FDS then Some((m, Finished(op)))
    else if Slot(op.table, fd) in m.places then Some((m, Scanning(op, fd + 1)))
    else Some((m, Found(op, fd)))
  }

  /** The file stored in the slot that was free when it was looked at */
  function DoStore(m: Memory, t: Thread, op: SlotOp, fd: nat): Effect {
    if !op.Install? || Hand(t, op.from) !in m.places then None
    else
      var file := m.places[Hand(t, op.from)];
      Some((m.(places := (m.places - {Hand(t, op.from)})[Slot(op.table, fd) := file]), Finished(op)))
  }

  function DoAct(m: Memory, t: Thread, pc: Pc, n: nat): Effect {
    if pc.Scanning? then DoScan(m, pc.op, pc.fd)
    else if pc.Found? then DoStore(m, t, pc.op, pc.fd)
    else if !pc.Seen? || Hand(t, n) in m.places then None
    else if pc.op.SetSlot? then DoSet(m, t, pc.op, pc.seen, n)
    else if pc.op.TakeBack? then DoTakeBack(m, t, pc.op, pc.seen, n)
    else if pc.op.DupSlot? then DoDupSlot(m, t, pc.op, pc.seen, n)
    else None
  }

  /** file_close: the reference goes; the last one starts the teardown */
  function DoClose(m: Memory, t: Thread, n: nat): Effect {
    var held := InHand(m, t, n);
    if held.None? || m.files[held.value].refs == 0 then None
    else
      var f := held.value;
      var file := m.files[f];
      var gone := m.(places := m.places - {Hand(t, n)});
      if file.refs > 1 then Some((SetFile(gone, f, file.(refs := file.refs - 1)), Idle))
      else
        var times := if file.serial in m.torn then m.torn[file.serial] else 0;
        Some((SetFile(gone, f, file.(refs := 0, life := Dying(t, Start))).(torn := m.torn[file.serial := times + 1]),
              Closing(f, ToOpen(None))))
  }

  /** A step of a teardown other than counting and freeing: the file's next stage, and what
      is done to its writer, the pipes and the tree lock */
  datatype Progress = Progress(stage: Stage, writer: Writer, ends: map<PipeEnd, nat>, treeLock: Option<Thread>)

  function NextProgress(m: Memory, t: Thread, file: File): Option<Progress>
    requires file.life.Dying?
  {
    var same := Progress(CanFree, file.writer, m.ends, m.treeLock);
    match file.life.stage
    case Start =>
      (match file.kind
       case Vnode(_, _) => if m.treeLock.None? then Some(same.(stage := TreeHeld, treeLock := Some(t))) else None
       case PipeReader(pipe) => Some(same.(ends := CloseEnd(m, ReadEnd(pipe)).ends))
       case PipeWriter(pipe) => Some(same.(ends := CloseEnd(m, WriteEnd(pipe)).ends))
       case Local(input, _) => Some(same.(stage := ReaderClosed, ends := CloseEnd(m, ReadEnd(input)).ends))
       case Other => Some(same))
    case TreeHeld => None
    case TreeDone => Some(same.(treeLock := None))
    case ReaderClosed =>
      if file.writer != Unshut then Some(same) else Some(same.(stage := Exchanged, writer := Taken(t)))
    case Exchanged =>
      if !file.kind.Local? then None
      else Some(same.(writer := Shut, ends := CloseEnd(m, WriteEnd(file.kind.output)).ends))
    case CanFree => None
  }

  /** open_count-- and write_count--, likewise */
  function DoUncount(m: Memory, f: FileId, at: Counting): Effect
    requires f in m.files && m.files[f].life.Dying?
  {
    if !m.files[f].kind.Vnode? then None
    else
      var file := m.files[f];
      var node, writable := file.kind.node, file.kind.writable;
      var done := Dying(file.life.who, TreeDone);
      match at
      case ToOpen(None) => Some((m, Closing(f, ToOpen(Some(CountsOf(m, node).open)))))
      case ToOpen(Some(v)) =>
        if v == 0 then None
        else Some((WithOpen(SetFile(m, f, file.(opens := false, life := if writable then file.life else done)), node,
                            v - 1),
                   Closing(f, if writable then ToWrite(None) else ToOpen(None))))
      case ToWrite(None) => Some((m, Closing(f, ToWrite(Some(CountsOf(m, node).write)))))
      case ToWrite(Some(v)) =>
        if v == 0 then None
        else Some((WithWrite(SetFile(m, f, file.(writes := false, life := done)), node, v - 1),
                   Closing(f, ToOpen(None))))
  }

  /** The teardown, up to the memory given back */
  function DoTeardown(m: Memory, t: Thread, f: FileId, at: Counting): Effect {
    if f !in m.files || !m.files[f].life.Dying? then None
    else if m.files[f].life.stage.CanFree? then Some((m.(files := m.files - {f}), Idle))
    else if m.files[f].life.stage.TreeHeld? then DoUncount(m, f, at)
    else
      var file := m.files[f];
      match NextProgress(m, t, file)
      case None => None
      case Some(p) =>
        Some((SetFile(m, f, file.(life := Dying(file.life.who, p.stage), writer := p.writer))
                .(ends := p.ends, treeLock := p.treeLock), Closing(f, ToOpen(None))))
  }

  function Do(m: Memory, t: Thread, pc: Pc, a: Action): Effect {
    match a
    case BeginOpen(f, node, writable, n) => if pc.Idle? then DoBeginOpen(m, t, f, node, writable, n) else None
    case RefuseOpen => if pc.Opening? then DoRefuseOpen(m, t, pc.file, pc.n, pc.at) else None
    case CountOpen => if pc.Opening? then DoCountOpen(m, pc.file, pc.n, pc.at) else None
    case EndOpen => if pc.Opened? then Some((m.(treeLock := None), Idle)) else None
    case OpenOther(f, n) =>
      if pc.Idle? && f !in m.files && Hand(t, n) !in m.places
      then Some((NewFile(m, f, Other, Open, Hand(t, n)), Idle)) else None
    case OpenPipe(r, w, n, n') => if pc.Idle? then DoOpenPipe(m, t, r, w, n, n') else None
    case OpenPair(f, g, n, n') => if pc.Idle? then DoOpenPair(m, t, f, g, n, n') else None
    case Dup(n, n') => if pc.Idle? then DoDup(m, t, n, n') else None
    case Shutdown(n) => if pc.Idle? then DoShutdown(m, t, n) else None
    case CloseWriter => if pc.Shutting? then DoCloseWriter(m, pc.file) else None
    case Begin(op) => if pc.Idle? && CanBegin(m, t, op) then Some((m, Want(op))) else None
    case Acquire => if pc.Want? && m.slotLock.None? then Some((m.(slotLock := Some(t)), Locked(pc.op))) else None
    case Look =>
      if !pc.Locked? then None
      else Some((m, if pc.op.Install? then Scanning(pc.op, 0) else Seen(pc.op, Lookup(m, pc.op.slot))))
    case Act(n) => DoAct(m, t, pc, n)
    case Release => if pc.Finished? then Some((m.(slotLock := None), Idle)) else None
    case Close(n) => if pc.Idle? then DoClose(m, t, n) else None
    case Teardown => if pc.Closing? then DoTeardown(m, t, pc.file, pc.at) else None
  }

  function Step(s: State, t: Thread, a: Action): Option<State> {
    match Do(s.mem, t, s.PcOf(t), a)
    case None => None
    case Some((m, pc)) => Some(State(m, s.pcs[t := pc]))
  }

  const Initial := State(Memory(map[], map[], None, None, map[], map[], map[], 0, 0), map[])

  /** A run: any threads, in any order */
  function RunFrom(s: State, trace: seq<(Thread, Action)>): Option<State>
    decreases |trace|
  {
    if trace == [] then Some(s)
    else
      match Step(s, trace[0].0, trace[0].1)
      case None => None
      case Some(next) => RunFrom(next, trace[1..])
  }
}
