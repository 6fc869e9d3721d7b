/** Exits of `set -e` with loops still to leave: the commands that a run consists of, and
    which of them is to blame.
 */
module ShellExits {
  import opened Common
  import opened ShellSemantics
  import opened ShellTheorems

  // ----- The commands of a run -----

  /** A command that was run: where, and how it ended before `set -e` looked at it */
  datatype Command = Command(node: Node, rest: CommandList, place: Place, how: Completion, status: int, errexit: bool) {

    /** `set -e` takes its status for a failure while a break or continue is leaving it */
    predicate FailsLeavingLoops() {
      LeavesLoops(how) && Fatal(node, rest, place, status, errexit)
    }

    predicate Compound() {
      node.Group? || node.If? || node.Case? || node.Loop? || node.For?
    }
  }

  predicate LeavesLoops(how: Completion) {
    how.Break? || how.Continue?
  }

  /** The command itself, after those in it */
  function CommandRan<W(!new)>(host: Host<W>, node: Node, rest: CommandList, place: Place, st: Shell<W>,
                               fuel: nat): seq<Command>
    decreases 2 * fuel + 1, node, 3
  {
    var inside := if Tested(rest) then place.Guarded() else place;
    match RunNode(host, node, inside, st, fuel)
    case OutOfFuel => NodeRan(host, node, inside, st, fuel)
    case Done(how, s, st1) => NodeRan(host, node, inside, st, fuel) + [Command(node, rest, place, how, s, st1.errexit)]
  }

  function ListRan<W(!new)>(host: Host<W>, list: CommandList, status: int, place: Place, st: Shell<W>,
                            fuel: nat): seq<Command>
    decreases 2 * fuel + 1, list, 0
  {
    match list
    case End => []
    case Then(join, node, rest) =>
      if !Runs(join, status) then ListRan(host, rest, status, place, st, fuel)
      else
        var r := RunCommand(host, node, rest, place, st, fuel);
        CommandRan(host, node, rest, place, st, fuel)
        + (if r.Done? && r.how.Normal? then ListRan(host, rest, r.status, place, r.st, fuel) else [])
  }

  /** All commands run in a list, functions it calls included, in the order they ended */
  function BodyRan<W(!new)>(host: Host<W>, list: CommandList, place: Place, st: Shell<W>, fuel: nat): seq<Command>
    decreases 2 * fuel + 1, list, 1
  {
    ListRan(host, list, st.last, place, st, fuel)
  }

  function NodeRan<W(!new)>(host: Host<W>, node: Node, place: Place, st: Shell<W>, fuel: nat): seq<Command>
    decreases 2 * fuel + 1, node, 2
  {
    match node
    case Simple(text) => SimpleRan(host, text, place, st, fuel)
    case Pipeline(_) => []
    case Group(body) => BodyRan(host, body, place, st, fuel)
    case If(cond, body, other) =>
      BodyRan(host, cond, place.Guarded(), st, fuel)
      + (match RunBody(host, cond, place.Guarded(), st, fuel)
         case OutOfFuel => []
         case Done(how, s, st1) =>
           if !how.Normal? then []
           else BodyRan(host, if s == 0 then body else other, place, st1, fuel))
    case Loop(_, _, _) => LoopRan(host, node, 0, place.InLoop(), st, fuel)
    case For(_, _, _) =>
      var (words, last, world) := host.words(node.words, st.last, st.world);
      if words.None? then []
      else ForRan(host, node, words.value, place.InLoop(), st.(world := world, last := last), fuel)
    case Case(text, items) =>
      var (word, last, world) := host.expand(text, st.last, st.world);
      if word.None? then [] else CaseRan(host, items, 0, word.value, place, st.(world := world, last := last), fuel)
    case Function(_, _) => []
    case Not(inner) => NodeRan(host, inner, place.Guarded(), st, fuel)
  }

  function RoundRan<W(!new)>(host: Host<W>, node: Node, place: Place, st: Shell<W>, fuel: nat): seq<Command>
    requires node.Loop?
    decreases 2 * fuel + 1, node, 0
  {
    BodyRan(host, node.cond, place.Guarded(), st, fuel)
    + (match RunBody(host, node.cond, place.Guarded(), st, fuel)
       case OutOfFuel => []
       case Done(how, s, st1) =>
         if LoopEnds(how).Some? || (if node.until then s == 0 else s != 0) then []
         else BodyRan(host, node.body, place, st1, fuel))
  }

  function LoopRan<W(!new)>(host: Host<W>, node: Node, status: int, place: Place, st: Shell<W>, fuel: nat): seq<Command>
    requires node.Loop?
    decreases 2 * fuel + 1, node, 1
  {
    RoundRan(host, node, place, st, fuel)
    + (match RunRound(host, node, status, place, st, fuel)
       case Last(_) => []
       case Again(s, st1) => if fuel == 0 then [] else LoopRan(host, node, s, place, st1, fuel - 1))
  }

  function ForRan<W(!new)>(host: Host<W>, node: Node, words: seq<string>, place: Place, st: Shell<W>,
                           fuel: nat): seq<Command>
    requires node.For?
    decreases 2 * fuel + 1, node, 1, |words|
  {
    if words == [] then []
    else
      var (ok, world) := host.assign(node.name, words[0], st.world);
      if !ok then []
      else
        BodyRan(host, node.body, place, st.(world := world), fuel)
        + (match AfterBody(RunBody(host, node.body, place, st.(world := world), fuel))
           case Last(_) => []
           case Again(_, st1) => ForRan(host, node, words[1..], place, st1, fuel))
  }

  function CaseRan<W(!new)>(host: Host<W>, items: CaseItems, i: nat, word: string, place: Place, st: Shell<W>,
                            fuel: nat): seq<Command>
    decreases 2 * fuel + 1, items, 1, if items.Item? && i < |items.patterns| then |items.patterns| - i else 0
  {
    match items
    case NoItems => []
    case Item(patterns, body, rest) =>
      if i >= |patterns| then CaseRan(host, rest, 0, word, place, st, fuel)
      else
        var (pattern, last, world) := host.expand(patterns[i], st.last, st.world);
        var st1 := st.(world := world, last := last);
        if pattern.None? then []
        else if !host.matches(pattern.value, word) then CaseRan(host, items, i + 1, word, place, st1, fuel)
        else BodyRan(host, body, place, st1, fuel)
  }

  function SimpleRan<W(!new)>(host: Host<W>, text: string, place: Place, st: Shell<W>, fuel: nat): seq<Command>
    decreases 2 * fuel + 1, Simple(text), 1
  {
    var (plan, last, world) := host.plan(text, st.last, st.world);
    match plan
    case Ran(_) => []
    case Words(argv, alone) =>
      if argv == [] || argv[0] in STEERING || !CallsFunction(argv, alone, st.functions) then []
      else CallRan(host, argv, place, st.(world := world, last := last), fuel)
  }

  /** The commands that come before functions and steer the shell */
  const STEERING: set<string> := {"exit", "break", "continue", "return", "set"}

  function CallRan<W(!new)>(host: Host<W>, argv: seq<string>, place: Place, st: Shell<W>, fuel: nat): seq<Command>
    requires argv != [] && argv[0] in st.functions
    decreases 2 * fuel, 0
  {
    if place.calls >= MAX_CALL_DEPTH || fuel == 0 then []
    else BodyRan(host, st.functions[argv[0]], place.InCall(), st.(world := host.enter(argv, st.world)), fuel - 1)
  }

  // ----- Which command is to blame -----

  ghost predicate AnyFails(cs: seq<Command>) {
    exists c :: c in cs && c.FailsLeavingLoops()
  }

  /** The result of a run, and the commands run: one that fails while leaving loops ends it,
      with its loops still to leave, and is a compound one; and no other exit has any, nor one where a status is
      tested or `set -e` is off */
  ghost predicate Explained<W(!new)>(place: Place, r: Result<W>, cs: seq<Command>) {
    r.Done? ==>
      && (forall c | c in cs && c.FailsLeavingLoops() ::
            r.how == Exit(Breaks(c.how), Continues(c.how)) && Overhangs(r.how, 0) && c.Compound())
      && (Overhangs(r.how, 0) ==> AnyFails(cs) && r.st.errexit && place.guards == 0)
  }

  ghost predicate ExplainedRound<W(!new)>(place: Place, r: Round<W>, cs: seq<Command>) {
    match r
    case Last(result) => Explained(place, result, cs)
    case Again(_, _) => !AnyFails(cs)
  }

  /** What ended without an exit had no such command in it */
  lemma NoneFailed<W(!new)>(place: Place, r: Result<W>, cs: seq<Command>)
    requires Explained(place, r, cs) && r.Done? && !r.how.Exit?
    ensures !AnyFails(cs)
  {
  }

  lemma NothingRan<W(!new)>(place: Place, r: Result<W>)
    requires r.Done? ==> !Overhangs(r.how, 0)
    ensures Explained(place, r, [])
  {
  }

  /** Commands that did not fail, and then the rest */
  lemma Followed<W(!new)>(place: Place, r: Result<W>, before: seq<Command>, cs: seq<Command>)
    requires !AnyFails(before) && Explained(place, r, cs)
    ensures Explained(place, r, before + cs)
  {
    hide Overhangs;
    if AnyFails(cs) {
      var c :| c in cs && c.FailsLeavingLoops();
      assert c in before + cs;
    }
  }

  /** An exit passed on */
  lemma PassedOn<W(!new)>(place: Place, r: Result<W>, outer: Place, r': Result<W>, cs: seq<Command>)
    requires Explained(place, r, cs) && (r'.Done? ==> r.Done?) && outer.guards <= place.guards
    requires r'.Done? ==>
             if r.how.Exit? then r'.how == r.how && r'.st.errexit == r.st.errexit else !Overhangs(r'.how, 0)
    ensures Explained(outer, r', cs)
  {
  }

  lemma BreakSucceeds<W(!new)>(host: Host<W>, text: string, place: Place, st: Shell<W>, fuel: nat)
    requires RunSimple(host, text, place, st, fuel).Done? && LeavesLoops(RunSimple(host, text, place, st, fuel).how)
    ensures RunSimple(host, text, place, st, fuel).status == 0
  {
    hide RunWords;
    var (plan, last, world) := host.plan(text, st.last, st.world);
    if plan.Words? {
      WordsBreakSucceeds(host, plan.argv, plan.alone, place, st.(world := world, last := last), fuel);
    }
  }

  lemma WordsBreakSucceeds<W(!new)>(host: Host<W>, argv: seq<string>, alone: bool, place: Place, st: Shell<W>,
                                    fuel: nat)
    ensures var r := RunWords(host, argv, alone, place, st, fuel);
            r.Done? && LeavesLoops(r.how) ==> r.status == 0
  {
    hide RunCall, SetErrexit, Number;
    if argv != [] && CallsFunction(argv, alone, st.functions) {
      CallLeavesNone(host, argv, place, st, fuel);
    }
  }

  lemma CallLeavesNone<W(!new)>(host: Host<W>, argv: seq<string>, place: Place, st: Shell<W>, fuel: nat)
    requires argv != [] && argv[0] in st.functions
    ensures var r := RunCall(host, argv, place, st, fuel);
            r.Done? ==> !LeavesLoops(r.how)
  {
    hide RunBody;
  }

  lemma OnlyCompound<W(!new)>(host: Host<W>, node: Node, place: Place, st: Shell<W>, fuel: nat)
    ensures var r := RunNode(host, node, place, st, fuel);
            r.Done? && LeavesLoops(r.how) && r.status != 0 ==>
              node.Group? || node.If? || node.Case? || node.Loop? || node.For? || node.Not?
  {
    hide RunSimple, RunBody, RunLoop, RunWordsOfFor, RunCase;
    var r := RunNode(host, node, place, st, fuel);
    if node.Simple? && r.Done? && LeavesLoops(r.how) {
      BreakSucceeds(host, node.text, place, st, fuel);
    }
  }

  lemma {:induction false} ExplainCommand<W(!new)>(host: Host<W>, node: Node, rest: CommandList, place: Place,
                                                   st: Shell<W>, fuel: nat)
    ensures Explained(place, RunCommand(host, node, rest, place, st, fuel),
                      CommandRan(host, node, rest, place, st, fuel))
    decreases 2 * fuel + 1, node, 3
  {
    hide RunNode, NodeRan, Explained, Fatal;
    var inside := if Tested(rest) then place.Guarded() else place;
    ExplainNode(host, node, inside, st, fuel);
    TwoNodes(host, node, inside, false, st, fuel, st, fuel);
    OnlyCompound(host, node, inside, st, fuel);
    CommandFails(node, rest, place, inside, RunNode(host, node, inside, st, fuel),
                 NodeRan(host, node, inside, st, fuel));
  }

  /** What `set -e` makes of a command that ended so */
  lemma CommandFails<W(!new)>(node: Node, rest: CommandList, place: Place, inside: Place, r: Result<W>,
                              cs: seq<Command>)
    requires Explained(inside, r, cs) && place.guards <= inside.guards
    requires r.Done? ==> Contained(inside, r.how)
    requires r.Done? && LeavesLoops(r.how) && r.status != 0 ==>
               node.Group? || node.If? || node.Case? || node.Loop? || node.For? || node.Not?
    ensures r.Done? ==>
      Explained(place,
                Done(AfterCommand(node, rest, place, r.how, r.status, r.st.errexit), r.status, r.st.(last := r.status)),
                cs + [Command(node, rest, place, r.how, r.status, r.st.errexit)])
    ensures r.OutOfFuel? ==> Explained(place, r, cs)
  {
    if r.Done? {
      var c := Command(node, rest, place, r.how, r.status, r.st.errexit);
      var r' := Done(AfterCommand(node, rest, place, r.how, r.status, r.st.errexit), r.status, r.st.(last := r.status));
      if r.how.Exit? {
        PassedOn(inside, r, place, r', cs);
        NotLeaving(c);
        Followed2(place, r', cs, c);
      } else {
        NoneFailed(inside, r, cs);
        LastOne(place, r', cs, c);
      }
    }
  }

  lemma NotLeaving(c: Command)
    requires c.how.Exit?
    ensures !c.FailsLeavingLoops()
  {
  }

  lemma Followed2<W(!new)>(place: Place, r: Result<W>, cs: seq<Command>, c: Command)
    requires Explained(place, r, cs) && !c.FailsLeavingLoops()
    ensures Explained(place, r, cs + [c])
  {
    hide Overhangs;
    if AnyFails(cs) {
      var d :| d in cs && d.FailsLeavingLoops();
      assert d in cs + [c];
    }
  }

  lemma LastOne<W(!new)>(place: Place, r: Result<W>, before: seq<Command>, c: Command)
    requires !AnyFails(before) && r.Done? && c.place == place
    requires c.FailsLeavingLoops() ==>
             r.how == Exit(Breaks(c.how), Continues(c.how)) && Overhangs(r.how, 0) && r.st.errexit
    requires c.FailsLeavingLoops() ==> c.Compound()
    requires !c.FailsLeavingLoops() ==> !Overhangs(r.how, 0)
    ensures Explained(place, r, before + [c])
  {
    assert c in before + [c];
  }

  lemma {:induction false} ExplainList<W(!new)>(host: Host<W>, list: CommandList, status: int, place: Place,
                                                st: Shell<W>, fuel: nat)
    ensures Explained(place, RunList(host, list, status, place, st, fuel), ListRan(host, list, status, place, st, fuel))
    decreases 2 * fuel + 1, list, 0
  {
    hide RunCommand, CommandRan, Explained;
    match list
    case End => NothingRan(place, Done(Normal, status, st));
    case Then(join, node, rest) =>
      if !Runs(join, status) {
        ExplainList(host, rest, status, place, st, fuel);
      } else {
        var r, cs := RunCommand(host, node, rest, place, st, fuel), CommandRan(host, node, rest, place, st, fuel);
        ExplainCommand(host, node, rest, place, st, fuel);
        if r.Done? && r.how.Normal? {
          ExplainList(host, rest, r.status, place, r.st, fuel);
          NoneFailed(place, r, cs);
          var rest' := RunList(host, rest, r.status, place, r.st, fuel);
          Followed(place, rest', cs, ListRan(host, rest, r.status, place, r.st, fuel));
        } else {
          assert cs + [] == cs;
        }
      }
  }

  lemma {:induction false} ExplainBody<W(!new)>(host: Host<W>, list: CommandList, place: Place, st: Shell<W>, fuel: nat)
    ensures Explained(place, RunBody(host, list, place, st, fuel), BodyRan(host, list, place, st, fuel))
    decreases 2 * fuel + 1, list, 1
  {
    hide Explained;
    ExplainList(host, list, st.last, place, st, fuel);
  }

  lemma {:induction false} ExplainNode<W(!new)>(host: Host<W>, node: Node, place: Place, st: Shell<W>, fuel: nat)
    ensures Explained(place, RunNode(host, node, place, st, fuel), NodeRan(host, node, place, st, fuel))
    decreases 2 * fuel + 1, node, 2
  {
    hide RunBody, RunLoop, RunFor, RunCase, RunSimple, BodyRan, LoopRan, ForRan, CaseRan, SimpleRan, Explained;
    var r := RunNode(host, node, place, st, fuel);
    match node
    case Simple(text) => ExplainSimple(host, text, place, st, fuel);
    case Pipeline(_) => NothingRan(place, r);
    case Group(body) => ExplainBody(host, body, place, st, fuel);
    case If(_, _, _) => ExplainIf(host, node, place, st, fuel);
    case Loop(_, _, _) => ExplainLoop(host, node, 0, place, st, fuel);
    case For(_, _, _) =>
      var (words, last, world) := host.words(node.words, st.last, st.world);
      assert r == RunWordsOfFor(host, node, place.InLoop(), st, fuel);
      if words.None? {
        NothingRan(place, r);
      } else {
        ExplainFor(host, node, words.value, 0, place, st.(world := world, last := last), fuel);
      }
    case Case(text, items) =>
      var (word, last, world) := host.expand(text, st.last, st.world);
      if word.None? {
        NothingRan(place, r);
      } else {
        ExplainCase(host, items, 0, word.value, place, st.(world := world, last := last), fuel);
      }
    case Function(_, _) => NothingRan(place, r);
    case Not(inner) =>
      ExplainNode(host, inner, place.Guarded(), st, fuel);
      PassedOn(place.Guarded(), RunNode(host, inner, place.Guarded(), st, fuel), place, r,
               NodeRan(host, inner, place.Guarded(), st, fuel));
  }

  lemma {:induction false} ExplainIf<W(!new)>(host: Host<W>, node: Node, place: Place, st: Shell<W>, fuel: nat)
    requires node.If?
    ensures Explained(place, RunNode(host, node, place, st, fuel), NodeRan(host, node, place, st, fuel))
    decreases 2 * fuel + 1, node, 1
  {
    hide RunBody, BodyRan, Explained;
    var r, guarded := RunNode(host, node, place, st, fuel), place.Guarded();
    var c, cs := RunBody(host, node.cond, guarded, st, fuel), BodyRan(host, node.cond, guarded, st, fuel);
    ExplainBody(host, node.cond, guarded, st, fuel);
    if c.Done? && c.how.Normal? {
      var branch := if c.status == 0 then node.body else node.other;
      ExplainBody(host, branch, place, c.st, fuel);
      NoneFailed(guarded, c, cs);
      EmptyBranch(host, branch, place, c.st, fuel);
      if c.status != 0 && branch.End? {
        NothingRan(place, r);
      }
      Followed(place, r, cs, BodyRan(host, branch, place, c.st, fuel));
    } else {
      assert cs + [] == cs;
      PassedOn(guarded, c, place, r, cs);
    }
  }

  lemma EmptyBranch<W(!new)>(host: Host<W>, list: CommandList, place: Place, st: Shell<W>, fuel: nat)
    ensures list.End? ==> BodyRan(host, list, place, st, fuel) == []
  {
  }

  lemma {:induction false} ExplainLoopBody<W(!new)>(host: Host<W>, body: CommandList, place: Place, st: Shell<W>,
                                                    fuel: nat)
    ensures ExplainedRound(place, AfterBody(RunBody(host, body, place.InLoop(), st, fuel)),
                           BodyRan(host, body, place.InLoop(), st, fuel))
    decreases 2 * fuel + 1, body, 2
  {
    hide RunBody, BodyRan, Explained, AnyFails;
    var r, cs := RunBody(host, body, place.InLoop(), st, fuel), BodyRan(host, body, place.InLoop(), st, fuel);
    ExplainBody(host, body, place.InLoop(), st, fuel);
    RoundPassedOn(place, r, cs);
  }

  lemma RoundPassedOn<W(!new)>(place: Place, r: Result<W>, cs: seq<Command>)
    requires Explained(place.InLoop(), r, cs)
    ensures ExplainedRound(place, AfterBody(r), cs)
  {
    hide Explained, AnyFails;
    if r.Done? && LoopEnds(r.how).None? {
      NoneFailed(place.InLoop(), r, cs);
    } else if r.Done? {
      PassedOn(place.InLoop(), r, place, AfterBody(r).r, cs);
    } else {
      PassedOn(place.InLoop(), r, place, r, cs);
    }
  }

  lemma {:induction false} ExplainRound<W(!new)>(host: Host<W>, node: Node, status: int, place: Place, st: Shell<W>,
                                                 fuel: nat)
    requires node.Loop?
    ensures ExplainedRound(place, RunRound(host, node, status, place.InLoop(), st, fuel),
                           RoundRan(host, node, place.InLoop(), st, fuel))
    decreases 2 * fuel + 1, node, 0
  {
    hide RunBody, BodyRan, Explained, AnyFails;
    var inside := place.InLoop().Guarded();
    var c, cs := RunBody(host, node.cond, inside, st, fuel), BodyRan(host, node.cond, inside, st, fuel);
    ExplainBody(host, node.cond, inside, st, fuel);
    var r := RunRound(host, node, status, place.InLoop(), st, fuel);
    if !c.Done? || LoopEnds(c.how).Some? || (if node.until then c.status == 0 else c.status != 0) {
      assert cs + [] == cs;
      PassedOn(inside, c, place, r.r, cs);
    } else {
      NoneFailed(inside, c, cs);
      ExplainLoopBody(host, node.body, place, c.st, fuel);
      RoundFollowed(place, r, cs, BodyRan(host, node.body, place.InLoop(), c.st, fuel));
    }
  }

  lemma RoundFollowed<W(!new)>(place: Place, r: Round<W>, before: seq<Command>, cs: seq<Command>)
    requires !AnyFails(before) && ExplainedRound(place, r, cs)
    ensures ExplainedRound(place, r, before + cs)
  {
    if r.Last? {
      Followed(place, r.r, before, cs);
    }
  }

  lemma {:induction false} ExplainLoop<W(!new)>(host: Host<W>, node: Node, status: int, place: Place, st: Shell<W>,
                                                fuel: nat)
    requires node.Loop?
    ensures Explained(place, RunLoop(host, node, status, place.InLoop(), st, fuel),
                      LoopRan(host, node, status, place.InLoop(), st, fuel))
    decreases 2 * fuel + 1, node, 1
  {
    hide RunRound, RoundRan, Explained, AnyFails;
    ExplainRound(host, node, status, place, st, fuel);
    var r, cs := RunRound(host, node, status, place.InLoop(), st, fuel), RoundRan(host, node, place.InLoop(), st, fuel);
    if r.Again? && fuel > 0 {
      ExplainLoop(host, node, r.status, place, r.st, fuel - 1);
      Followed(place, RunLoop(host, node, r.status, place.InLoop(), r.st, fuel - 1), cs,
               LoopRan(host, node, r.status, place.InLoop(), r.st, fuel - 1));
    } else {
      assert cs + [] == cs;
      if r.Again? {
        NoResult<W>(place, cs);
      }
    }
  }

  lemma NoResult<W(!new)>(place: Place, cs: seq<Command>)
    ensures Explained<W>(place, OutOfFuel, cs)
  {
  }

  lemma {:induction false} ExplainFor<W(!new)>(host: Host<W>, node: Node, words: seq<string>, status: int, place: Place,
                                               st: Shell<W>, fuel: nat)
    requires node.For?
    ensures Explained(place, RunFor(host, node, words, status, place.InLoop(), st, fuel),
                      ForRan(host, node, words, place.InLoop(), st, fuel))
    decreases 2 * fuel + 1, node, 1, |words|
  {
    hide RunBody, BodyRan, AfterBody, Explained, AnyFails;
    if words == [] {
      NothingRan(place, Done(Normal, status, st));
    } else {
      var (ok, world) := host.assign(node.name, words[0], st.world);
      var st1 := st.(world := world);
      if !ok {
        NothingRan(place, Done(Normal, 1, st1));
      } else {
        ExplainLoopBody(host, node.body, place, st1, fuel);
        var r := AfterBody(RunBody(host, node.body, place.InLoop(), st1, fuel));
        var cs := BodyRan(host, node.body, place.InLoop(), st1, fuel);
        if r.Again? {
          ExplainFor(host, node, words[1..], r.status, place, r.st, fuel);
          Followed(place, RunFor(host, node, words[1..], r.status, place.InLoop(), r.st, fuel), cs,
                   ForRan(host, node, words[1..], place.InLoop(), r.st, fuel));
        } else {
          assert cs + [] == cs;
        }
      }
    }
  }

  lemma {:induction false} ExplainCase<W(!new)>(host: Host<W>, items: CaseItems, i: nat, word: string, place: Place,
                                                st: Shell<W>, fuel: nat)
    ensures Explained(place, RunCase(host, items, i, word, place, st, fuel),
                      CaseRan(host, items, i, word, place, st, fuel))
    decreases 2 * fuel + 1, items, 1, if items.Item? && i < |items.patterns| then |items.patterns| - i else 0
  {
    hide RunBody, BodyRan, Explained;
    if items.NoItems? {
      NothingRan(place, Done(Normal, 0, st));
    } else if i >= |items.patterns| {
      ExplainCase(host, items.rest, 0, word, place, st, fuel);
    } else {
      var (pattern, last, world) := host.expand(items.patterns[i], st.last, st.world);
      var st1 := st.(world := world, last := last);
      if pattern.None? {
        NothingRan(place, Done(Normal, 2, st1));
      } else if !host.matches(pattern.value, word) {
        ExplainCase(host, items, i + 1, word, place, st1, fuel);
      } else if items.body.End? {
        EmptyBranch(host, items.body, place, st1, fuel);
        NothingRan(place, Done(Normal, 0, st1));
      } else {
        ExplainBody(host, items.body, place, st1, fuel);
      }
    }
  }

  lemma {:induction false} ExplainSimple<W(!new)>(host: Host<W>, text: string, place: Place, st: Shell<W>, fuel: nat)
    ensures Explained(place, RunSimple(host, text, place, st, fuel), SimpleRan(host, text, place, st, fuel))
    decreases 2 * fuel + 1, Simple(text), 1
  {
    hide RunWords, RunCall, CallRan, Explained;
    var (plan, last, world) := host.plan(text, st.last, st.world);
    var st1 := st.(world := world, last := last);
    var r := RunSimple(host, text, place, st, fuel);
    if plan.Words? {
      var words := RunWords(host, plan.argv, plan.alone, place, st1, fuel);
      PlainWords(host, plan.argv, plan.alone, place, st1, fuel);
      if plan.argv == [] || plan.argv[0] in STEERING || !CallsFunction(plan.argv, plan.alone, st.functions) {
        NothingRan(place, r);
      } else {
        ExplainCall(host, plan.argv, place, st1, fuel);
        PassedOn(place, words, place, r, CallRan(host, plan.argv, place, st1, fuel));
      }
    } else {
      NothingRan(place, r);
    }
  }

  /** Words that call no function exit with no loops left */
  lemma PlainWords<W(!new)>(host: Host<W>, argv: seq<string>, alone: bool, place: Place, st: Shell<W>, fuel: nat)
    ensures var r := RunWords(host, argv, alone, place, st, fuel);
            if argv == [] || argv[0] in STEERING || !CallsFunction(argv, alone, st.functions)
            then r.Done? && !Overhangs(r.how, 0)
            else r == RunCall(host, argv, place, st, fuel)
  {
    hide RunCall, SetErrexit, Number;
  }

  lemma {:induction false} ExplainCall<W(!new)>(host: Host<W>, argv: seq<string>, place: Place, st: Shell<W>, fuel: nat)
    requires argv != [] && argv[0] in st.functions
    ensures Explained(place, RunCall(host, argv, place, st, fuel), CallRan(host, argv, place, st, fuel))
    decreases 2 * fuel, 0
  {
    hide RunBody, BodyRan, Explained;
    var r := RunCall(host, argv, place, st, fuel);
    if place.calls >= MAX_CALL_DEPTH || fuel == 0 {
      NothingRan(place, r);
    } else {
      var body, entered := st.functions[argv[0]], st.(world := host.enter(argv, st.world));
      ExplainBody(host, body, place.InCall(), entered, fuel - 1);
      PassedOn(place.InCall(), RunBody(host, body, place.InCall(), entered, fuel - 1), place, r,
               BodyRan(host, body, place.InCall(), entered, fuel - 1));
    }
  }

  // ----- The theorems -----

  /** A run exits with loops still to leave exactly when some command run in it, however
      deep, was left by a break or continue and `set -e` took its status for a failure. Then
      `set -e` is still on, and nothing around the run tests its status. */
  lemma ExitsWithLoopsLeft<W(!new)>(host: Host<W>, list: CommandList, place: Place, st: Shell<W>, fuel: nat)
    requires RunBody(host, list, place, st, fuel).Done?
    ensures var r := RunBody(host, list, place, st, fuel);
            && (Overhangs(r.how, 0) <==> exists c :: c in BodyRan(host, list, place, st, fuel) && c.FailsLeavingLoops())
            && (Overhangs(r.how, 0) ==> r.st.errexit && place.guards == 0)
  {
    hide RunBody, BodyRan, Overhangs;
    ExplainBody(host, list, place, st, fuel);
  }

  /** Its exit goes out of the run with just the loops that it had still to leave. It is a
      group, if, case or loop: break and continue themselves succeed. */
  lemma ExitGoesOut<W(!new)>(host: Host<W>, list: CommandList, place: Place, st: Shell<W>, fuel: nat, c: Command)
    requires RunBody(host, list, place, st, fuel).Done?
    requires c in BodyRan(host, list, place, st, fuel) && c.FailsLeavingLoops()
    ensures var how := RunBody(host, list, place, st, fuel).how;
            && how == Exit(Breaks(c.how), Continues(c.how))
            && (Overhangs(how, place.loops) <==> c.how.n > place.loops)
            && (c.node.Group? || c.node.If? || c.node.Case? || c.node.Loop? || c.node.For?)
  {
    hide RunBody, BodyRan;
    ExplainBody(host, list, place, st, fuel);
  }

  /** Where a status is tested there is none */
  lemma TestedNeverOverhangs<W(!new)>(host: Host<W>, list: CommandList, place: Place, st: Shell<W>, fuel: nat)
    requires place.guards > 0 && RunBody(host, list, place, st, fuel).Done?
    ensures !Overhangs(RunBody(host, list, place, st, fuel).how, place.loops)
  {
    hide RunBody;
    EndsStayInside(host, list, place, st, fuel);
  }

  /** A host for the commands below */
  function Bare(): Host<bool> {
    Host((text, last, w) => (Words(BareWords(text), true), last, w),
         (argv, w) => (0, w),
         (text, last, w) => (0, w),
         (text, last, w) => (Some([]), last, w),
         (name, value, w) => (true, w),
         (text, last, w) => (Some(text), last, w),
         (pattern, text) => pattern == text,
         (argv, w) => w,
         (outside, w) => w,
         w => false)
  }

  function BareWords(text: string): seq<string> {
    if text == "break 2" then ["break", "2"] else if text == "set -e" then ["set", "-e"] else [":"]
  }

  function One(node: Node): CommandList {
    Then(Always, node, End)
  }

  /** set -e; while :; do while :; do ! break 2; done; done */
  function BreakUnderSetE(): CommandList {
    Then(Always, Simple("set -e"), One(Outer()))
  }

  function Outer(): Node {
    Loop(false, One(Simple(":")), One(Inner()))
  }

  function Inner(): Node {
    Loop(false, One(Simple(":")), One(Not(Simple("break 2"))))
  }

  lemma Breaks2(place: Place, st: Shell<bool>)
    requires place.loops >= 2
    ensures RunNode(Bare(), Not(Simple("break 2")), place, st, 0) == Done(Break(2), 1, st)
  {
    hide SetErrexit;
    assert "2"[..0] == "";
    assert Number("2") == 2;
    assert RunWords(Bare(), ["break", "2"], true, place.Guarded(), st, 0) == Done(Break(2), 0, st);
    assert RunSimple(Bare(), "break 2", place.Guarded(), st, 0) == Done(Break(2), 0, st);
  }

  lemma Colon(place: Place, st: Shell<bool>)
    requires ":" !in st.functions
    ensures RunBody(Bare(), One(Simple(":")), place, st, 0) == Done(Normal, 0, st.(last := 0))
  {
    hide SetErrexit, Number;
    assert RunWords(Bare(), [":"], true, place, st, 0) == Done(Normal, 0, st);
    assert RunSimple(Bare(), ":", place, st, 0) == Done(Normal, 0, st);
    assert RunCommand(Bare(), Simple(":"), End, place, st, 0) == Done(Normal, 0, st.(last := 0));
  }

  lemma SetE(place: Place)
    ensures RunCommand(Bare(), Simple("set -e"), One(Outer()), place, Shell(true, 0, false, map[]), 0)
         == Done(Normal, 0, Shell(true, 0, true, map[]))
  {
    hide Number;
    assert ["set", "-e"][1..] == ["-e"] && "-e"[1..] == "e" && "e"[1..] == "" && ["-e"][1..] == [];
    assert OptionLetters("", true, true) == (true, true);
    assert OptionLetters("e", true, false) == (true, true);
    assert SetErrexit(["-e"], false);
    var st := Shell(true, 0, false, map[]);
    assert RunWords(Bare(), ["set", "-e"], true, place, st, 0) == Done(Normal, 0, Shell(true, 0, true, map[]));
    assert RunSimple(Bare(), "set -e", place, st, 0) == Done(Normal, 0, Shell(true, 0, true, map[]));
  }

  /** The inner loop fails, with one more loop to leave */
  lemma InnerEnds(place: Place, st: Shell<bool>)
    requires place.loops >= 1 && ":" !in st.functions
    ensures RunNode(Bare(), Inner(), place, st, 0) == Done(Break(1), 1, st.(last := 1))
  {
    hide RunSimple;
    var inside := place.InLoop();
    Colon(inside.Guarded(), st);
    Breaks2(inside, st.(last := 0));
    assert RunCommand(Bare(), Not(Simple("break 2")), End, inside, st.(last := 0), 0)
      == Done(Break(2), 1, st.(last := 1));
    assert RunBody(Bare(), Inner().body, inside, st.(last := 0), 0) == Done(Break(2), 1, st.(last := 1));
    assert RunRound(Bare(), Inner(), 0, inside, st, 0) == Last(Done(Break(1), 1, st.(last := 1)));
  }

  lemma OuterEnds(st: Shell<bool>)
    requires st == Shell(true, 0, true, map[])
    ensures RunNode(Bare(), Outer(), Place(0, 0, 0), st, 0) == Done(Exit(1, 0), 1, st.(last := 1))
  {
    hide RunSimple;
    var inside := Place(1, 0, 0);
    Colon(inside.Guarded(), st);
    InnerEnds(inside, st);
    assert RunCommand(Bare(), Inner(), End, inside, st, 0) == Done(Exit(1, 0), 1, st.(last := 1));
    assert RunBody(Bare(), One(Inner()), inside, st, 0) == Done(Exit(1, 0), 1, st.(last := 1));
    assert RunRound(Bare(), Outer(), 0, inside, st, 0) == Last(Done(Exit(1, 0), 1, st.(last := 1)));
  }

  /** The outer loop is broken out of and the inner one failed: `set -e` exits with a
      loop still to leave, and there is none */
  lemma BreakUnderSetEOverhangs()
    ensures var r := RunBody(Bare(), BreakUnderSetE(), Place(0, 0, 0), Shell(true, 0, false, map[]), 0);
            r.Done? && r.how == Exit(1, 0) && Overhangs(r.how, 0)
  {
    hide RunNode;
    var st := Shell(true, 0, true, map[]);
    SetE(Place(0, 0, 0));
    OuterEnds(st);
    assert RunCommand(Bare(), Outer(), End, Place(0, 0, 0), st, 0) == Done(Exit(1, 0), 1, st.(last := 1));
    assert RunList(Bare(), One(Outer()), 0, Place(0, 0, 0), st, 0) == Done(Exit(1, 0), 1, st.(last := 1));
  }
}
