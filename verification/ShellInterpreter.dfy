/** The interpreter as the shell runs it: no ends passed outward, but global flags
    and counters that every list and loop looks at.

    Each method, started with nothing pending, leaves exactly the status, the
    state and the flags that say how the command ends in `ShellSemantics`; and
    it leaves the loop depth, the call depth and the count of places where a
    status is tested as it found them.
 */
module ShellInterpreter {
  import opened ShellSemantics

  /** The flags that lists and loops look at */
  datatype Flags = Flags(exits: bool, interrupted: bool, breaks: nat, continues: nat, returning: bool) {

    /** No flag asks for more than there is, unless the shell is exiting: `set -e` may
        exit while counts are pending, and the loops left then do not take their share */
    predicate Fit(loops: nat, calls: nat) {
      !exits ==> breaks <= loops && continues <= loops && (returning ==> calls > 0)
    }

    /** Nor more than there is one loop further out */
    predicate FitOutside(loops: nat, calls: nat) {
      !exits ==> breaks < loops && continues < loops && (returning ==> calls > 0)
    }

    /** The flags of a command that ended so */
    predicate Show(how: Completion) {
      && breaks == Breaks(how) && continues == Continues(how) && exits == how.Exit?
      && match how
         case Exit(_, _) => true
         case Interrupt => interrupted
         case Normal => !interrupted && !returning
         case Break(n) => n > 0 && !interrupted && !returning
         case Continue(n) => n > 0 && !interrupted && !returning
         case Return => !interrupted && returning
    }
  }

  /** Where there is no loop no break is pending: only exit and Ctrl-C are left when
      a function returns */
  lemma AfterCall(f: Flags, how: Completion, calls: nat, loops: nat, outer: nat)
    requires f.Show(how) && f.Fit(0, calls)
    ensures var g := f.(returning := false);
            && g.Show(CallEnds(how)) && g.Fit(loops, outer)
            && (!g.exits ==> g.breaks == 0 && g.continues == 0 && !g.returning)
  {
  }

  class Interpreter<W(!new)> {
    const host: Host<W>
    var world: W
    var lastStatus: int
    var optErrexit: bool
    var functions: map<string, CommandList>

    var loopDepth: nat
    var pendingBreak: nat
    var pendingContinue: nat
    var pendingReturn: bool
    var callDepth: nat
    var interrupted: bool
    var errexitIgnored: nat
    var shouldExit: bool

    constructor (host: Host<W>, world: W)
      ensures this.host == host && St() == Shell(world, 0, false, map[])
      ensures !Pending() && Here() == Place(0, 0, 0)
    {
      this.host, this.world, lastStatus, optErrexit, functions := host, world, 0, false, map[];
      loopDepth, pendingBreak, pendingContinue, pendingReturn := 0, 0, 0, false;
      callDepth, interrupted, errexitIgnored, shouldExit := 0, false, 0, false;
    }

    ghost function St(): Shell<W>
      reads this
    {
      Shell(world, lastStatus, optErrexit, functions)
    }

    ghost function Here(): Place
      reads this
    {
      Place(loopDepth, callDepth, errexitIgnored)
    }

    function Now(): Flags
      reads this
    {
      Flags(shouldExit, interrupted, pendingBreak, pendingContinue, pendingReturn)
    }

    predicate Pending()
      reads this
    {
      shouldExit || interrupted || pendingBreak != 0 || pendingContinue != 0 || pendingReturn
    }

    /** What the flags, the state and the status now say is the result `r` */
    ghost predicate Ended(r: Result<W>, ok: bool, status: int)
      reads this
    {
      && ok == r.Done?
      && (ok ==> status == r.status && St() == r.st && Now().Show(r.how) && Now().Fit(loopDepth, callDepth))
    }

    /** After a round of a loop: whether it must end */
    method LeaveLoop(ghost how: Completion) returns (leave: bool)
      requires Now().Show(how) && Now().Fit(loopDepth, callDepth) && !how.Exit? && !how.Interrupt? && loopDepth > 0
      modifies `pendingBreak, `pendingContinue
      ensures leave == LoopEnds(how).Some?
      ensures Now().Show(if leave then LoopEnds(how).value else Normal)
      ensures Now().FitOutside(loopDepth, callDepth)
    {
      if pendingReturn {
        return true;
      }
      if pendingBreak != 0 {
        pendingBreak := pendingBreak - 1;
        return true;
      }
      if pendingContinue != 0 {
        pendingContinue := pendingContinue - 1;
        return pendingContinue != 0;
      }
      return false;
    }

    method ExecList(list: CommandList, fuel: nat) returns (ok: bool, status: int)
      requires !Pending()
      modifies this
      ensures Ended(RunBody(host, list, old(Here()), old(St()), fuel), ok, status)
      ensures ok ==> Here() == old(Here())
      ensures ok ==>
        var how := RunBody(host, list, old(Here()), old(St()), fuel).how;
        pendingBreak > loopDepth || pendingContinue > loopDepth <==> Overhangs(how, loopDepth)
      decreases 2 * fuel + 1, list, 1
    {
      hide RunNode, RunCommand;
      status := lastStatus;
      var rest := list;
      while rest.Then?
        invariant rest == list || rest < list
        invariant !Pending() && Here() == old(Here())
        invariant RunList(host, rest, status, Here(), St(), fuel)
               == RunList(host, list, old(lastStatus), old(Here()), old(St()), fuel)
        decreases rest
      {
        if Runs(rest.join, status) {
          ok, status := ExecCommand(rest.node, rest.rest, fuel);
          if !ok {
            return;
          }
        }
        if Pending() {
          return true, status;
        }
        rest := rest.rest;
      }
      ok := true;
    }

    /** One command of a list: what set -e makes of its status */
    method ExecCommand(node: Node, rest: CommandList, fuel: nat) returns (ok: bool, status: int)
      requires !Pending()
      modifies this
      ensures Ended(RunCommand(host, node, rest, old(Here()), old(St()), fuel), ok, status)
      ensures ok ==> Here() == old(Here())
      decreases 2 * fuel + 1, node, 3
    {
      hide RunNode, AfterCommand, Flags.Show, Flags.Fit;
      var tested := rest.Then? && rest.join != Always;
      errexitIgnored := errexitIgnored + (if tested then 1 else 0);
      ghost var r := RunNode(host, node, Here(), St(), fuel);
      ok, status := ExecNode(node, fuel);
      if ok {
        lastStatus := status;
        errexitIgnored := errexitIgnored - (if tested then 1 else 0);
        CheckErrexit(node, rest, tested, status, r.how);
      }
    }

    /** set -e: a failure that nothing tests */
    method CheckErrexit(node: Node, rest: CommandList, tested: bool, status: int, ghost how: Completion)
      requires tested == Tested(rest) && Now().Show(how) && Now().Fit(loopDepth, callDepth)
      modifies `shouldExit
      ensures Now().Show(AfterCommand(node, rest, Here(), how, status, optErrexit)) && Now().Fit(loopDepth, callDepth)
    {
      if optErrexit && status != 0 && !tested && errexitIgnored == 0 && !node.Not? {
        shouldExit := true;
      }
    }

    method ExecNode(node: Node, fuel: nat) returns (ok: bool, status: int)
      requires !Pending()
      modifies this
      ensures Ended(RunNode(host, node, old(Here()), old(St()), fuel), ok, status)
      ensures ok ==> Here() == old(Here())
      decreases 2 * fuel + 1, node, 2
    {
      hide RunBody, RunLoop, RunFor, RunCase, RunSimple;
      match node
      case Simple(text) => ok, status := ExecSimple(text, fuel);
      case Pipeline(text) => ok, status := ExecPipeline(text, fuel);
      case Group(body) => ok, status := ExecList(body, fuel);
      case If(_, _, _) => ok, status := ExecIf(node, fuel);
      case Loop(_, _, _) =>
        loopDepth := loopDepth + 1;
        ok, status := ExecLoop(node, fuel);
        if ok {
          loopDepth := loopDepth - 1;
        }
      case For(_, _, _) =>
        loopDepth := loopDepth + 1;
        ok, status := ExecFor(node, fuel);
        if ok {
          loopDepth := loopDepth - 1;
        }
      case Case(_, _) => ok, status := ExecCase(node, fuel);
      case Function(name, body) => ok, status := DefineFunction(name, body);
      case Not(_) => ok, status := ExecNot(node, fuel);
    }

    /** `! command`: set -e does not look at it */
    method ExecNot(node: Node, fuel: nat) returns (ok: bool, status: int)
      requires !Pending() && node.Not?
      modifies this
      ensures Ended(RunNode(host, node, old(Here()), old(St()), fuel), ok, status)
      ensures ok ==> Here() == old(Here())
      decreases 2 * fuel + 1, node, 1
    {
      errexitIgnored := errexitIgnored + 1;
      ok, status := ExecNode(node.node, fuel);
      if ok {
        errexitIgnored := errexitIgnored - 1;
        status := if status == 0 then 1 else 0;
      }
    }

    method DefineFunction(name: string, body: CommandList) returns (ok: bool, status: int)
      requires !Pending()
      modifies `functions
      ensures Ended(RunNode(host, Function(name, body), Here(), old(St()), 0), ok, status)
    {
      ok := true;
      if name in functions || |functions| < MAX_FUNCTIONS {
        functions := functions[name := body];
        status := 0;
      } else {
        status := 1;
      }
    }

    method ExecPipeline(text: string, fuel: nat) returns (ok: bool, status: int)
      requires !Pending()
      modifies `world, `interrupted
      ensures Ended(RunNode(host, Pipeline(text), Here(), old(St()), fuel), ok, status)
    {
      var (s, w) := host.pipeline(text, lastStatus, world);
      ok, status, world := true, s, w;
      if status == STATUS_INTERRUPTED && !host.trapped(world) {
        interrupted := true;
      }
    }

    method ExecIf(node: Node, fuel: nat) returns (ok: bool, status: int)
      requires !Pending() && node.If?
      modifies this
      ensures Ended(RunNode(host, node, old(Here()), old(St()), fuel), ok, status)
      ensures ok ==> Here() == old(Here())
      decreases 2 * fuel + 1, node, 1
    {
      hide RunBody;
      errexitIgnored := errexitIgnored + 1;
      ok, status := ExecList(node.cond, fuel);
      if !ok {
        return;
      }
      errexitIgnored := errexitIgnored - 1;
      if Pending() {
        return;
      }
      if status == 0 {
        ok, status := ExecList(node.body, fuel);
      } else if node.other.End? {
        status := 0;
      } else {
        ok, status := ExecList(node.other, fuel);
      }
    }

    method ExecLoop(node: Node, fuel: nat) returns (ok: bool, status: int)
      requires !Pending() && node.Loop? && loopDepth > 0
      modifies this
      ensures Ended(RunLoop(host, node, 0, old(Here()), old(St()), fuel), ok, status)
      ensures ok ==> Here() == old(Here())
      ensures ok ==> Now().FitOutside(loopDepth, callDepth)
      decreases 2 * fuel + 1, node, 1
    {
      status := 0;
      var left: nat := fuel;
      while true
        invariant left <= fuel
        invariant !Pending() && Here() == old(Here())
        invariant RunLoop(host, node, status, Here(), St(), left)
                  == RunLoop(host, node, 0, old(Here()), old(St()), fuel)
        decreases left
      {
        var again;
        ok, again, status := ExecRound(node, status, left);
        if !again {
          return;
        }
        if left == 0 {
          return false, status;
        }
        left := left - 1;
      }
    }

    /** What a round of a loop leaves: its last, or nothing pending for the next */
    ghost predicate RoundEnded(r: Round<W>, ok: bool, again: bool, status: int)
      reads this
    {
      match r
      case Again(s, st) => ok && again && status == s && St() == st && !Pending()
      case Last(result) => !again && Ended(result, ok, status) && (ok ==> Now().FitOutside(loopDepth, callDepth))
    }

    method ExecRound(node: Node, before: int, fuel: nat) returns (ok: bool, again: bool, status: int)
      requires !Pending() && node.Loop? && loopDepth > 0
      modifies this
      ensures RoundEnded(RunRound(host, node, before, old(Here()), old(St()), fuel), ok, again, status)
      ensures ok ==> Here() == old(Here())
      decreases 2 * fuel + 1, node, 0
    {
      hide RunBody;
      again := false;
      errexitIgnored := errexitIgnored + 1;
      ghost var r := RunBody(host, node.cond, Here(), St(), fuel);
      var cond;
      ok, cond := ExecList(node.cond, fuel);
      status := before;
      if !ok {
        return;
      }
      errexitIgnored := errexitIgnored - 1;
      var stop := if node.until then cond == 0 else cond != 0;
      if shouldExit || interrupted {
        return;
      }
      var leave := LeaveLoop(r.how);
      if leave || stop {
        return;
      }
      ok, again, status := ExecBody(node.body, fuel);
    }

    /** A loop's body, and what it leaves pending for the loop */
    method ExecBody(body: CommandList, fuel: nat) returns (ok: bool, again: bool, status: int)
      requires !Pending() && loopDepth > 0
      modifies this
      ensures RoundEnded(AfterBody(RunBody(host, body, old(Here()), old(St()), fuel)), ok, again, status)
      ensures ok ==> Here() == old(Here())
      decreases 2 * fuel + 1, body, 2
    {
      hide RunBody;
      again := false;
      ghost var r := RunBody(host, body, Here(), St(), fuel);
      ok, status := ExecList(body, fuel);
      if !ok || shouldExit || interrupted {
        return;
      }
      var leave := LeaveLoop(r.how);
      again := !leave;
    }

    method ExecFor(node: Node, fuel: nat) returns (ok: bool, status: int)
      requires !Pending() && node.For? && loopDepth > 0
      modifies this
      ensures Ended(RunWordsOfFor(host, node, old(Here()), old(St()), fuel), ok, status)
      ensures ok ==> Here() == old(Here()) && Now().FitOutside(loopDepth, callDepth)
      decreases 2 * fuel + 1, node, 1
    {
      hide RunBody;
      var (expanded, last, w) := host.words(node.words, lastStatus, world);
      lastStatus, world := last, w;
      if expanded.None? {
        return true, 2;
      }
      var words := expanded.value;
      status := 0;
      while 0 < |words|
        invariant !Pending() && Here() == old(Here())
        invariant RunFor(host, node, words, status, Here(), St(), fuel)
                  == RunWordsOfFor(host, node, old(Here()), old(St()), fuel)
      {
        var (isSet, changed) := host.assign(node.name, words[0], world);
        world := changed;
        if !isSet {
          return true, 1;
        }
        var again;
        ok, again, status := ExecBody(node.body, fuel);
        if !again {
          return;
        }
        words := words[1..];
      }
      ok := true;
    }

    method ExecCase(node: Node, fuel: nat) returns (ok: bool, status: int)
      requires !Pending() && node.Case?
      modifies this
      ensures Ended(RunNode(host, node, old(Here()), old(St()), fuel), ok, status)
      ensures ok ==> Here() == old(Here())
      decreases 2 * fuel + 1, node, 1
    {
      hide RunBody;
      var (word, last, w) := host.expand(node.word, lastStatus, world);
      lastStatus, world := last, w;
      if word.None? {
        return true, 2;
      }
      var items := node.items;
      while items.Item?
        invariant items == node.items || items < node.items
        invariant !Pending() && Here() == old(Here())
        invariant RunCase(host, items, 0, word.value, Here(), St(), fuel)
               == RunNode(host, node, old(Here()), old(St()), fuel)
        decreases items
      {
        var done;
        ok, done, status := ExecItem(items, word.value, fuel);
        if done {
          return;
        }
        items := items.rest;
      }
      return true, 0;
    }

    /** One item of a case: done if a pattern matched or could not be expanded */
    method ExecItem(items: CaseItems, word: string, fuel: nat) returns (ok: bool, done: bool, status: int)
      requires !Pending() && items.Item?
      modifies this
      ensures done ==> Ended(RunCase(host, items, 0, word, old(Here()), old(St()), fuel), ok, status)
      ensures !done ==> !Pending() && RunCase(host, items.rest, 0, word, Here(), St(), fuel)
                                    == RunCase(host, items, 0, word, old(Here()), old(St()), fuel)
      ensures !done || ok ==> Here() == old(Here())
      decreases 2 * fuel + 1, items, 0
    {
      hide RunBody;
      var i := 0;
      while i < |items.patterns|
        invariant i <= |items.patterns|
        invariant !Pending() && Here() == old(Here())
        invariant RunCase(host, items, i, word, Here(), St(), fuel)
                  == RunCase(host, items, 0, word, old(Here()), old(St()), fuel)
      {
        var (pattern, last, w) := host.expand(items.patterns[i], lastStatus, world);
        lastStatus, world := last, w;
        if pattern.None? {
          return true, true, 2;
        }
        if host.matches(pattern.value, word) {
          done := true;
          if items.body.End? {
            return true, true, 0;
          }
          ok, status := ExecList(items.body, fuel);
          return;
        }
        i := i + 1;
      }
      ok, done, status := true, false, 0;
    }

    method ExecSimple(text: string, fuel: nat) returns (ok: bool, status: int)
      requires !Pending()
      modifies this
      ensures Ended(RunSimple(host, text, old(Here()), old(St()), fuel), ok, status)
      ensures ok ==> Here() == old(Here())
      decreases 2 * fuel + 1, Simple(text), 1
    {
      hide RunWords;
      var (plan, last, w) := host.plan(text, lastStatus, world);
      lastStatus, world := last, w;
      match plan {
        case Ran(s) => ok, status := true, s;
        case Words(argv, alone) => ok, status := ExecWords(argv, alone, fuel);
      }
      if ok && status == STATUS_INTERRUPTED && !host.trapped(world) {
        interrupted := true;
      }
    }

    method ExecWords(argv: seq<string>, alone: bool, fuel: nat) returns (ok: bool, status: int)
      requires !Pending()
      modifies this
      ensures Ended(RunWords(host, argv, alone, old(Here()), old(St()), fuel), ok, status)
      ensures ok ==> Here() == old(Here())
      ensures ok && !shouldExit && (pendingBreak != 0 || pendingContinue != 0) ==> status == 0
      decreases 2 * fuel, 1
    {
      hide RunCall, SetErrexit, Number;
      ok := true;
      if argv == [] {
        return true, lastStatus;
      }
      if argv[0] == "exit" {
        shouldExit := true;
        return true, if |argv| > 1 then Number(argv[1]) else 0;
      }
      if argv[0] == "break" || argv[0] == "continue" {
        status := LoopControlBuiltin(argv);
      } else if argv[0] == "return" {
        status := ReturnBuiltin(argv);
      } else if argv[0] == "set" {
        var (s, w) := host.run(argv, world);
        status, world, optErrexit := s, w, SetErrexit(argv[1..], optErrexit);
      } else if alone && argv[0] !in BUILTINS && argv[0] in functions {
        ok, status := CallFunction(argv, fuel);
      } else {
        var (s, w) := host.run(argv, world);
        status, world := s, w;
      }
    }

    method LoopControlBuiltin(argv: seq<string>) returns (status: int)
      requires !Pending() && argv != []
      modifies `pendingBreak, `pendingContinue
      ensures var (how, s) := LoopControl(argv, Here());
              status == s && Now().Show(how)
      ensures pendingBreak <= loopDepth && pendingContinue <= loopDepth
      ensures Pending() ==> status == 0
    {
      hide Number;
      var n := if |argv| > 1 then Number(argv[1]) else 1;
      if |argv| > 2 || n < 1 || (|argv| > 1 && !StartsWithDigit(argv[1])) {
        return 1;
      }
      if loopDepth == 0 {
        return 1;
      }
      if n > loopDepth {
        n := loopDepth;
      }
      if argv[0] == "break" {
        pendingBreak := n;
      } else {
        pendingContinue := n;
      }
      return 0;
    }

    method ReturnBuiltin(argv: seq<string>) returns (status: int)
      requires !Pending() && argv != []
      modifies `pendingReturn
      ensures var (how, s) := ReturnControl(argv, Here(), lastStatus);
              status == s && Now().Show(how)
      ensures pendingReturn ==> callDepth > 0
    {
      hide Number;
      if callDepth == 0 {
        return 1;
      }
      if |argv| > 2 || (|argv| == 2 && !StartsWithDigit(argv[1])) {
        return 2;
      }
      pendingReturn := true;
      return if |argv| == 2 then Number(argv[1]) else lastStatus;
    }

    /** A call too deep: the whole command text is given up */
    method Abandon() returns (status: int)
      requires !Pending()
      modifies `interrupted
      ensures status == 2 && Now().Show(Interrupt) && Now().Fit(loopDepth, callDepth)
      ensures pendingBreak == 0 && pendingContinue == 0 && !pendingReturn
    {
      interrupted := true;
      status := 2;
    }

    method CallFunction(argv: seq<string>, fuel: nat) returns (ok: bool, status: int)
      requires !Pending() && argv != [] && argv[0] in functions
      modifies this
      ensures Ended(RunCall(host, argv, old(Here()), old(St()), fuel), ok, status)
      ensures ok ==> Here() == old(Here())
      ensures ok && !shouldExit ==> pendingBreak == 0 && pendingContinue == 0 && !pendingReturn
      decreases 2 * fuel, 0
    {
      hide RunBody, Flags.Show, Flags.Fit, CallEnds;
      if callDepth >= MAX_CALL_DEPTH {
        status := Abandon();
        return true, status;
      }
      if fuel == 0 {
        return false, 0;
      }
      var body, outside, savedLoops := functions[argv[0]], world, loopDepth;
      world := host.enter(argv, world);
      loopDepth := 0;
      callDepth := callDepth + 1;
      ghost var r := RunBody(host, body, Here(), St(), fuel - 1);
      ok, status := ExecList(body, fuel - 1);
      if !ok {
        return;
      }
      AfterCall(Now(), r.how, callDepth, savedLoops, callDepth - 1);
      callDepth := callDepth - 1;
      pendingReturn := false;
      loopDepth := savedLoops;
      world := host.leave(outside, world);
    }

    /** A whole command text: nothing is pending after it, whatever it asked for */
    method RunText(top: CommandList, fuel: nat) returns (ok: bool, status: int)
      requires Here() == Place(0, 0, 0) && !shouldExit
      requires pendingBreak == 0 && pendingContinue == 0 && !pendingReturn
      modifies this
      ensures var r := RunBody(host, top, Place(0, 0, 0), old(St()), fuel);
              && ok == r.Done?
              && (ok ==> status == r.status && St() == r.st && Here() == Place(0, 0, 0))
              && (ok ==> shouldExit == r.how.Exit? && pendingBreak == 0 && pendingContinue == 0 && !pendingReturn)
    {
      interrupted := false;
      ok, status := ExecList(top, fuel);
      pendingBreak, pendingContinue, pendingReturn := 0, 0, false;
    }
  }
}
