/** What holds of every run of a command tree.

    One induction over the semantics compares two runs of the same commands, the
    second with at least as much fuel and, where every status is tested, perhaps with
    `set -e` the other way round. The theorems are its instances.
 */
module ShellTheorems {
  import opened ShellSemantics

  /** An end that makes sense at a place: no more loops to leave than there are,
      `return` only in a function, and an exit with loops still to leave only where
      no status is tested */
  predicate Contained(place: Place, how: Completion) {
    match how
    case Break(n) => 1 <= n <= place.loops
    case Continue(n) => 1 <= n <= place.loops
    case Return => place.calls > 0
    case Exit(breaks, continues) =>
      (breaks == 0 || continues == 0) && (place.guards > 0 ==> breaks == 0 && continues == 0)
    case _ => true
  }

  /** The same state; with `loose`, whatever errexit is */
  predicate Alike<W(!new, ==)>(loose: bool, st: Shell<W>, st': Shell<W>) {
    if loose then st.(errexit := st'.errexit) == st' else st == st'
  }

  /** If the first run has a result, the second has the same one */
  predicate Follows<W(!new, ==)>(loose: bool, place: Place, r: Result<W>, r': Result<W>) {
    r.Done? ==>
      && r'.Done?
      && Contained(place, r.how)
      && r'.how == r.how && r'.status == r.status && Alike(loose, r.st, r'.st)
  }

  predicate FollowsRound<W(!new, ==)>(loose: bool, place: Place, r: Round<W>, r': Round<W>) {
    match r
    case Last(result) => (result.Done? ==> r'.Last?) && (r'.Last? ==> Follows(loose, place, result, r'.r))
    case Again(s, st) => r'.Again? && r'.status == s && Alike(loose, st, r'.st)
  }

  lemma {:induction false} TwoLists<W(!new)>(host: Host<W>, list: CommandList, status: int, place: Place, loose: bool,
                                             st: Shell<W>, fuel: nat, st': Shell<W>, fuel': nat)
    requires fuel <= fuel' && Alike(loose, st, st') && (loose ==> place.guards > 0)
    ensures Follows(loose, place, RunList(host, list, status, place, st, fuel),
                    RunList(host, list, status, place, st', fuel'))
    decreases 2 * fuel + 1, list, 0
  {
    hide RunCommand;
    if list.Then? {
      if !Runs(list.join, status) {
        TwoLists(host, list.rest, status, place, loose, st, fuel, st', fuel');
      } else {
        TwoCommands(host, list.node, list.rest, place, loose, st, fuel, st', fuel');
        var r := RunCommand(host, list.node, list.rest, place, st, fuel);
        var r' := RunCommand(host, list.node, list.rest, place, st', fuel');
        if r.Done? && r.how.Normal? {
          TwoLists(host, list.rest, r.status, place, loose, r.st, fuel, r'.st, fuel');
        }
      }
    }
  }

  lemma {:induction false} TwoCommands<W(!new)>(host: Host<W>, node: Node, rest: CommandList, place: Place, loose: bool,
                                                st: Shell<W>, fuel: nat, st': Shell<W>, fuel': nat)
    requires fuel <= fuel' && Alike(loose, st, st') && (loose ==> place.guards > 0)
    ensures Follows(loose, place, RunCommand(host, node, rest, place, st, fuel),
                    RunCommand(host, node, rest, place, st', fuel'))
    decreases 2 * fuel + 1, node, 3
  {
    hide RunNode;
    TwoNodes(host, node, if Tested(rest) then place.Guarded() else place, loose, st, fuel, st', fuel');
  }

  lemma {:induction false} TwoBodies<W(!new)>(host: Host<W>, list: CommandList, place: Place, loose: bool,
                                              st: Shell<W>, fuel: nat, st': Shell<W>, fuel': nat)
    requires fuel <= fuel' && Alike(loose, st, st') && (loose ==> place.guards > 0)
    ensures Follows(loose, place, RunBody(host, list, place, st, fuel), RunBody(host, list, place, st', fuel'))
    decreases 2 * fuel + 1, list, 1
  {
    TwoLists(host, list, st.last, place, loose, st, fuel, st', fuel');
  }

  lemma {:induction false} TwoNodes<W(!new)>(host: Host<W>, node: Node, place: Place, loose: bool,
                                             st: Shell<W>, fuel: nat, st': Shell<W>, fuel': nat)
    requires fuel <= fuel' && Alike(loose, st, st') && (loose ==> place.guards > 0)
    ensures Follows(loose, place, RunNode(host, node, place, st, fuel), RunNode(host, node, place, st', fuel'))
    decreases 2 * fuel + 1, node, 2
  {
    hide RunBody, RunLoop, RunWordsOfFor, RunCase, RunSimple, Contained;
    match node
    case Simple(text) => TwoSimples(host, text, place, loose, st, fuel, st', fuel');
    case Pipeline(_) =>
      InterruptContained(host, place, Normal, host.pipeline(node.text, st.last, st.world).0,
                         host.pipeline(node.text, st.last, st.world).1);
    case Group(body) => TwoBodies(host, body, place, loose, st, fuel, st', fuel');
    case If(_, _, _) => TwoIfs(host, node, place, loose, st, fuel, st', fuel');
    case Loop(_, _, _) => TwoLoops(host, node, 0, place, loose, st, fuel, st', fuel');
    case For(_, _, _) => TwoFors(host, node, place, loose, st, fuel, st', fuel');
    case Case(text, items) =>
      var (word, last, world) := host.expand(text, st.last, st.world);
      NormalContained(place);
      if word.Some? {
        TwoCases(host, items, 0, word.value, place, loose, st.(world := world, last := last), fuel,
                 st'.(world := world, last := last), fuel');
      }
    case Function(_, _) => NormalContained(place);
    case Not(inner) =>
      TwoNodes(host, inner, place.Guarded(), loose, st, fuel, st', fuel');
      var r := RunNode(host, inner, place.Guarded(), st, fuel);
      if r.Done? {
        ContainedGuarded(place, r.how);
      }
  }

  lemma NormalContained(place: Place)
    ensures Contained(place, Normal) && Contained(place, Exit(0, 0)) && Contained(place, Interrupt)
  {
  }

  lemma ContainedGuarded(place: Place, how: Completion)
    requires Contained(place.Guarded(), how)
    ensures Contained(place, how)
  {
  }

  lemma InterruptContained<W(!new)>(host: Host<W>, place: Place, how: Completion, status: int, world: W)
    requires Contained(place, how)
    ensures Contained(place, OrInterrupt(host, how, status, world))
  {
  }

  lemma {:induction false} TwoIfs<W(!new)>(host: Host<W>, node: Node, place: Place, loose: bool,
                                           st: Shell<W>, fuel: nat, st': Shell<W>, fuel': nat)
    requires node.If? && fuel <= fuel' && Alike(loose, st, st') && (loose ==> place.guards > 0)
    ensures Follows(loose, place, RunNode(host, node, place, st, fuel), RunNode(host, node, place, st', fuel'))
    decreases 2 * fuel + 1, node, 1
  {
    hide RunBody;
    TwoBodies(host, node.cond, place.Guarded(), loose, st, fuel, st', fuel');
    var c := RunBody(host, node.cond, place.Guarded(), st, fuel);
    var c' := RunBody(host, node.cond, place.Guarded(), st', fuel');
    if c.Done? && c.how.Normal? {
      TwoBodies(host, if c.status == 0 then node.body else node.other, place, loose, c.st, fuel, c'.st, fuel');
    }
  }

  /** A loop ends as its round did, with one loop less to leave */
  lemma LoopContained(place: Place, how: Completion)
    requires Contained(place.InLoop(), how) && LoopEnds(how).Some?
    ensures Contained(place, LoopEnds(how).value)
  {
  }

  lemma {:induction false} TwoRounds<W(!new)>(host: Host<W>, node: Node, status: int, place: Place, loose: bool,
                                              st: Shell<W>, fuel: nat, st': Shell<W>, fuel': nat)
    requires node.Loop? && fuel <= fuel' && Alike(loose, st, st') && (loose ==> place.guards > 0)
    ensures FollowsRound(loose, place, RunRound(host, node, status, place.InLoop(), st, fuel),
                         RunRound(host, node, status, place.InLoop(), st', fuel'))
    decreases 2 * fuel + 1, node, 0
  {
    hide RunBody;
    var inside := place.InLoop();
    TwoBodies(host, node.cond, inside.Guarded(), loose, st, fuel, st', fuel');
    var c := RunBody(host, node.cond, inside.Guarded(), st, fuel);
    var c' := RunBody(host, node.cond, inside.Guarded(), st', fuel');
    if c.Done? {
      if LoopEnds(c.how).Some? {
        LoopContained(place, c.how);
      } else {
        TwoLoopBodies(host, node.body, place, loose, c.st, fuel, c'.st, fuel');
      }
    }
  }

  lemma {:induction false} TwoLoopBodies<W(!new)>(host: Host<W>, body: CommandList, place: Place, loose: bool,
                                                  st: Shell<W>, fuel: nat, st': Shell<W>, fuel': nat)
    requires fuel <= fuel' && Alike(loose, st, st') && (loose ==> place.guards > 0)
    ensures FollowsRound(loose, place, AfterBody(RunBody(host, body, place.InLoop(), st, fuel)),
                         AfterBody(RunBody(host, body, place.InLoop(), st', fuel')))
    decreases 2 * fuel + 1, body, 2
  {
    hide RunBody;
    TwoBodies(host, body, place.InLoop(), loose, st, fuel, st', fuel');
    var r := RunBody(host, body, place.InLoop(), st, fuel);
    if r.Done? && LoopEnds(r.how).Some? {
      LoopContained(place, r.how);
    }
  }

  lemma {:induction false} TwoLoops<W(!new)>(host: Host<W>, node: Node, status: int, place: Place, loose: bool,
                                             st: Shell<W>, fuel: nat, st': Shell<W>, fuel': nat)
    requires node.Loop? && fuel <= fuel' && Alike(loose, st, st') && (loose ==> place.guards > 0)
    ensures Follows(loose, place, RunLoop(host, node, status, place.InLoop(), st, fuel),
                    RunLoop(host, node, status, place.InLoop(), st', fuel'))
    decreases 2 * fuel + 1, node, 1
  {
    hide RunRound;
    TwoRounds(host, node, status, place, loose, st, fuel, st', fuel');
    var r := RunRound(host, node, status, place.InLoop(), st, fuel);
    var r' := RunRound(host, node, status, place.InLoop(), st', fuel');
    if r.Again? && fuel > 0 {
      TwoLoops(host, node, r.status, place, loose, r.st, fuel - 1, r'.st, fuel' - 1);
    }
  }

  lemma {:induction false} TwoFors<W(!new)>(host: Host<W>, node: Node, place: Place, loose: bool,
                                            st: Shell<W>, fuel: nat, st': Shell<W>, fuel': nat)
    requires node.For? && fuel <= fuel' && Alike(loose, st, st') && (loose ==> place.guards > 0)
    ensures Follows(loose, place, RunWordsOfFor(host, node, place.InLoop(), st, fuel),
                    RunWordsOfFor(host, node, place.InLoop(), st', fuel'))
    decreases 2 * fuel + 1, node, 1
  {
    hide RunFor;
    var (words, last, world) := host.words(node.words, st.last, st.world);
    if words.Some? {
      TwoForWords(host, node, words.value, 0, place, loose, st.(world := world, last := last), fuel,
                  st'.(world := world, last := last), fuel');
    }
  }

  lemma {:induction false} TwoForWords<W(!new)>(host: Host<W>, node: Node, words: seq<string>, status: int,
                                                place: Place, loose: bool, st: Shell<W>, fuel: nat,
                                                st': Shell<W>, fuel': nat)
    requires node.For? && fuel <= fuel' && Alike(loose, st, st') && (loose ==> place.guards > 0)
    ensures Follows(loose, place, RunFor(host, node, words, status, place.InLoop(), st, fuel),
                    RunFor(host, node, words, status, place.InLoop(), st', fuel'))
    decreases 2 * fuel + 1, node, 1, |words|
  {
    hide RunBody, AfterBody;
    if words != [] {
      var (ok, world) := host.assign(node.name, words[0], st.world);
      if ok {
        var inside := place.InLoop();
        TwoLoopBodies(host, node.body, place, loose, st.(world := world), fuel, st'.(world := world), fuel');
        var r := AfterBody(RunBody(host, node.body, inside, st.(world := world), fuel));
        var r' := AfterBody(RunBody(host, node.body, inside, st'.(world := world), fuel'));
        if r.Again? {
          TwoForWords(host, node, words[1..], r.status, place, loose, r.st, fuel, r'.st, fuel');
        }
      }
    }
  }

  lemma {:induction false} TwoCases<W(!new)>(host: Host<W>, items: CaseItems, i: nat, word: string, place: Place,
                                             loose: bool, st: Shell<W>, fuel: nat, st': Shell<W>, fuel': nat)
    requires fuel <= fuel' && Alike(loose, st, st') && (loose ==> place.guards > 0)
    ensures Follows(loose, place, RunCase(host, items, i, word, place, st, fuel),
                    RunCase(host, items, i, word, place, st', fuel'))
    decreases 2 * fuel + 1, items, 1, if items.Item? && i < |items.patterns| then |items.patterns| - i else 0
  {
    hide RunBody;
    if items.Item? {
      if i >= |items.patterns| {
        TwoCases(host, items.rest, 0, word, place, loose, st, fuel, st', fuel');
      } else {
        var (pattern, last, world) := host.expand(items.patterns[i], st.last, st.world);
        var st1, st1' := st.(world := world, last := last), st'.(world := world, last := last);
        if pattern.Some? {
          if host.matches(pattern.value, word) {
            TwoBodies(host, items.body, place, loose, st1, fuel, st1', fuel');
          } else {
            TwoCases(host, items, i + 1, word, place, loose, st1, fuel, st1', fuel');
          }
        }
      }
    }
  }

  lemma {:induction false} TwoSimples<W(!new)>(host: Host<W>, text: string, place: Place, loose: bool,
                                               st: Shell<W>, fuel: nat, st': Shell<W>, fuel': nat)
    requires fuel <= fuel' && Alike(loose, st, st') && (loose ==> place.guards > 0)
    ensures Follows(loose, place, RunSimple(host, text, place, st, fuel), RunSimple(host, text, place, st', fuel'))
    decreases 2 * fuel + 1, Simple(text), 1
  {
    hide RunWords;
    var (plan, last, world) := host.plan(text, st.last, st.world);
    if plan.Words? {
      TwoWords(host, plan.argv, plan.alone, place, loose, st.(world := world, last := last), fuel,
               st'.(world := world, last := last), fuel');
    }
  }

  lemma {:induction false} TwoWords<W(!new)>(host: Host<W>, argv: seq<string>, alone: bool, place: Place, loose: bool,
                                             st: Shell<W>, fuel: nat, st': Shell<W>, fuel': nat)
    requires fuel <= fuel' && Alike(loose, st, st') && (loose ==> place.guards > 0)
    ensures Follows(loose, place, RunWords(host, argv, alone, place, st, fuel),
                    RunWords(host, argv, alone, place, st', fuel'))
    decreases 2 * fuel, 1
  {
    hide RunCall, Number, SetErrexit;
    if argv != [] && CallsFunction(argv, alone, st.functions) {
      TwoCalls(host, argv, place, loose, st, fuel, st', fuel');
    }
  }

  lemma {:induction false} TwoCalls<W(!new)>(host: Host<W>, argv: seq<string>, place: Place, loose: bool,
                                             st: Shell<W>, fuel: nat, st': Shell<W>, fuel': nat)
    requires argv != [] && argv[0] in st.functions && fuel <= fuel' && Alike(loose, st, st')
    requires loose ==> place.guards > 0
    ensures Follows(loose, place, RunCall(host, argv, place, st, fuel), RunCall(host, argv, place, st', fuel'))
    decreases 2 * fuel, 0
  {
    hide RunBody;
    if place.calls < MAX_CALL_DEPTH && fuel > 0 {
      var world := host.enter(argv, st.world);
      TwoBodies(host, st.functions[argv[0]], place.InCall(), loose, st.(world := world), fuel - 1, st'.(world := world),
                fuel' - 1);
    }
  }

  // ----- The theorems -----

  /** Fuel decides only whether there is a result: any two fuels that are enough
      give the same one */
  lemma MoreFuel<W(!new)>(host: Host<W>, list: CommandList, place: Place, st: Shell<W>, fuel: nat, fuel': nat)
    requires RunBody(host, list, place, st, fuel).Done? && RunBody(host, list, place, st, fuel').Done?
    ensures RunBody(host, list, place, st, fuel) == RunBody(host, list, place, st, fuel')
  {
    hide RunBody;
    if fuel <= fuel' {
      TwoBodies(host, list, place, false, st, fuel, st, fuel');
    } else {
      TwoBodies(host, list, place, false, st, fuel', st, fuel);
    }
  }

  /** `break` and `continue` never reach past the loops they are in, nor `return`
      past a function */
  lemma EndsStayInside<W(!new)>(host: Host<W>, list: CommandList, place: Place, st: Shell<W>, fuel: nat)
    requires RunBody(host, list, place, st, fuel).Done?
    ensures Contained(place, RunBody(host, list, place, st, fuel).how)
  {
    hide RunBody;
    TwoBodies(host, list, place, false, st, fuel, st, fuel);
  }

  /** A call is left only normally, by exit or by Ctrl-C, however many loops the
      caller is in; what its body does can only be contained in the body */
  lemma NothingCrossesACall<W(!new)>(host: Host<W>, argv: seq<string>, place: Place, st: Shell<W>, fuel: nat)
    requires argv != [] && argv[0] in st.functions && place.calls < MAX_CALL_DEPTH && fuel > 0
    requires RunCall(host, argv, place, st, fuel).Done?
    ensures var how := RunCall(host, argv, place, st, fuel).how;
            how.Normal? || how.Exit? || how.Interrupt?
    ensures var entered := st.(world := host.enter(argv, st.world));
            var body := RunBody(host, st.functions[argv[0]], place.InCall(), entered, fuel - 1);
            body.Done? && !body.how.Break? && !body.how.Continue?
  {
    hide RunBody;
    var entered := st.(world := host.enter(argv, st.world));
    EndsStayInside(host, st.functions[argv[0]], place.InCall(), entered, fuel - 1);
  }

  /** Where a status is being tested, `set -e` makes no difference: not to how the
      commands end, not to their status, not to what they leave behind but the option
      itself */
  lemma GuardedIgnoresErrexit<W(!new)>(host: Host<W>, list: CommandList, place: Place, st: Shell<W>, errexit: bool,
                                       fuel: nat)
    requires place.guards > 0
    ensures var r := RunBody(host, list, place, st, fuel);
            var r' := RunBody(host, list, place, st.(errexit := errexit), fuel);
            && r.Done? == r'.Done?
            && (r.Done? ==> r.how == r'.how && r.status == r'.status && r.st.(errexit := r'.st.errexit) == r'.st)
  {
    hide RunBody;
    TwoBodies(host, list, place, true, st, fuel, st.(errexit := errexit), fuel);
    TwoBodies(host, list, place, true, st.(errexit := errexit), fuel, st, fuel);
  }
}
