/** What lists, conditions, loops and options do, in the words of the manual: which commands
    run, and with what status a list, an if or a loop is left.
 */
module ShellLaws {
  import opened ShellSemantics
  import opened ShellExits
  import T = ArithText

  // ----- Lists -----

  /** `a && b`: b is run exactly if a ended normally with status 0; if it is not, the list
      has a's status */
  lemma AndRunsOnSuccess<W(!new)>(host: Host<W>, a: Node, b: Node, place: Place, st: Shell<W>, fuel: nat)
    requires RunCommand(host, a, Then(IfOk, b, End), place, st, fuel).Done?
    ensures var list, rest := Then(Always, a, Then(IfOk, b, End)), Then(IfOk, b, End);
            var first := RunCommand(host, a, rest, place, st, fuel);
            if first.how.Normal? && first.status == 0
            then && RunBody(host, list, place, st, fuel) == RunCommand(host, b, End, place, first.st, fuel)
                 && BodyRan(host, list, place, st, fuel)
                    == CommandRan(host, a, rest, place, st, fuel) + CommandRan(host, b, End, place, first.st, fuel)
            else && RunBody(host, list, place, st, fuel) == first
                 && BodyRan(host, list, place, st, fuel) == CommandRan(host, a, rest, place, st, fuel)
  {
    hide RunCommand, CommandRan;
    Joined(host, IfOk, a, b, place, st, fuel);
  }

  /** `a || b`: b is run exactly if a ended normally with another status */
  lemma OrRunsOnFailure<W(!new)>(host: Host<W>, a: Node, b: Node, place: Place, st: Shell<W>, fuel: nat)
    requires RunCommand(host, a, Then(IfFailed, b, End), place, st, fuel).Done?
    ensures var list, rest := Then(Always, a, Then(IfFailed, b, End)), Then(IfFailed, b, End);
            var first := RunCommand(host, a, rest, place, st, fuel);
            if first.how.Normal? && first.status != 0
            then && RunBody(host, list, place, st, fuel) == RunCommand(host, b, End, place, first.st, fuel)
                 && BodyRan(host, list, place, st, fuel)
                    == CommandRan(host, a, rest, place, st, fuel) + CommandRan(host, b, End, place, first.st, fuel)
            else && RunBody(host, list, place, st, fuel) == first
                 && BodyRan(host, list, place, st, fuel) == CommandRan(host, a, rest, place, st, fuel)
  {
    hide RunCommand, CommandRan;
    Joined(host, IfFailed, a, b, place, st, fuel);
  }

  /** `a; b`: b is run exactly if a ended normally */
  lemma ThenRunsAnyway<W(!new)>(host: Host<W>, a: Node, b: Node, place: Place, st: Shell<W>, fuel: nat)
    requires RunCommand(host, a, Then(Always, b, End), place, st, fuel).Done?
    ensures var list, rest := Then(Always, a, Then(Always, b, End)), Then(Always, b, End);
            var first := RunCommand(host, a, rest, place, st, fuel);
            if first.how.Normal?
            then && RunBody(host, list, place, st, fuel) == RunCommand(host, b, End, place, first.st, fuel)
                 && BodyRan(host, list, place, st, fuel)
                    == CommandRan(host, a, rest, place, st, fuel) + CommandRan(host, b, End, place, first.st, fuel)
            else && RunBody(host, list, place, st, fuel) == first
                 && BodyRan(host, list, place, st, fuel) == CommandRan(host, a, rest, place, st, fuel)
  {
    hide RunCommand, CommandRan;
    Joined(host, Always, a, b, place, st, fuel);
  }

  /** What a join lets through: any status, 0, or any other */
  lemma Joined<W(!new)>(host: Host<W>, join: Join, a: Node, b: Node, place: Place, st: Shell<W>, fuel: nat)
    requires RunCommand(host, a, Then(join, b, End), place, st, fuel).Done?
    ensures var list, rest := Then(Always, a, Then(join, b, End)), Then(join, b, End);
            var first := RunCommand(host, a, rest, place, st, fuel);
            if first.how.Normal? && (join.IfOk? ==> first.status == 0) && (join.IfFailed? ==> first.status != 0)
            then && RunBody(host, list, place, st, fuel) == RunCommand(host, b, End, place, first.st, fuel)
                 && BodyRan(host, list, place, st, fuel)
                    == CommandRan(host, a, rest, place, st, fuel) + CommandRan(host, b, End, place, first.st, fuel)
            else && RunBody(host, list, place, st, fuel) == first
                 && BodyRan(host, list, place, st, fuel) == CommandRan(host, a, rest, place, st, fuel)
  {
    hide RunCommand, CommandRan;
    var list, rest := Then(Always, a, Then(join, b, End)), Then(join, b, End);
    var first := RunCommand(host, a, rest, place, st, fuel);
    var ran := CommandRan(host, a, rest, place, st, fuel);
    assert ran + [] == ran;
    if first.how.Normal? {
      var last := RunCommand(host, b, End, place, first.st, fuel);
      var more := CommandRan(host, b, End, place, first.st, fuel);
      assert more + [] == more;
      if last.Done? && last.how.Normal? {
        assert RunList(host, End, last.status, place, last.st, fuel) == last;
        assert ListRan(host, End, last.status, place, last.st, fuel) == [];
      }
      assert RunList(host, rest, first.status, place, first.st, fuel)
        == if Runs(join, first.status) then last else first;
      assert ListRan(host, rest, first.status, place, first.st, fuel) == if Runs(join, first.status) then more else [];
    }
  }

  // ----- Compound commands -----

  /** `if`: the condition's status decides between the branches; without an else, a failed
      condition leaves status 0 */
  lemma IfTakesOneBranch<W(!new)>(host: Host<W>, node: Node, place: Place, st: Shell<W>, fuel: nat)
    requires node.If? && RunBody(host, node.cond, place.Guarded(), st, fuel).Done?
    ensures var c := RunBody(host, node.cond, place.Guarded(), st, fuel);
            var r, ran := RunNode(host, node, place, st, fuel), NodeRan(host, node, place, st, fuel);
            var before := BodyRan(host, node.cond, place.Guarded(), st, fuel);
            if !c.how.Normal? then r == c && ran == before
            else if c.status == 0 then
              && r == RunBody(host, node.body, place, c.st, fuel)
              && ran == before + BodyRan(host, node.body, place, c.st, fuel)
            else if node.other != End then
              && r == RunBody(host, node.other, place, c.st, fuel)
              && ran == before + BodyRan(host, node.other, place, c.st, fuel)
            else r == Done(Normal, 0, c.st) && ran == before
  {
    hide RunBody, BodyRan;
    var before := BodyRan(host, node.cond, place.Guarded(), st, fuel);
    assert before + [] == before;
    var c := RunBody(host, node.cond, place.Guarded(), st, fuel);
    EmptyBranch(host, node.other, place, c.st, fuel);
  }

  /** A loop's condition is asked before every round: `while` goes on as long as it succeeds,
      `until` as long as it fails. A loop that never runs its body has status 0, else its
      last round's. */
  lemma LoopAsksItsCondition<W(!new)>(host: Host<W>, node: Node, status: int, place: Place, st: Shell<W>, fuel: nat)
    requires node.Loop? && RunBody(host, node.cond, place.Guarded(), st, fuel).Done?
    requires RunBody(host, node.cond, place.Guarded(), st, fuel).how.Normal?
    ensures var c := RunBody(host, node.cond, place.Guarded(), st, fuel);
            var body := RunBody(host, node.body, place, c.st, fuel);
            var goesOn := if node.until then c.status != 0 else c.status == 0;
            var r := RunLoop(host, node, status, place, st, fuel);
            && (!goesOn ==> r == Done(Normal, status, c.st))
            && (goesOn && body.Done? && body.how == Break(1) ==> r == Done(Normal, body.status, body.st))
            && (goesOn && body.Done? && (body.how.Normal? || body.how == Continue(1)) && fuel > 0 ==>
                  r == RunLoop(host, node, body.status, place, body.st, fuel - 1))
  {
    hide RunBody;
  }

  lemma LoopStartsWithZero<W(!new)>(host: Host<W>, node: Node, place: Place, st: Shell<W>, fuel: nat)
    requires node.Loop?
    ensures RunNode(host, node, place, st, fuel) == RunLoop(host, node, 0, place.InLoop(), st, fuel)
  {
  }

  /** `!`: success becomes 1, and anything else 0 */
  lemma NotTurnsTheStatus<W(!new)>(host: Host<W>, node: Node, place: Place, st: Shell<W>, fuel: nat)
    requires RunNode(host, node, place.Guarded(), st, fuel).Done?
    ensures var inner, r := RunNode(host, node, place.Guarded(), st, fuel), RunNode(host, Not(node), place, st, fuel);
            && r.Done? && r.how == inner.how && r.st == inner.st
            && (inner.status == 0 ==> r.status == 1) && (inner.status != 0 ==> r.status == 0)
  {
    hide RunNode;
    NotUnfolds(host, node, place, st, fuel);
  }

  lemma NotUnfolds<W(!new)>(host: Host<W>, node: Node, place: Place, st: Shell<W>, fuel: nat)
    ensures RunNode(host, Not(node), place, st, fuel) ==
            match RunNode(host, node, place.Guarded(), st, fuel)
            case OutOfFuel => OutOfFuel
            case Done(how, s, st1) => Done(how, if s == 0 then 1 else 0, st1)
  {
  }

  /** `for`: a round for each word in order, the variable set to it first; without words the
      status is 0, and a variable that cannot be set ends the loop with status 1 */
  lemma ForTakesEachWord<W(!new)>(host: Host<W>, node: Node, words: seq<string>, status: int, place: Place,
                                  st: Shell<W>, fuel: nat)
    requires node.For?
    ensures RunFor(host, node, [], status, place, st, fuel) == Done(Normal, status, st)
    ensures words != [] ==>
      var (ok, world) := host.assign(node.name, words[0], st.world);
      var body := RunBody(host, node.body, place, st.(world := world), fuel);
      var r := RunFor(host, node, words, status, place, st, fuel);
      && (!ok ==> r == Done(Normal, 1, st.(world := world)))
      && (ok && body.Done? && (body.how.Normal? || body.how == Continue(1)) ==>
            r == RunFor(host, node, words[1..], body.status, place, body.st, fuel))
      && (ok && body.Done? && body.how == Break(1) ==> r == Done(Normal, body.status, body.st))
  {
    hide RunBody;
  }

  /** `case`: patterns are tried in order; the first that matches runs its item's list */
  lemma CaseTakesTheFirst<W(!new)>(host: Host<W>, items: CaseItems, i: nat, word: string, place: Place, st: Shell<W>,
                                   fuel: nat)
    requires items.Item? && i < |items.patterns|
    ensures var (pattern, last, world) := host.expand(items.patterns[i], st.last, st.world);
            var st1 := st.(world := world, last := last);
            pattern.Some? ==>
              RunCase(host, items, i, word, place, st, fuel) ==
              if host.matches(pattern.value, word)
              then if items.body == End then Done(Normal, 0, st1) else RunBody(host, items.body, place, st1, fuel)
              else if i + 1 < |items.patterns| then RunCase(host, items, i + 1, word, place, st1, fuel)
              else RunCase(host, items.rest, 0, word, place, st1, fuel)
    ensures RunCase(host, NoItems, 0, word, place, st, fuel) == Done(Normal, 0, st)
  {
    hide RunBody;
    var (pattern, last, world) := host.expand(items.patterns[i], st.last, st.world);
    var st1 := st.(world := world, last := last);
    if i + 1 == |items.patterns| {
      assert RunCase(host, items, i + 1, word, place, st1, fuel)
          == RunCase(host, items.rest, 0, word, place, st1, fuel);
    }
  }

  // ----- Built-in commands -----

  /** Numbers as they are written, up to what is no digit */
  lemma NumberReadsDecimal(n: nat, rest: string)
    requires rest == "" || !('0' <= rest[0] <= '9')
    ensures Number(T.Digits(n) + rest) == n
    ensures Number("-" + T.Digits(n) + rest) == -(n as int)
  {
    hide NumberPrefix, T.Digits;
    T.DigitsOfNumber(n);
    PrefixOfDigits(n);
    PrefixStops(T.Digits(n), rest);
    var s, t := T.Digits(n) + rest, "-" + T.Digits(n) + rest;
    assert s[0] == T.Digits(n)[0] && s[0] != '-';
    assert t[1..] == s && t[0] == '-';
  }

  lemma {:induction false} PrefixOfDigits(n: nat)
    ensures NumberPrefix(T.Digits(n)) == n
  {
    T.DigitsOfNumber(n);
    var s := T.Digits(n);
    if n < 10 {
      assert s[..0] == "";
    } else {
      PrefixOfDigits(n / 10);
      assert s[..|s| - 1] == T.Digits(n / 10);
    }
  }

  lemma {:induction false} PrefixStops(s: string, rest: string)
    requires rest == "" || !('0' <= rest[0] <= '9')
    ensures NumberPrefix(s + rest) == NumberPrefix(s)
    decreases |rest|
  {
    if rest == "" {
      assert s + rest == s;
    } else {
      var init := rest[..|rest| - 1];
      PrefixStops(s, init);
      assert (s + rest)[..|s + rest| - 1] == s + init;
      assert (s + rest)[|s|] == rest[0];
    }
  }

  /** `break` and `continue`: out of, or to the next round of, as many loops as the number
      says, one without it, and at most all; an error that changes nothing outside loops, for
      more than one word and for what is no positive number */
  lemma LoopControlIs(word: string, place: Place)
    ensures var digit := word != "" && word[0] in "0123456789";
            var n: int := if Number(word) > place.loops then place.loops else Number(word);
            if digit && n >= 1
            then LoopControl(["break", word], place) == (Break(n), 0)
                 && LoopControl(["continue", word], place) == (Continue(n), 0)
            else LoopControl(["break", word], place) == (Normal, 1) == LoopControl(["continue", word], place)
    ensures LoopControl(["break"], place) == if place.loops > 0 then (Break(1), 0) else (Normal, 1)
    ensures LoopControl(["continue"], place) == if place.loops > 0 then (Continue(1), 0) else (Normal, 1)
  {
    hide Number;
    DigitStarts(word);
  }

  lemma DigitStarts(word: string)
    ensures StartsWithDigit(word) <==> word != "" && word[0] in "0123456789"
  {
    if StartsWithDigit(word) {
      assert "0123456789"[(word[0] - '0') as int] == word[0];
    }
  }

  /** `return`: with the number's status, or the last one's; an error outside a function, and
      for what starts with no digit */
  lemma ReturnControlIs(word: string, place: Place, last: int)
    ensures ReturnControl(["return"], place, last) == if place.calls > 0 then (Return, last) else (Normal, 1)
    ensures ReturnControl(["return", word], place, last) ==
            if place.calls == 0 then (Normal, 1)
            else if word != "" && word[0] in "0123456789" then (Return, Number(word)) else (Normal, 2)
  {
    hide Number;
    DigitStarts(word);
  }

  /** `set`: a group of options with a `-` turns errexit on if e is among them, with a `+`
      off, and else leaves it; then the next words count. `--` and what is no option end them. */
  lemma SetTurnsErrexit(letters: string, words: seq<string>, errexit: bool)
    requires letters != "" && forall k | 0 <= k < |letters| :: letters[k] in "eux"
    ensures SetErrexit(["-" + letters] + words, errexit) == SetErrexit(words, 'e' in letters || errexit)
    ensures SetErrexit(["+" + letters] + words, errexit) == SetErrexit(words, 'e' !in letters && errexit)
    ensures SetErrexit([], errexit) == errexit && SetErrexit(["--"] + words, errexit) == errexit
  {
    LettersTurn(letters, true, errexit);
    LettersTurn(letters, false, errexit);
    assert ("-" + letters)[1..] == letters && ("+" + letters)[1..] == letters;
    assert (["-" + letters] + words)[1..] == words && (["+" + letters] + words)[1..] == words;
  }

  /** A letter that is no option ends it; those before it count */
  lemma SetStopsAtUnknown(letters: string, c: char, more: string, words: seq<string>, errexit: bool)
    requires c !in "eux" && forall k | 0 <= k < |letters| :: letters[k] in "eux"
    requires !(letters == "" && c == '-' && more == "")
    ensures SetErrexit(["-" + letters + [c] + more] + words, errexit) == ('e' in letters || errexit)
    ensures SetErrexit(["+" + letters + [c] + more] + words, errexit) == ('e' !in letters && errexit)
  {
    hide OptionLetters;
    LettersStop(letters, c, more, true, errexit);
    LettersStop(letters, c, more, false, errexit);
    assert ("-" + letters + [c] + more)[1..] == letters + [c] + more;
    assert ("+" + letters + [c] + more)[1..] == letters + [c] + more;
  }

  lemma {:induction false} LettersStop(letters: string, c: char, more: string, on: bool, errexit: bool)
    requires c !in "eux" && forall k | 0 <= k < |letters| :: letters[k] in "eux"
    ensures OptionLetters(letters + [c] + more, on, errexit) == (false, if 'e' in letters then on else errexit)
    decreases |letters|
  {
    var all := letters + [c] + more;
    if letters == "" {
      assert all[0] == c && c != 'e' && c != 'u' && c != 'x';
    } else {
      assert letters[0] in "eux" && all[0] == letters[0];
      assert all[1..] == letters[1..] + [c] + more;
      LettersStop(letters[1..], c, more, on, if letters[0] == 'e' then on else errexit);
      assert letters == [letters[0]] + letters[1..];
    }
  }

  lemma {:induction false} LettersTurn(letters: string, on: bool, errexit: bool)
    requires forall k | 0 <= k < |letters| :: letters[k] in "eux"
    ensures OptionLetters(letters, on, errexit) == (true, if 'e' in letters then on else errexit)
    decreases |letters|
  {
    if letters != "" {
      assert letters[0] in "eux";
      LettersTurn(letters[1..], on, if letters[0] == 'e' then on else errexit);
      assert letters == [letters[0]] + letters[1..];
    }
  }

  /** A function is kept under its name, in place of one of that name, as long as there are
      at most 32 */
  lemma FunctionsAreKept<W(!new)>(host: Host<W>, name: string, body: CommandList, place: Place, st: Shell<W>, fuel: nat)
    ensures RunNode(host, Function(name, body), place, st, fuel) ==
            if name in st.functions || |st.functions| < 32
            then Done(Normal, 0, st.(functions := st.functions[name := body])) else Done(Normal, 1, st)
  {
  }

  /** A command that Ctrl-C ended has status 130; unless there is a trap for it, or the shell
      exits anyway, everything ends there */
  lemma CtrlCEndsAll<W(!new)>(host: Host<W>, how: Completion, status: int, world: W)
    ensures OrInterrupt(host, how, status, world) ==
            if status == 130 && !how.Exit? && !host.trapped(world) then Interrupt else how
  {
  }

  /** A function named like a command the shell runs itself is never called */
  lemma BuiltinsComeFirst<W(!new)>(host: Host<W>, argv: seq<string>, alone: bool, place: Place, st: Shell<W>, fuel: nat)
    requires argv != []
    requires argv[0] in ["trap", "shift", "getopts", "local", "wait", "test", "[", "read", "cd", "export", "unset",
                         "jobs", "fg", "bg", "pwd", "help"]
    ensures var (status, world) := host.run(argv, st.world);
            RunWords(host, argv, alone, place, st, fuel) == Done(Normal, status, st.(world := world))
  {
    hide RunCall, SetErrexit, Number;
  }

  /** A function is called, if it is alone, under any other name that is not one of the five
      that steer; at most 64 deep */
  lemma FunctionsAreCalled<W(!new)>(host: Host<W>, argv: seq<string>, place: Place, st: Shell<W>, fuel: nat)
    requires argv != [] && argv[0] in st.functions && argv[0] !in BUILTINS
    requires argv[0] !in ["exit", "break", "continue", "return", "set"]
    ensures RunWords(host, argv, true, place, st, fuel) == RunCall(host, argv, place, st, fuel)
    ensures place.calls >= 64 ==> RunCall(host, argv, place, st, fuel) == Done(Interrupt, 2, st)
    ensures place.calls < 64 && fuel > 0 ==>
      var entered := st.(world := host.enter(argv, st.world));
      var body := RunBody(host, st.functions[argv[0]], Place(0, place.calls + 1, place.guards), entered, fuel - 1);
      body.Done? && (body.how.Normal? || body.how.Return?) ==>
        RunCall(host, argv, place, st, fuel)
        == Done(Normal, body.status, body.st.(world := host.leave(st.world, body.st.world)))
  {
    hide RunBody, SetErrexit, Number;
  }
}
