/** The shell's command trees, and what they mean: a semantics in which `break`,
    `continue`, `return`, `exit` and Ctrl-C are ways a command can end, passed
    outward from command to command.

    What a simple command does to the world (files, programs, variables) is
    outside: a `Host` says. Running may never end, so it has fuel, used up by rounds
    of loops and by calls; `MoreFuel` proves that fuel only decides whether there is a
    result, never which.
 */
module ShellSemantics {
  import opened Common

  // ----- Command trees -----

  /** How a command follows the one before it */
  datatype Join = Always | IfOk | IfFailed

  datatype Node =
    | Simple(text: string)
    | Pipeline(text: string)
    | Group(body: CommandList)
    | If(cond: CommandList, body: CommandList, other: CommandList)
    | Loop(until: bool, cond: CommandList, body: CommandList)
    | For(name: string, words: string, body: CommandList)
    | Case(word: string, items: CaseItems)
    | Function(name: string, body: CommandList)
    | Not(node: Node)

  datatype CommandList = End | Then(join: Join, node: Node, rest: CommandList)

  datatype CaseItems = NoItems | Item(patterns: seq<string>, body: CommandList, rest: CaseItems)

  // ----- What the shell asks of the world -----

  /** What a simple command's text turns out to be: a command of one process with
      these words, `alone` if it has no redirections, no assignments before it and no `&`
      after it; or something else that ran and ended with a status */
  datatype Plan = Words(argv: seq<string>, alone: bool) | Ran(status: int)

  /** `W` is everything outside the interpreter's control flow. Texts are expanded with
      the world as it is and `$?`, which a `$(...)` among them changes. */
  datatype Host<!W(!new)> = Host(
    plan: (string, int, W) -> (Plan, int, W),
    run: (seq<string>, W) -> (int, W),
    pipeline: (string, int, W) -> (int, W),
    words: (string, int, W) -> (Option<seq<string>>, int, W),
    assign: (string, string, W) -> (bool, W),
    expand: (string, int, W) -> (Option<string>, int, W),
    matches: (string, string) -> bool,
    enter: (seq<string>, W) -> W,
    leave: (W, W) -> W,
    trapped: W -> bool)

  /** What commands leave behind: the world, `$?`, `set -e`, the functions */
  datatype Shell<W> = Shell(world: W, last: int, errexit: bool, functions: map<string, CommandList>)

  const MAX_FUNCTIONS: nat := 32
  const MAX_CALL_DEPTH: nat := 64
  const STATUS_INTERRUPTED: int := 130

  // ----- Ends -----

  /** How a command ends. `Break(n)` and `Continue(n)` have `n` loops to go. `Exit` has
      what was left of them when `set -e` ended the shell. */
  datatype Completion =
    | Normal
    | Break(n: nat)
    | Continue(n: nat)
    | Return
    | Exit(breaks: nat, continues: nat)
    | Interrupt

  /** Loops still to leave */
  function Breaks(how: Completion): nat {
    if how.Break? then how.n else if how.Exit? then how.breaks else 0
  }

  /** Loops still to continue */
  function Continues(how: Completion): nat {
    if how.Continue? then how.n else if how.Exit? then how.continues else 0
  }

  /** An exit with more loops still to leave, or to continue, than there are */
  predicate Overhangs(how: Completion, loops: nat) {
    how.Exit? && (how.breaks > loops || how.continues > loops)
  }

  /** Where a command runs: in how many loops of the function being run, in how
      many calls, and in how many places where its status is tested */
  datatype Place = Place(loops: nat, calls: nat, guards: nat) {
    function Guarded(): Place { this.(guards := guards + 1) }
    function InLoop(): Place { this.(loops := loops + 1) }
    function InCall(): Place { Place(0, calls + 1, guards) }
  }

  datatype Result<W> = OutOfFuel | Done(how: Completion, status: int, st: Shell<W>)

  /** A round of a loop: the last one, or one that others follow */
  datatype Round<W> = Last(r: Result<W>) | Again(status: int, st: Shell<W>)

  // ----- Built-in commands -----

  function NumberPrefix(s: string): (n: nat)
    decreases |s|
  {
    if s == "" then 0
    else
      var init := NumberPrefix(s[..|s| - 1]);
      if forall k | 0 <= k < |s| :: '0' <= s[k] <= '9' then init * 10 + (s[|s| - 1] - '0') as nat else init
  }

  /** atoi */
  function Number(s: string): int {
    if s != "" && s[0] == '-' then -(NumberPrefix(s[1..]) as int) else NumberPrefix(s)
  }

  predicate StartsWithDigit(s: string) {
    s != "" && '0' <= s[0] <= '9'
  }

  /** The `n` of `break n` and `continue n`: 1 if not given; None if it is not a
      positive number */
  function LoopCount(argv: seq<string>): (r: Option<nat>)
    ensures r.Some? ==> r.value > 0
  {
    if |argv| <= 1 then Some(1)
    else if |argv| > 2 || !StartsWithDigit(argv[1]) || Number(argv[1]) < 1 then None
    else Some(Number(argv[1]))
  }

  /** `break` and `continue`: out of at most as many loops as there are. How the
      command ends, and its status. */
  function LoopControl(argv: seq<string>, place: Place): (Completion, int)
    requires argv != []
  {
    match LoopCount(argv)
    case None => (Normal, 1)
    case Some(n) =>
      if place.loops == 0 then (Normal, 1)
      else
        var m := if n > place.loops then place.loops else n;
        (if argv[0] == "break" then Break(m) else Continue(m), 0)
  }

  function ReturnControl(argv: seq<string>, place: Place, last: int): (Completion, int)
    requires argv != []
  {
    if place.calls == 0 then (Normal, 1)
    else if |argv| > 2 || (|argv| == 2 && !StartsWithDigit(argv[1])) then (Normal, 2)
    else (Return, if |argv| == 2 then Number(argv[1]) else last)
  }

  /** The letters of one group of options: `e` turns errexit on or off, a letter
      that is no option stops */
  function OptionLetters(letters: string, on: bool, errexit: bool): (bool, bool) {
    if letters == "" then (true, errexit)
    else if letters[0] == 'e' then OptionLetters(letters[1..], on, on)
    else if letters[0] == 'u' || letters[0] == 'x' then OptionLetters(letters[1..], on, errexit)
    else (false, errexit)
  }

  /** errexit after `set` with these words */
  function SetErrexit(words: seq<string>, errexit: bool): bool {
    if words == [] || words[0] == "--" || |words[0]| < 2 || (words[0][0] != '-' && words[0][0] != '+') then errexit
    else
      var (more, changed) := OptionLetters(words[0][1..], words[0][0] == '-', errexit);
      if more then SetErrexit(words[1..], changed) else changed
  }

  /** A command that Ctrl-C ended, without a trap for it, ends everything but an
      exit */
  function OrInterrupt<W(!new)>(host: Host<W>, how: Completion, status: int, world: W): Completion {
    if !how.Exit? && status == STATUS_INTERRUPTED && !host.trapped(world) then Interrupt else how
  }

  // ----- The semantics -----

  predicate Runs(join: Join, status: int) {
    match join
    case Always => true
    case IfOk => status == 0
    case IfFailed => status != 0
  }

  /** A loop whose condition or body ended so: None if the loop goes on, else how
      the loop ends. One loop of a break or continue is this one. */
  function LoopEnds(how: Completion): Option<Completion> {
    match how
    case Normal => None
    case Break(n) => Some(if n <= 1 then Normal else Break(n - 1))
    case Continue(n) => if n <= 1 then None else Some(Continue(n - 1))
    case Return => Some(Return)
    case Exit(_, _) => Some(how)
    case Interrupt => Some(Interrupt)
  }

  /** A function whose body ended so: only exit and Ctrl-C reach the caller */
  function CallEnds(how: Completion): Completion {
    if how.Exit? || how.Interrupt? then how else Normal
  }

  predicate Tested(rest: CommandList) {
    rest.Then? && rest.join != Always
  }

  /** Whether `set -e` looks at a command's status, and it is a failure */
  predicate Fatal(node: Node, rest: CommandList, place: Place, status: int, errexit: bool) {
    errexit && status != 0 && !Tested(rest) && place.guards == 0 && !node.Not?
  }

  /** With `set -e`, a failure nobody looks at ends the shell */
  function AfterCommand(node: Node, rest: CommandList, place: Place, how: Completion, status: int,
                        errexit: bool): Completion {
    if Fatal(node, rest, place, status, errexit) then Exit(Breaks(how), Continues(how)) else how
  }

  /** One command of a list, with `rest` after it */
  function RunCommand<W(!new)>(host: Host<W>, node: Node, rest: CommandList, place: Place, st: Shell<W>,
                               fuel: nat): Result<W>
    decreases 2 * fuel + 1, node, 3
  {
    match RunNode(host, node, if Tested(rest) then place.Guarded() else place, st, fuel)
    case OutOfFuel => OutOfFuel
    case Done(how, s, st1) => Done(AfterCommand(node, rest, place, how, s, st1.errexit), s, st1.(last := s))
  }

  /** Each command in turn that its join allows, up to one that does not end
      normally; a command not run leaves the status as it was */
  function RunList<W(!new)>(host: Host<W>, list: CommandList, status: int, place: Place, st: Shell<W>,
                            fuel: nat): Result<W>
    decreases 2 * fuel + 1, list, 0
  {
    match list
    case End => Done(Normal, status, st)
    case Then(join, node, rest) =>
      if !Runs(join, status) then RunList(host, rest, status, place, st, fuel)
      else
        var r := RunCommand(host, node, rest, place, st, fuel);
        if r.Done? && r.how.Normal? then RunList(host, rest, r.status, place, r.st, fuel) else r
  }

  /** A list starts with the status there is */
  function RunBody<W(!new)>(host: Host<W>, list: CommandList, place: Place, st: Shell<W>, fuel: nat): Result<W>
    decreases 2 * fuel + 1, list, 1
  {
    RunList(host, list, st.last, place, st, fuel)
  }

  function RunNode<W(!new)>(host: Host<W>, node: Node, place: Place, st: Shell<W>, fuel: nat): Result<W>
    decreases 2 * fuel + 1, node, 2
  {
    match node
    case Simple(text) => RunSimple(host, text, place, st, fuel)
    case Pipeline(text) =>
      var (status, world) := host.pipeline(text, st.last, st.world);
      Done(OrInterrupt(host, Normal, status, world), status, st.(world := world))
    case Group(body) => RunBody(host, body, place, st, fuel)
    case If(cond, body, other) =>
      (match RunBody(host, cond, place.Guarded(), st, fuel)
       case OutOfFuel => OutOfFuel
       case Done(how, s, st1) =>
         if !how.Normal? then Done(how, s, st1)
         else if s == 0 then RunBody(host, body, place, st1, fuel)
         else if other.End? then Done(Normal, 0, st1)
         else RunBody(host, other, place, st1, fuel))
    case Loop(_, _, _) => RunLoop(host, node, 0, place.InLoop(), st, fuel)
    case For(_, _, _) => RunWordsOfFor(host, node, place.InLoop(), st, fuel)
    case Case(text, items) =>
      var (word, last, world) := host.expand(text, st.last, st.world);
      var st1 := st.(world := world, last := last);
      if word.None? then Done(Normal, 2, st1)
      else RunCase(host, items, 0, word.value, place, st1, fuel)
    case Function(name, body) =>
      if name in st.functions || |st.functions| < MAX_FUNCTIONS
      then Done(Normal, 0, st.(functions := st.functions[name := body]))
      else Done(Normal, 1, st)
    case Not(inner) =>
      (match RunNode(host, inner, place.Guarded(), st, fuel)
       case OutOfFuel => OutOfFuel
       case Done(how, s, st1) => Done(how, if s == 0 then 1 else 0, st1))
  }

  /** One round of a while or until, `status` the last round's. A `continue` of
      this loop in its own condition ends the condition, whose status still
      decides. */
  function RunRound<W(!new)>(host: Host<W>, node: Node, status: int, place: Place, st: Shell<W>, fuel: nat): Round<W>
    requires node.Loop?
    decreases 2 * fuel + 1, node, 0
  {
    match RunBody(host, node.cond, place.Guarded(), st, fuel)
    case OutOfFuel => Last(OutOfFuel)
    case Done(how, s, st1) =>
      if LoopEnds(how).Some? then Last(Done(LoopEnds(how).value, status, st1))
      else if (if node.until then s == 0 else s != 0) then Last(Done(Normal, status, st1))
      else AfterBody(RunBody(host, node.body, place, st1, fuel))
  }

  /** A loop's body ended so */
  function AfterBody<W>(r: Result<W>): Round<W> {
    match r
    case OutOfFuel => Last(OutOfFuel)
    case Done(how, s, st) => if LoopEnds(how).Some? then Last(Done(LoopEnds(how).value, s, st)) else Again(s, st)
  }

  function RunLoop<W(!new)>(host: Host<W>, node: Node, status: int, place: Place, st: Shell<W>, fuel: nat): Result<W>
    requires node.Loop?
    decreases 2 * fuel + 1, node, 1
  {
    match RunRound(host, node, status, place, st, fuel)
    case Last(r) => r
    case Again(s, st1) => if fuel == 0 then OutOfFuel else RunLoop(host, node, s, place, st1, fuel - 1)
  }

  /** for: the words are expanded once, before the first round */
  function RunWordsOfFor<W(!new)>(host: Host<W>, node: Node, place: Place, st: Shell<W>, fuel: nat): Result<W>
    requires node.For?
    decreases 2 * fuel + 1, node, 1
  {
    var (words, last, world) := host.words(node.words, st.last, st.world);
    var st1 := st.(world := world, last := last);
    if words.None? then Done(Normal, 2, st1) else RunFor(host, node, words.value, 0, place, st1, fuel)
  }

  function RunFor<W(!new)>(host: Host<W>, node: Node, words: seq<string>, status: int, place: Place, st: Shell<W>,
                           fuel: nat): Result<W>
    requires node.For?
    decreases 2 * fuel + 1, node, 1, |words|
  {
    if words == [] then Done(Normal, status, st)
    else
      var (ok, world) := host.assign(node.name, words[0], st.world);
      if !ok then Done(Normal, 1, st.(world := world))
      else
        match AfterBody(RunBody(host, node.body, place, st.(world := world), fuel))
        case Last(r) => r
        case Again(s, st1) => RunFor(host, node, words[1..], s, place, st1, fuel)
  }

  /** The items from `items` on, its patterns from the `i`-th on */
  function RunCase<W(!new)>(host: Host<W>, items: CaseItems, i: nat, word: string, place: Place, st: Shell<W>,
                            fuel: nat): Result<W>
    decreases 2 * fuel + 1, items, 1, if items.Item? && i < |items.patterns| then |items.patterns| - i else 0
  {
    match items
    case NoItems => Done(Normal, 0, st)
    case Item(patterns, body, rest) =>
      if i >= |patterns| then RunCase(host, rest, 0, word, place, st, fuel)
      else
        var (pattern, last, world) := host.expand(patterns[i], st.last, st.world);
        var st1 := st.(world := world, last := last);
        if pattern.None? then Done(Normal, 2, st1)
        else if !host.matches(pattern.value, word) then RunCase(host, items, i + 1, word, place, st1, fuel)
        else if body.End? then Done(Normal, 0, st1)
        else RunBody(host, body, place, st1, fuel)
  }

  function RunSimple<W(!new)>(host: Host<W>, text: string, place: Place, st: Shell<W>, fuel: nat): Result<W>
    decreases 2 * fuel + 1, Simple(text), 1
  {
    var (plan, last, world) := host.plan(text, st.last, st.world);
    var st1 := st.(world := world, last := last);
    match plan
    case Ran(status) => Done(OrInterrupt(host, Normal, status, world), status, st1)
    case Words(argv, alone) =>
      match RunWords(host, argv, alone, place, st1, fuel)
      case OutOfFuel => OutOfFuel
      case Done(how, s, st2) => Done(OrInterrupt(host, how, s, st2.world), s, st2)
  }

  /** Commands the shell runs itself, which come before functions of their names */
  const BUILTINS: set<string> := {
    "trap", "shift", "getopts", "local", "wait", "test", "[", "read", "cd", "export", "unset", "jobs", "fg", "bg",
    "pwd", "help"
  }

  predicate CallsFunction(argv: seq<string>, alone: bool, functions: map<string, CommandList>)
    requires argv != []
  {
    alone && argv[0] !in BUILTINS && argv[0] in functions
  }

  /** A command's words: the commands that steer, a function, or anything else */
  function RunWords<W(!new)>(host: Host<W>, argv: seq<string>, alone: bool, place: Place, st: Shell<W>,
                             fuel: nat): Result<W>
    decreases 2 * fuel, 1
  {
    if argv == [] then Done(Normal, st.last, st)
    else if argv[0] == "exit" then Done(Exit(0, 0), if |argv| > 1 then Number(argv[1]) else 0, st)
    else if argv[0] == "break" || argv[0] == "continue" then
      var (how, status) := LoopControl(argv, place);
      Done(how, status, st)
    else if argv[0] == "return" then
      var (how, status) := ReturnControl(argv, place, st.last);
      Done(how, status, st)
    else if argv[0] == "set" then
      var (status, world) := host.run(argv, st.world);
      Done(Normal, status, st.(world := world, errexit := SetErrexit(argv[1..], st.errexit)))
    else if CallsFunction(argv, alone, st.functions) then RunCall(host, argv, place, st, fuel)
    else
      var (status, world) := host.run(argv, st.world);
      Done(Normal, status, st.(world := world))
  }

  /** A call too deep abandons everything; `return` ends here, and nothing of the
      caller's loops is seen inside */
  function RunCall<W(!new)>(host: Host<W>, argv: seq<string>, place: Place, st: Shell<W>, fuel: nat): Result<W>
    requires argv != [] && argv[0] in st.functions
    decreases 2 * fuel, 0
  {
    if place.calls >= MAX_CALL_DEPTH then Done(Interrupt, 2, st)
    else if fuel == 0 then OutOfFuel
    else
      var entered := st.(world := host.enter(argv, st.world));
      match RunBody(host, st.functions[argv[0]], place.InCall(), entered, fuel - 1)
      case OutOfFuel => OutOfFuel
      case Done(how, s, st1) => Done(CallEnds(how), s, st1.(world := host.leave(st.world, st1.world)))
  }
}
