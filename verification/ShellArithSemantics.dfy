/** Two meanings of a tree.

    `Run` is what one pass over the text does: it goes through the whole
    tree, the sides not taken with `live` false, and goes on after an error, which
    only keeps later assignments from being made.

    `Evaluate` is the arithmetic of C: a side not taken is not there, and the
    first error ends the evaluation. `RunIsEvaluate` proves them the same
    on every tree without a syntax error.
 */
module ArithSemantics {
  import opened Common
  import opened Machine64
  import opened ArithText
  import opened ArithSyntax
  import opened Variables

  /** What the expression may ask of the shell besides its variables: `$?`,
      and the arguments */
  datatype Context = Context(status: Long, arguments: Arguments)

  /** Counted by an `int` */
  type Arguments = a: seq<string> | |a| < 0x8000_0000 witness []

  datatype Error = NoError | SyntaxError | NotANumber(what: string) | DivisionByZero | CannotSet

  datatype State = State(error: Error, vars: Vars) {
    /** The first error is the one kept */
    function Raise(e: Error): State {
      if error.NoError? then this.(error := e) else this
    }
  }

  // ----- One pass -----

  /** The number in `text`, if there is a text; else 0 */
  function ReadText(text: Option<string>, what: string, st: State): (r: (Long, State)) {
    match text
    case None => (0, st)
    case Some(s) =>
      match NumberOf(s)
      case Some(v) => (v, st)
      case None => (0, st.Raise(NotANumber(what)))
  }

  function ReadVariable(name: string, live: bool, st: State): (r: (Long, State)) {
    if live then ReadText(st.vars.Get(name), name, st) else (0, st)
  }

  function StoreVariable(name: string, v: Long, live: bool, st: State): (r: State) {
    if !live || !st.error.NoError? then st
    else
      match st.vars.Set(name, Decimal(v))
      case Some(vars) => st.(vars := vars)
      case None => st.Raise(CannotSet)
  }

  function ArgumentText(cx: Context, index: nat): Option<string> {
    if 1 <= index <= |cx.arguments| then Some(cx.arguments[index - 1]) else None
  }

  function RunAtom(a: Atom, live: bool, st: State, cx: Context): (r: (Long, State)) {
    match a
    case Number(v) => (v, st)
    case Status => (cx.status, st)
    case Count => (|cx.arguments|, st)
    case Argument(index) =>
      if index == 0 || !live then (0, st) else ReadText(ArgumentText(cx, index), "argument", st)
    case Variable(name) => ReadVariable(name, live, st)
  }

  function RunDollar(a: Option<Atom>, live: bool, st: State, cx: Context): (r: (Long, State)) {
    if a.Some? then RunAtom(a.value, live, st, cx) else (0, st.Raise(SyntaxError))
  }

  function RunUnary(op: UnaryOperator, v: Long): Long {
    match op
    case Not => Truth(v == 0)
    case Complement => ComplementMachine(v)
    case Negate => NegateMachine(v)
    case Identity => Signed(Unsigned(v))
  }

  /** Whether the right side of an operator counts, given the left one's value */
  predicate Counts(op: BinaryOperator, v: Long) {
    match op
    case AndAlso => v != 0
    case OrElse => v == 0
    case _ => true
  }

  /** An operator's result, and the error of dividing by zero */
  function Combine(op: BinaryOperator, v: Long, w: Long, live: bool, st: State): (r: (Long, State)) {
    (Machine(op, v, w), if Divides(op) && w == 0 && live then st.Raise(DivisionByZero) else st)
  }

  function Run(e: Expr, live: bool, st: State, cx: Context): (r: (Long, State)) {
    match e
    case Leaf(a, _) => RunAtom(a, live, st, cx)
    case Postfix(name, up) =>
      var (v, s1) := ReadVariable(name, live, st);
      (v, StoreVariable(name, StepMachine(v, up), live, s1))
    case Prefix(name, up) =>
      var (v, s1) := ReadVariable(name, live, st);
      (StepMachine(v, up), StoreVariable(name, StepMachine(v, up), live, s1))
    case Unary(op, x) =>
      var (v, s1) := Run(x, live, st, cx);
      (RunUnary(op, v), s1)
    case Group(x) => Run(x, live, st, cx)
    case Binary(op, l, r) =>
      var (v, s1) := Run(l, live, st, cx);
      var (w, s2) := Run(r, live && Counts(op, v), s1, cx);
      Combine(op, v, w, live, s2)
    case Conditional(c, x, y) =>
      var (v, s1) := Run(c, live, st, cx);
      var (a, s2) := Run(x, live && v != 0, s1, cx);
      var (b, s3) := Run(y, live && v == 0, s2, cx);
      (if v != 0 then a else b, s3)
    case Assign(name, x) =>
      var (w, s1) := Run(x, live, st, cx);
      (w, StoreVariable(name, w, live, s1))
    case Update(name, op, x) =>
      var (w, s1) := Run(x, live, st, cx);
      RunUpdate(name, op, w, live, s1)
    case Missing => (0, st.Raise(SyntaxError))
    case Unclosed(x) => (0, Run(x, live, st, cx).1.Raise(SyntaxError))
    case NoColon(c, x) =>
      var (v, s1) := Run(c, live, st, cx);
      (0, Run(x, live && v != 0, s1, cx).1.Raise(SyntaxError))
  }

  lemma RunBinary(op: BinaryOperator, l: Expr, r: Expr, live: bool, st: State, cx: Context)
    ensures var (v, s1) := Run(l, live, st, cx);
            var (w, s2) := Run(r, live && Counts(op, v), s1, cx);
            Run(Binary(op, l, r), live, st, cx) == Combine(op, v, w, live, s2)
  {
  }

  lemma RunBranches(c: Expr, x: Expr, y: Expr, live: bool, st: State, cx: Context)
    ensures var (v, s1) := Run(c, live, st, cx);
            var (a, s2) := Run(x, live && v != 0, s1, cx);
            var (b, s3) := Run(y, live && v == 0, s2, cx);
            && Run(Conditional(c, x, y), live, st, cx) == (if v != 0 then a else b, s3)
            && Run(NoColon(c, x), live, st, cx) == (0, s2.Raise(SyntaxError))
  {
  }

  /** NAME op= w: a division by zero stores nothing and is worth 0 */
  function RunUpdate(name: string, op: BinaryOperator, w: Long, live: bool, st: State): (r: (Long, State)) {
    var (v, s1) := ReadVariable(name, live, st);
    if Divides(op) && w == 0 then (0, if live then s1.Raise(DivisionByZero) else s1)
    else (Machine(op, v, w), StoreVariable(name, Machine(op, v, w), live, s1))
  }

  // ----- Evaluation -----

  datatype Outcome = Value(v: Long, vars: Vars) | Failed(error: Error, vars: Vars)

  function NumberIn(text: Option<string>, what: string, vars: Vars): Outcome {
    match text
    case None => Value(0, vars)
    case Some(s) => if NumberOf(s).Some? then Value(NumberOf(s).value, vars) else Failed(NotANumber(what), vars)
  }

  function Put(name: string, v: Long, result: Long, vars: Vars): Outcome {
    match vars.Set(name, Decimal(v))
    case Some(changed) => Value(result, changed)
    case None => Failed(CannotSet, vars)
  }

  function EvaluateUnary(op: UnaryOperator, v: Long): Long {
    match op
    case Not => Truth(v == 0)
    case Complement => -1 - v
    case Negate => Wrap(0 - v)
    case Identity => v
  }

  function EvaluateAtom(a: Atom, vars: Vars, cx: Context): Outcome {
    match a
    case Number(v) => Value(v, vars)
    case Status => Value(cx.status, vars)
    case Count => Value(|cx.arguments|, vars)
    case Argument(index) => NumberIn(ArgumentText(cx, index), "argument", vars)
    case Variable(name) => NumberIn(vars.Get(name), name, vars)
  }

  /** What a tree means: operands left to right, only the side taken of `&&`, `||`
      and `?:`, a value assigned after the right side is known, and nothing more
      after an error */
  function Evaluate(e: Expr, vars: Vars, cx: Context): Outcome
    requires Correct(e)
  {
    match e
    case Leaf(a, _) => EvaluateAtom(a, vars, cx)
    case Postfix(name, up) =>
      var read := NumberIn(vars.Get(name), name, vars);
      if read.Failed? then read else Put(name, Wrap(if up then read.v + 1 else read.v - 1), read.v, vars)
    case Prefix(name, up) =>
      var read := NumberIn(vars.Get(name), name, vars);
      if read.Failed? then read
      else
        var stepped := Wrap(if up then read.v + 1 else read.v - 1);
        Put(name, stepped, stepped, vars)
    case Unary(op, x) =>
      var r := Evaluate(x, vars, cx);
      if r.Failed? then r else Value(EvaluateUnary(op, r.v), r.vars)
    case Group(x) => Evaluate(x, vars, cx)
    case Binary(op, l, r) =>
      var a := Evaluate(l, vars, cx);
      if a.Failed? then a
      else if op == AndAlso && a.v == 0 then Value(0, a.vars)
      else if op == OrElse && a.v != 0 then Value(1, a.vars)
      else
        var b := Evaluate(r, a.vars, cx);
        if b.Failed? then b
        else if Divides(op) && b.v == 0 then Failed(DivisionByZero, b.vars)
        else Value(Meaning(op, a.v, b.v), b.vars)
    case Conditional(c, x, y) =>
      var test := Evaluate(c, vars, cx);
      if test.Failed? then test else Evaluate(if test.v != 0 then x else y, test.vars, cx)
    case Assign(name, x) =>
      var r := Evaluate(x, vars, cx);
      if r.Failed? then r else Put(name, r.v, r.v, r.vars)
    case Update(name, op, x) =>
      var b := Evaluate(x, vars, cx);
      if b.Failed? then b
      else
        var a := NumberIn(b.vars.Get(name), name, b.vars);
        if a.Failed? then a
        else if Divides(op) && b.v == 0 then Failed(DivisionByZero, b.vars)
        else Put(name, Meaning(op, a.v, b.v), Meaning(op, a.v, b.v), b.vars)
  }

  // ----- The side not taken, and the rest after an error -----

  /** With `live` false nothing is changed and no value error is raised; a
      syntax error is noted whatever the values are */
  lemma {:induction false} DeadSideHasNoEffect(e: Expr, st: State, cx: Context)
    ensures Run(e, false, st, cx).1 == if Correct(e) then st else st.Raise(SyntaxError)
  {
    match e
    case Unary(_, x) => DeadSideHasNoEffect(x, st, cx);
    case Group(x) => DeadSideHasNoEffect(x, st, cx);
    case Unclosed(x) => DeadSideHasNoEffect(x, st, cx);
    case Assign(_, x) => DeadSideHasNoEffect(x, st, cx);
    case Update(_, _, x) => DeadSideHasNoEffect(x, st, cx);
    case Binary(_, l, r) =>
      DeadSideHasNoEffect(l, st, cx);
      DeadSideHasNoEffect(r, Run(l, false, st, cx).1, cx);
    case NoColon(c, x) =>
      DeadSideHasNoEffect(c, st, cx);
      DeadSideHasNoEffect(x, Run(c, false, st, cx).1, cx);
    case Conditional(c, x, y) =>
      DeadSideHasNoEffect(c, st, cx);
      DeadSideHasNoEffect(x, Run(c, false, st, cx).1, cx);
      DeadSideHasNoEffect(y, Run(x, false, Run(c, false, st, cx).1, cx).1, cx);
    case _ =>
  }

  /** After the first error nothing is assigned, and the error stays */
  lemma {:induction false} NothingAfterAnError(e: Expr, live: bool, st: State, cx: Context)
    requires !st.error.NoError?
    ensures Run(e, live, st, cx).1 == st
  {
    match e
    case Unary(_, x) => NothingAfterAnError(x, live, st, cx);
    case Group(x) => NothingAfterAnError(x, live, st, cx);
    case Unclosed(x) => NothingAfterAnError(x, live, st, cx);
    case Assign(_, x) => NothingAfterAnError(x, live, st, cx);
    case Update(_, _, x) => NothingAfterAnError(x, live, st, cx);
    case Binary(op, l, r) =>
      NothingAfterAnError(l, live, st, cx);
      NothingAfterAnError(r, live && Counts(op, Run(l, live, st, cx).0), st, cx);
    case NoColon(c, x) =>
      NothingAfterAnError(c, live, st, cx);
      NothingAfterAnError(x, live && Run(c, live, st, cx).0 != 0, st, cx);
    case Conditional(c, x, y) =>
      var v := Run(c, live, st, cx).0;
      NothingAfterAnError(c, live, st, cx);
      NothingAfterAnError(x, live && v != 0, st, cx);
      NothingAfterAnError(y, live && v == 0, st, cx);
    case _ =>
  }

  // ----- One pass is evaluation -----

  /** The state one pass ends in, as an outcome */
  function Ended(r: (Long, State)): Outcome {
    if r.1.error.NoError? then Value(r.0, r.1.vars) else Failed(r.1.error, r.1.vars)
  }

  /** One pass over a correct tree ends exactly as its evaluation does: the same
      value and variables, or the same first error and the variables as they
      were when it was met */
  lemma {:induction false} RunIsEvaluate(e: Expr, vars: Vars, cx: Context)
    requires Correct(e)
    ensures Ended(Run(e, true, State(NoError, vars), cx)) == Evaluate(e, vars, cx)
    decreases e, 1
  {
    hide Machine, Meaning, StepMachine, Wrap, NumberOf, Decimal, RunUnary, EvaluateUnary;
    var st := State(NoError, vars);
    match e
    case Leaf(_, _) =>
    case Postfix(name, up) => StepMeaning(ReadVariable(name, true, st).0, up);
    case Prefix(name, up) => StepMeaning(ReadVariable(name, true, st).0, up);
    case Unary(op, x) =>
      RunIsEvaluate(x, vars, cx);
      UnaryMeaning(op, Run(x, true, st, cx).0);
    case Group(x) => RunIsEvaluate(x, vars, cx);
    case Binary(op, l, r) => BinaryIsEvaluate(op, l, r, vars, cx);
    case Conditional(c, x, y) => ConditionalIsEvaluate(c, x, y, vars, cx);
    case Assign(name, x) => RunIsEvaluate(x, vars, cx);
    case Update(name, op, x) =>
      RunIsEvaluate(x, vars, cx);
      UpdateIsEvaluate(name, op, Run(x, true, st, cx).0, Run(x, true, st, cx).1);
  }

  lemma UnaryMeaning(op: UnaryOperator, v: Long)
    ensures RunUnary(op, v) == EvaluateUnary(op, v)
  {
    match op
    case Complement => ComplementMeaning(v);
    case Negate => NegateMeaning(v);
    case _ =>
  }

  lemma ConditionalIsEvaluate(c: Expr, x: Expr, y: Expr, vars: Vars, cx: Context)
    requires Correct(c) && Correct(x) && Correct(y)
    ensures Ended(Run(Conditional(c, x, y), true, State(NoError, vars), cx))
         == Evaluate(Conditional(c, x, y), vars, cx)
    decreases Conditional(c, x, y), 0
  {
    hide Machine, Meaning, RunAtom, RunUpdate, RunUnary, StoreVariable, ReadVariable, EvaluateAtom, NumberIn, Put,
      EvaluateUnary, StepMachine, Wrap, Combine;
    RunIsEvaluate(c, vars, cx);
    var (v, s1) := Run(c, true, State(NoError, vars), cx);
    if !s1.error.NoError? {
      NothingAfterAnError(x, v != 0, s1, cx);
      NothingAfterAnError(y, v == 0, s1, cx);
    } else if v != 0 {
      RunIsEvaluate(x, s1.vars, cx);
      DeadSideHasNoEffect(y, Run(x, true, s1, cx).1, cx);
    } else {
      DeadSideHasNoEffect(x, s1, cx);
      RunIsEvaluate(y, s1.vars, cx);
    }
  }

  lemma ShortCircuitValue(op: BinaryOperator, v: Long, w: Long)
    requires !Counts(op, v)
    ensures op.AndAlso? || op.OrElse?
    ensures Machine(op, v, w) == if op.AndAlso? then 0 else 1
  {
  }

  lemma EvaluateBinary(op: BinaryOperator, l: Expr, r: Expr, vars: Vars, cx: Context)
    requires Correct(l) && Correct(r)
    ensures var a := Evaluate(l, vars, cx);
            var b := Evaluate(r, a.vars, cx);
            Evaluate(Binary(op, l, r), vars, cx) ==
            if a.Failed? then a
            else if !Counts(op, a.v) then Value(if op.AndAlso? then 0 else 1, a.vars)
            else if b.Failed? then b
            else if Divides(op) && b.v == 0 then Failed(DivisionByZero, b.vars)
            else Value(Meaning(op, a.v, b.v), b.vars)
  {
    hide Meaning;
  }

  lemma BinaryIsEvaluate(op: BinaryOperator, l: Expr, r: Expr, vars: Vars, cx: Context)
    requires Correct(l) && Correct(r)
    ensures Ended(Run(Binary(op, l, r), true, State(NoError, vars), cx)) == Evaluate(Binary(op, l, r), vars, cx)
    decreases Binary(op, l, r), 0
  {
    hide Machine, Meaning, Run, Evaluate;
    RunBinary(op, l, r, true, State(NoError, vars), cx);
    EvaluateBinary(op, l, r, vars, cx);
    RunIsEvaluate(l, vars, cx);
    var (v, s1) := Run(l, true, State(NoError, vars), cx);
    if !s1.error.NoError? {
      NothingAfterAnError(r, Counts(op, v), s1, cx);
    } else if !Counts(op, v) {
      DeadSideHasNoEffect(r, s1, cx);
      ShortCircuitValue(op, v, Run(r, false, s1, cx).0);
    } else {
      RunIsEvaluate(r, s1.vars, cx);
      var w := Run(r, true, s1, cx).0;
      if !(Divides(op) && w == 0) {
        MachineMeetsMeaning(op, v, w);
      }
    }
  }

  lemma UpdateIsEvaluate(name: string, op: BinaryOperator, w: Long, st: State)
    ensures Ended(RunUpdate(name, op, w, true, st))
         == if !st.error.NoError? then Failed(st.error, st.vars)
            else
              var a := NumberIn(st.vars.Get(name), name, st.vars);
              if a.Failed? then a
              else if Divides(op) && w == 0 then Failed(DivisionByZero, st.vars)
              else Put(name, Meaning(op, a.v, w), Meaning(op, a.v, w), st.vars)
  {
    var v := ReadVariable(name, true, st).0;
    if !(Divides(op) && w == 0) {
      MachineMeetsMeaning(op, v, w);
    }
  }

  /** A tree with a syntax error always ends in an error; one without never in a
      syntax error */
  lemma SyntaxErrorsAreReported(e: Expr, vars: Vars, cx: Context)
    ensures var error := Run(e, true, State(NoError, vars), cx).1.error;
            && (!Correct(e) ==> !error.NoError?)
            && (Correct(e) ==> !error.SyntaxError?)
  {
    ErrorKinds(e, true, State(NoError, vars), cx);
  }

  lemma {:induction false} ErrorKinds(e: Expr, live: bool, st: State, cx: Context)
    ensures var error := Run(e, live, st, cx).1.error;
            && (!st.error.NoError? ==> error == st.error)
            && (!Correct(e) ==> !error.NoError?)
            && (st.error.NoError? && Correct(e) ==> !error.SyntaxError?)
  {
    match e
    case Unary(_, x) => ErrorKinds(x, live, st, cx);
    case Group(x) => ErrorKinds(x, live, st, cx);
    case Unclosed(x) => ErrorKinds(x, live, st, cx);
    case Assign(_, x) => ErrorKinds(x, live, st, cx);
    case Update(_, _, x) => ErrorKinds(x, live, st, cx);
    case Binary(op, l, r) =>
      ErrorKinds(l, live, st, cx);
      var (v, s1) := Run(l, live, st, cx);
      ErrorKinds(r, live && Counts(op, v), s1, cx);
    case NoColon(c, x) =>
      ErrorKinds(c, live, st, cx);
      var (v, s1) := Run(c, live, st, cx);
      ErrorKinds(x, live && v != 0, s1, cx);
    case Conditional(c, x, y) =>
      ErrorKinds(c, live, st, cx);
      var (v, s1) := Run(c, live, st, cx);
      ErrorKinds(x, live && v != 0, s1, cx);
      ErrorKinds(y, live && v == 0, Run(x, live && v != 0, s1, cx).1, cx);
    case _ =>
  }
}
