/** The evaluator of `$((...))`: one pass over the text that parses and
    evaluates at once, with a cursor, the first error, and the shell's variables
    changed as it goes.

    Every method moves the cursor exactly over the tree that stands at it, and
    changes variables and error exactly as running that tree does; the
    measure (text left, grammar level) ends the recursion on every text. The
    ten left-to-right levels, from `*` to `||`, are one method with the level
    as a parameter.
 */
module ArithEvaluator {
  import opened Common
  import opened Machine64
  import opened ArithText
  import opened ArithSyntax
  import opened ArithSemantics
  import opened Variables

  class Evaluator {
    const text: string
    const cx: Context
    var p: nat
    var error: Error
    var vars: Vars

    constructor (text: string, cx: Context, vars: Vars)
      ensures this.text == text && this.cx == cx && this.vars == vars
      ensures p == 0 && error == NoError
    {
      this.text, this.cx, this.vars := text, cx, vars;
      p, error := 0, NoError;
    }

    function Src(): Source {
      Source(text, cx.status >= 0)
    }

    function St(): State
      reads this
    {
      State(error, vars)
    }

    /** From the old state, at the old cursor: the tree `parsed` was read and run */
    twostate predicate Ran(parsed: Parsed, live: bool, v: Long)
      reads this
    {
      p == parsed.next && (v, St()) == Run(parsed.e, live, old(St()), cx)
    }

    method Raise(e: Error)
      modifies `error
      ensures St() == old(St()).Raise(e)
    {
      if error.NoError? {
        error := e;
      }
    }

    method Blanks()
      requires p <= |text|
      modifies `p
      ensures p == Skip(text, old(p), true)
    {
      p := SkipMethod(text, p, true);
    }

    /** arith_variable */
    method VariableValue(t: Option<string>, what: string) returns (v: Long)
      modifies `error
      ensures (v, St()) == ReadText(t, what, old(St()))
    {
      if t.None? {
        return 0;
      }
      var number := ArithVariableText(t.value);
      if number.Some? {
        return number.value;
      }
      Raise(NotANumber(what));
      return 0;
    }

    method ValueOf(name: string, live: bool) returns (v: Long)
      modifies `error
      ensures (v, St()) == ReadVariable(name, live, old(St()))
    {
      v := 0;
      if live {
        v := VariableValue(vars.Get(name), name);
      }
    }

    /** arith_store */
    method StoreValue(name: string, v: Long, live: bool)
      modifies `error, `vars
      ensures St() == StoreVariable(name, v, live, old(St()))
    {
      if !live || !error.NoError? {
        return;
      }
      var digits, n := LongText(v);
      var changed := vars.Set(name, digits[..n]);
      if changed.None? {
        Raise(CannotSet);
      } else {
        vars := changed.value;
      }
    }

    method Primary(live: bool) returns (v: Long)
      requires p <= |text|
      modifies this
      ensures Ran(Src().ParsePrimary(old(p)), live, v)
      decreases |text| - p, 0
    {
      hide Source.UnaryHeadAt, Source.AssignHeadAt, Source.ParseBranches, Source.ParseUnary, Source.ParseOperand,
        Source.ParseBinary, Source.ParseRest, Source.ParseConditional, Source.ParseAssign, Source.ParseDollar,
        Source.StepName, Source.IndexFrom, Source.DollarName, Source.Close, Skip, Constant, NumberOf, Decimal, Machine,
        OperatorAt, OperatorText, AssignmentFrom, PeekName, NameEnd, IsName, RunUpdate, Combine, StoreVariable,
        ReadVariable;
      Blanks();
      var c := p;
      if At(text, c) == '(' {
        p := p + 1;
        v := AssignExpr(live);
        Blanks();
        if At(text, p) != ')' {
          Raise(SyntaxError);
          return 0;
        }
        p := p + 1;
        return;
      }
      if IsDigit(At(text, c)) {
        var constant := ArithConstant(text, c);
        if constant.None? {
          Raise(SyntaxError);
          return 0;
        }
        p := constant.value.1;
        return constant.value.0;
      }
      if At(text, c) == '$' {
        v := DollarValue(live);
      } else if IsNameChar(At(text, c)) {
        v := NameValue(live);
      } else {
        Raise(SyntaxError);
        v := 0;
      }
    }

    /** The end of the name at `c`, at most 31 characters of it */
    method NameAt(c: nat) returns (e: nat)
      requires c <= |text|
      ensures e == NameEnd(text, c, NAME_LIMIT)
    {
      e := c;
      var n := 0;
      while n < NAME_LIMIT && IsNameChar(At(text, e))
        invariant c <= e <= |text| && e == c + n && n <= NAME_LIMIT
        invariant NameEnd(text, e, NAME_LIMIT - n) == NameEnd(text, c, NAME_LIMIT)
      {
        e, n := e + 1, n + 1;
      }
    }

    /** A name, and `++` or `--` after it: the value before, the variable
        changed */
    method NameValue(live: bool) returns (v: Long)
      requires p < |text| && IsNameChar(text[p]) && !IsDigit(text[p])
      modifies this
      ensures Ran(Src().ParseName(old(p)), live, v)
    {
      var e := NameAt(p);
      var name := text[p..e];
      p := e;
      v := ValueOf(name, live);
      Blanks();
      var sign := At(text, p);
      if (sign == '+' || sign == '-') && At(text, p + 1) == sign {
        p := p + 2;
        StoreValue(name, Signed(AddUnsigned(Unsigned(v), if sign == '+' then 1 else TWO64 - 1)), live);
      }
    }

    /** The number after `${`: more digits while it is below 1000 */
    method IndexAt(c: nat, first: nat) returns (index: nat, e: nat)
      requires c <= |text|
      ensures (index, e) == Src().IndexFrom(c, first)
    {
      index, e := first, c;
      while IsDigit(At(text, e)) && index < 1000
        invariant c <= e <= |text|
        invariant Src().IndexFrom(e, index) == Src().IndexFrom(c, first)
        decreases |text| - e
      {
        index, e := index * 10 + HexValue(text[e]), e + 1;
      }
    }

    /** `$...` at the cursor: a value, whose name `++` does not apply to */
    method DollarValue(live: bool) returns (v: Long)
      requires p < |text| && text[p] == '$'
      modifies this
      ensures var dollar := Src().ParseDollar(old(p));
              && p == dollar.next
              && (v, St()) == RunDollar(dollar.atom, live, old(St()), cx)
    {
      hide Source.ParsePrimary, Source.ParseUnary, Source.ParseOperand, Source.ParseBinary, Source.ParseRest,
        Source.ParseConditional, Source.ParseAssign, Source.ParseName, Source.StepName, Source.IndexFrom,
        Source.DollarName, Skip, Constant, NumberOf, Decimal, Machine, OperatorAt, OperatorText, AssignmentFrom,
        PeekName, NameEnd, IsName, Combine, StoreVariable;
      var c := p + 1;
      var braced := At(text, c) == '{';
      if braced {
        c := c + 1;
      }
      if (At(text, c) == '?' && cx.status >= 0) || At(text, c) == '#' {
        v := if At(text, c) == '?' then cx.status else |cx.arguments|;
        c := c + 1;
        if braced && At(text, c) != '}' {
          Raise(SyntaxError);
          return 0;
        }
        p := if braced then c + 1 else c;
        return;
      }
      if IsDigit(At(text, c)) {
        v := ArgumentValue(c, braced, live);
        return;
      }
      v := DollarName(if At(text, c) == '?' then c + 1 else c, braced, live);
    }

    /** `$NAME` or `${NAME}`, the name at `s` */
    method DollarName(s: nat, braced: bool, live: bool) returns (v: Long)
      requires p < s <= |text|
      modifies this
      ensures var dollar := Src().DollarName(old(p), s, braced);
              && p == dollar.next
              && (v, St()) == RunDollar(dollar.atom, live, old(St()), cx)
    {
      var e := NameAt(s);
      var name := text[s..e];
      if e == s || (braced && At(text, e) != '}') {
        Raise(SyntaxError);
        return 0;
      }
      p := if braced then e + 1 else e;
      if !IsName(name) {
        Raise(SyntaxError);
        return 0;
      }
      v := ValueOf(name, live);
      Blanks();
    }

    /** `$1` .. `$9` and `${N}`, the digit at `c` */
    method ArgumentValue(c: nat, braced: bool, live: bool) returns (v: Long)
      requires p < c < |text| && IsDigit(text[c])
      modifies this
      ensures var (index, e) :=
              if braced then Src().IndexFrom(c + 1, HexValue(text[c])) else (HexValue(text[c]), c + 1);
              var dollar := Src().Close(old(p), braced, Argument(index), e);
              && p == dollar.next
              && (v, St()) == RunDollar(dollar.atom, live, old(St()), cx)
    {
      var index, e := HexValue(text[c]), c + 1;
      if braced {
        index, e := IndexAt(e, index);
        if At(text, e) != '}' {
          Raise(SyntaxError);
          return 0;
        }
        e := e + 1;
      }
      p := e;
      if index == 0 || !live {
        return 0;
      }
      v := VariableValue(if 1 <= index <= |cx.arguments| then Some(cx.arguments[index - 1]) else None, "argument");
    }

    /** `++` or `--` before the name of `n` characters at `after`: the variable
        changed, the value after */
    method StepBefore(after: nat, n: nat, up: bool, live: bool) returns (v: Long)
      requires after + n <= |text|
      modifies this
      ensures Ran(Parsed(Prefix(text[after..after + n], up), after + n), live, v)
    {
      hide ReadVariable, StoreVariable;
      var name := text[after..after + n];
      p := after + n;
      v := ValueOf(name, live);
      v := Signed(AddUnsigned(Unsigned(v), if up then 1 else TWO64 - 1));
      StoreValue(name, v, live);
    }

    /** The sign at the cursor, if there is one; the cursor past it */
    method TakeUnaryHead() returns (head: UnaryHead)
      requires p <= |text|
      modifies `p
      ensures head == Src().UnaryHeadAt(old(p))
      ensures !head.Step? ==> p == head.next
    {
      hide Skip, PeekName, IsName;
      Blanks();
      var op := At(text, p);
      if op == '!' && At(text, p + 1) != '=' {
        p := p + 1;
        return Sign(Not, p);
      }
      if op == '~' {
        p := p + 1;
        return Sign(Complement, p);
      }
      if (op == '+' || op == '-') && At(text, p + 1) == op {
        var after := SkipMethod(text, p + 2, false);
        var n := PeekName(text, after);
        if n > 0 {
          return Step(op == '+', after, n);
        }
      }
      if op == '-' || op == '+' {
        p := p + 1;
        return Sign(if op == '-' then Negate else Identity, p);
      }
      return NoSign(p);
    }

    method UnaryExpr(live: bool) returns (v: Long)
      requires p <= |text|
      modifies this
      ensures Ran(Src().ParseUnary(old(p)), live, v)
      decreases |text| - p, 1
    {
      hide Run, Source.UnaryHeadAt, Source.ParsePrimary;
      var head := TakeUnaryHead();
      match head
      case Sign(op, _) => v := UnaryOf(op, live);
      case Step(up, after, n) => v := StepBefore(after, n, up, live);
      case NoSign(_) => v := Primary(live);
    }

    /** What follows a `!`, `~`, `-` or `+` */
    method UnaryOf(op: UnaryOperator, live: bool) returns (v: Long)
      requires p <= |text|
      modifies this
      ensures var r := Src().ParseUnary(old(p));
              Ran(Parsed(Unary(op, r.e), r.next), live, v)
      decreases |text| - p, 2
    {
      hide Source.ParseUnary;
      v := UnaryExpr(live);
      match op
      case Not => v := if v == 0 then 1 else 0;
      case Complement => v := Signed(TWO64 - 1 - Unsigned(v));
      case Negate => v := Signed(SubtractUnsigned(0, Unsigned(v)));
      case Identity => v := Signed(Unsigned(v));
    }

    method OperandExpr(level: nat, live: bool) returns (v: Long)
      requires p <= |text| && level <= LOOSEST
      modifies this
      ensures Ran(Src().ParseOperand(level, old(p)), live, v)
      decreases |text| - p, 2 + 2 * level
    {
      if level == 0 {
        v := UnaryExpr(live);
      } else {
        v := BinaryExpr(level - 1, live);
      }
    }

    /** arith_mul .. arith_or: an operand, then as long as there is one the
        level's operator and the next operand */
    method BinaryExpr(level: nat, live: bool) returns (v: Long)
      requires p <= |text| && level <= LOOSEST
      modifies this
      ensures Ran(Src().ParseBinary(level, old(p)), live, v)
      decreases |text| - p, 3 + 2 * level
    {
      hide Source.ParseBinary, Source.ParseRest, Source.ParseOperand, Skip, OperatorAt, OperatorText, Run, Combine,
        Counts;
      Source.BinaryUnfolds(Src(), level, p);
      v := OperandExpr(level, live);
      ghost var e := Src().ParseOperand(level, old(p)).e;
      while true
        invariant old(p) <= p <= |text|
        invariant Src().ParseRest(level, e, p) == Src().ParseBinary(level, old(p))
        invariant (v, St()) == Run(e, live, old(St()), cx)
        decreases |text| - p
      {
        Source.RestUnfolds(Src(), level, e, p);
        Blanks();
        var op := OperatorAt(level, text, p);
        if op.None? {
          return;
        }
        p := p + |OperatorText(op.value)|;
        RunBinary(op.value, e, Src().ParseOperand(level, p).e, live, old(St()), cx);
        e := Binary(op.value, e, Src().ParseOperand(level, p).e);
        v := RightSide(level, op.value, v, live);
      }
    }

    /** The operand after an operator, and the operator's result */
    method RightSide(level: nat, op: BinaryOperator, left: Long, live: bool) returns (v: Long)
      requires p <= |text| && level <= LOOSEST
      modifies this
      ensures var operand := Src().ParseOperand(level, old(p));
              var (w, st) := Run(operand.e, live && Counts(op, left), old(St()), cx);
              p == operand.next && (v, St()) == Combine(op, left, w, live, st)
      decreases |text| - p, 3 + 2 * level
    {
      hide Source.ParseOperand, Run, Machine;
      var w := OperandExpr(level, live && Counts(op, left));
      if Divides(op) && w == 0 && live {
        Raise(DivisionByZero);
      }
      v := Machine(op, left, w);
    }

    method ConditionalExpr(live: bool) returns (v: Long)
      requires p <= |text|
      modifies this
      ensures Ran(Src().ParseConditional(old(p)), live, v)
      decreases |text| - p, 4 + 2 * LOOSEST
    {
      hide Run, Skip, Source.ParseBinary, Source.ParseBranches;
      ghost var cond := Src().ParseBinary(LOOSEST, p).e;
      v := BinaryExpr(LOOSEST, live);
      Blanks();
      if At(text, p) == '?' {
        p := p + 1;
        v := Branches(v, live, cond, old(St()));
      }
    }

    /** What follows `?`, the condition's value `c` known */
    method Branches(c: Long, live: bool, ghost cond: Expr, ghost st: State) returns (v: Long)
      requires p <= |text|
      requires (c, St()) == Run(cond, live, st, cx)
      modifies this
      ensures var parsed := Src().ParseBranches(cond, old(p));
              p == parsed.next && (v, St()) == Run(parsed.e, live, st, cx)
      decreases |text| - p, 6 + 2 * LOOSEST
    {
      hide Run, Skip, Source.ParseAssign, Source.ParseConditional;
      ghost var yes := Src().ParseAssign(p).e;
      var x := AssignExpr(live && c != 0);
      Blanks();
      if At(text, p) != ':' {
        RunBranches(cond, yes, Missing, live, st, cx);
        Raise(SyntaxError);
        return 0;
      }
      p := p + 1;
      RunBranches(cond, yes, Src().ParseConditional(p).e, live, st, cx);
      var y := ConditionalExpr(live && c == 0);
      return if c != 0 then x else y;
    }

    /** Which assignment operator stands at `q`: each is tried in turn */
    method AssignmentAt(q: nat) returns (r: Assignment)
      requires q <= |text|
      ensures r == AssignmentFrom(text, q, 0)
    {
      var i := 0;
      while i < |UPDATES|
        invariant i <= |UPDATES|
        invariant AssignmentFrom(text, q, i) == AssignmentFrom(text, q, 0)
      {
        if StartsWith(text, q, OperatorText(UPDATES[i]) + "=") {
          return UpdateBy(UPDATES[i]);
        }
        i := i + 1;
      }
      return if At(text, q) == '=' && At(text, q + 1) != '=' then Store else NoAssignment;
    }

    /** NAME and an assignment operator, if they stand at the cursor; the cursor
        past them */
    method TakeAssignHead() returns (head: AssignHead)
      requires p <= |text|
      modifies `p
      ensures head == Src().AssignHeadAt(old(p))
      ensures p == head.next
    {
      hide Skip, PeekName, IsName, AssignmentFrom, AssignmentLength;
      Blanks();
      var n := PeekName(text, p);
      if n > 0 {
        var name := text[p..p + n];
        var q := SkipMethod(text, p + n, false);
        var assignment := AssignmentAt(q);
        if !assignment.NoAssignment? {
          p := q + AssignmentLength(assignment);
          return Named(assignment, name, p);
        }
      }
      return NoName(p);
    }

    method AssignExpr(live: bool) returns (v: Long)
      requires p <= |text|
      modifies this
      ensures Ran(Src().ParseAssign(old(p)), live, v)
      decreases |text| - p, 5 + 2 * LOOSEST
    {
      hide Run, AssignmentNode, Source.AssignHeadAt, Source.ParseConditional;
      var head := TakeAssignHead();
      match head
      case Named(assignment, name, _) => v := AssignRight(name, assignment, live);
      case NoName(_) => v := ConditionalExpr(live);
    }

    /** What follows NAME and its assignment operator */
    method AssignRight(name: string, assignment: Assignment, live: bool) returns (v: Long)
      requires p <= |text| && !assignment.NoAssignment?
      modifies this
      ensures var r := Src().ParseAssign(old(p));
              Ran(Parsed(AssignmentNode(assignment, name, r.e), r.next), live, v)
      decreases |text| - p, 6 + 2 * LOOSEST
    {
      hide Source.ParseAssign, RunUpdate, StoreVariable, ReadVariable, RunAtom, Combine;
      var w := AssignExpr(live);
      if assignment.Store? {
        v := w;
        StoreValue(name, v, live);
      } else {
        v := UpdateValue(name, assignment.op, w, live);
      }
    }

    /** NAME op= w, the right side known */
    method UpdateValue(name: string, op: BinaryOperator, w: Long, live: bool) returns (v: Long)
      modifies `error, `vars
      ensures (v, St()) == RunUpdate(name, op, w, live, old(St()))
    {
      v := ValueOf(name, live);
      if Divides(op) && w == 0 {
        if live {
          Raise(DivisionByZero);
        }
        return 0;
      }
      v := Machine(op, v, w);
      StoreValue(name, v, live);
    }
  }
  /** arith_eval: the value of a whole text, with every assignment in it made.

      Without a syntax error the pass means what parsing to a tree and evaluating
      that tree means: it succeeds with the same value and variables, or fails
      with the variables as they were at the first error. With one it fails. */
  method ArithEval(text: string, cx: Context, vars: Vars) returns (ok: bool, value: Long, after: Vars)
    ensures var source := Source(text, cx.status >= 0);
            match source.Parse()
            case None => !ok && after == Run(source.ParseAssign(0).e, true, State(NoError, vars), cx).1.vars
            case Some(e) =>
              match Evaluate(e, vars, cx)
              case Value(v, changed) => ok && value == v && after == changed
              case Failed(_, changed) => !ok && after == changed
  {
    hide Run, Evaluate, Source.ParseAssign;
    var a := new Evaluator(text, cx, vars);
    value := a.AssignExpr(true);
    a.Blanks();
    ghost var tree := a.Src().ParseAssign(0).e;
    SyntaxErrorsAreReported(tree, vars, cx);
    if Correct(tree) {
      RunIsEvaluate(tree, vars, cx);
    }
    if At(text, a.p) != NUL {
      a.Raise(SyntaxError);
    }
    ok, after := a.error.NoError?, a.vars;
  }
}
