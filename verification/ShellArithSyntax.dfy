/** The trees of `$((...))`, and the tree every text stands for.

    Parsing never gives up: a syntax error is a node of the tree
    (`Missing`, `Unclosed`, `NoColon`), because the evaluator too goes on after
    it has noted one.
 */
module ArithSyntax {
  import opened Common
  import opened Machine64
  import opened ArithText

  datatype Atom =
    | Number(v: Long)
    | Status
    | Count
    | Argument(index: nat)
    | Variable(name: string)

  datatype UnaryOperator = Not | Complement | Negate | Identity

  datatype Expr =
    | Leaf(atom: Atom, lexeme: string)
    | Postfix(name: string, up: bool)
    | Prefix(name: string, up: bool)
    | Unary(unary: UnaryOperator, operand: Expr)
    | Group(inner: Expr)
    | Binary(op: BinaryOperator, left: Expr, right: Expr)
    | Conditional(cond: Expr, yes: Expr, no: Expr)
    | Assign(name: string, value: Expr)
    | Update(name: string, op: BinaryOperator, value: Expr)
    | Missing
    | Unclosed(inner: Expr)
    | NoColon(cond: Expr, yes: Expr)

  /** Whether a tree holds no syntax error */
  predicate Correct(e: Expr) {
    match e
    case Leaf(_, _) => true
    case Postfix(_, _) => true
    case Prefix(_, _) => true
    case Unary(_, x) => Correct(x)
    case Group(x) => Correct(x)
    case Binary(_, l, r) => Correct(l) && Correct(r)
    case Conditional(c, x, y) => Correct(c) && Correct(x) && Correct(y)
    case Assign(_, x) => Correct(x)
    case Update(_, _, x) => Correct(x)
    case _ => false
  }

  // ----- Operators -----

  /** How tightly an operator binds: 0 for `*`, 9 for `||` */
  function Level(op: BinaryOperator): (level: nat)
    ensures level <= LOOSEST
  {
    match op
    case Times => 0
    case Divide => 0
    case Remainder => 0
    case Plus => 1
    case Minus => 1
    case ShiftLeft => 2
    case ShiftRight => 2
    case Less => 3
    case LessEqual => 3
    case Greater => 3
    case GreaterEqual => 3
    case Equal => 4
    case NotEqual => 4
    case Bits(And) => 5
    case Bits(Xor) => 6
    case Bits(Or) => 7
    case AndAlso => 8
    case OrElse => 9
  }

  const LOOSEST: nat := 9

  function OperatorText(op: BinaryOperator): (s: string)
    ensures 1 <= |s| <= 2
  {
    match op
    case Times => "*"
    case Divide => "/"
    case Remainder => "%"
    case Plus => "+"
    case Minus => "-"
    case ShiftLeft => "<<"
    case ShiftRight => ">>"
    case Less => "<"
    case LessEqual => "<="
    case Greater => ">"
    case GreaterEqual => ">="
    case Equal => "=="
    case NotEqual => "!="
    case Bits(And) => "&"
    case Bits(Xor) => "^"
    case Bits(Or) => "|"
    case AndAlso => "&&"
    case OrElse => "||"
  }

  /** The operator of a level at `q`, as that level's loop tests for it: what
      follows decides between `<`, `<<` and `<<=`, `&`, `&&` and `&=` */
  function OperatorAt(level: nat, t: string, q: nat): (r: Option<BinaryOperator>)
    requires level <= LOOSEST && q <= |t|
    ensures r.Some? ==> Level(r.value) == level
    ensures r.Some? ==> q + |OperatorText(r.value)| <= |t| && t[q..q + |OperatorText(r.value)|] == OperatorText(r.value)
  {
    var c, d := At(t, q), At(t, q + 1);
    match level
    case 0 =>
      if d == '=' then None
      else if c == '*' then Some(Times) else if c == '/' then Some(Divide)
      else if c == '%' then Some(Remainder) else None
    case 1 =>
      if d == '=' then None
      else if c == '+' then Some(Plus) else if c == '-' then Some(Minus) else None
    case 2 =>
      if d != c || At(t, q + 2) == '=' then None
      else if c == '<' then Some(ShiftLeft) else if c == '>' then Some(ShiftRight) else None
    case 3 =>
      if d == c then None
      else if c == '<' then Some(if d == '=' then LessEqual else Less)
      else if c == '>' then Some(if d == '=' then GreaterEqual else Greater) else None
    case 4 =>
      if d != '=' then None
      else if c == '=' then Some(Equal) else if c == '!' then Some(NotEqual) else None
    case 5 => if c == '&' && d != '&' && d != '=' then Some(Bits(And)) else None
    case 6 => if c == '^' && d != '=' then Some(Bits(Xor)) else None
    case 7 => if c == '|' && d != '|' && d != '=' then Some(Bits(Or)) else None
    case 8 => if c == '&' && d == '&' then Some(AndAlso) else None
    case _ => if c == '|' && d == '|' then Some(OrElse) else None
  }

  /** The assignments, in the order they are tried; "=" is tried last */
  const UPDATES: seq<BinaryOperator> :=
    [ShiftLeft, ShiftRight, Times, Divide, Remainder, Plus, Minus, Bits(And), Bits(Xor), Bits(Or)]

  predicate StartsWith(t: string, q: nat, s: string)
    requires q <= |t|
  {
    q + |s| <= |t| && t[q..q + |s|] == s
  }

  datatype Assignment = NoAssignment | Store | UpdateBy(op: BinaryOperator)

  function AssignmentLength(a: Assignment): (n: nat)
    requires !a.NoAssignment?
    ensures n > 0
  {
    match a
    case Store => 1
    case UpdateBy(op) => |OperatorText(op)| + 1
  }

  function AssignmentNode(a: Assignment, name: string, value: Expr): Expr
    requires !a.NoAssignment?
  {
    match a
    case Store => Assign(name, value)
    case UpdateBy(op) => Update(name, op, value)
  }

  function AssignmentFrom(t: string, q: nat, i: nat): (r: Assignment)
    requires q <= |t| && i <= |UPDATES|
    ensures !r.NoAssignment? ==> q + AssignmentLength(r) <= |t|
    ensures r.UpdateBy? ==> t[q..q + AssignmentLength(r)] == OperatorText(r.op) + "="
    ensures r.Store? ==> t[q] == '='
    decreases |UPDATES| - i
  {
    if i == |UPDATES| then if At(t, q) == '=' && At(t, q + 1) != '=' then Store else NoAssignment
    else if StartsWith(t, q, OperatorText(UPDATES[i]) + "=") then UpdateBy(UPDATES[i])
    else AssignmentFrom(t, q, i + 1)
  }

  // ----- Parsing -----

  datatype Parsed = Parsed(e: Expr, next: nat)

  datatype UnaryHead = Sign(op: UnaryOperator, next: nat) | Step(up: bool, after: nat, n: nat) | NoSign(next: nat)

  datatype AssignHead = Named(assignment: Assignment, name: string, next: nat) | NoName(next: nat)

  /** A `$...`: what it is, where it ends, and where the parser goes on */
  datatype Dollar = Dollar(atom: Option<Atom>, end: nat, next: nat)

  /** A text, and whether `$?` has a value to show (a negative status does
      not: the evaluator then looks for a name after the '?') */
  datatype Source = Source(text: string, hasStatus: bool) {

    /** `1000` and above are not told apart from the digits that follow */
    function IndexFrom(i: nat, index: nat): (r: (nat, nat))
      requires i <= |text|
      ensures i <= r.1 <= |text|
      decreases |text| - i
    {
      if IsDigit(At(text, i)) && index < 1000 then IndexFrom(i + 1, index * 10 + HexValue(text[i])) else (index, i)
    }

    /** After `$` or `${`: the closing brace, if there was one to close */
    function Close(c: nat, braced: bool, atom: Atom, e: nat): (r: Dollar)
      requires c <= e <= |text|
      ensures c <= r.end == r.next <= |text|
    {
      if !braced then Dollar(Some(atom), e, e)
      else if At(text, e) == '}' then Dollar(Some(atom), e + 1, e + 1)
      else Dollar(None, c, c)
    }

    /** The rest of a `$NAME` or `${NAME}` that starts at `c`, the name at `s` */
    function DollarName(c: nat, s: nat, braced: bool): (r: Dollar)
      requires c < s <= |text|
      ensures c <= r.end <= r.next <= |text|
      ensures r.atom.Some? ==> c < r.end && r.next == if r.atom.value.Variable? then Skip(text, r.end, true) else r.end
    {
      var e := NameEnd(text, s, NAME_LIMIT);
      var closed := Close(c, braced, Variable(text[s..e]), e);
      if e == s then Dollar(None, c, c)
      else if closed.atom.None? then closed
      else if !IsName(text[s..e]) then Dollar(None, closed.end, closed.end)
      else Dollar(closed.atom, closed.end, Skip(text, closed.end, true))
    }

    /** `$?`, `$#`, `$1`, `${12}`, `$NAME` or `${NAME}` at `c` */
    function ParseDollar(c: nat): (r: Dollar)
      requires c < |text| && text[c] == '$'
      ensures c <= r.end <= r.next <= |text|
      ensures r.atom.Some? ==> c < r.end && r.next == if r.atom.value.Variable? then Skip(text, r.end, true) else r.end
    {
      var braced := At(text, c + 1) == '{';
      var b := if braced then c + 2 else c + 1;
      if At(text, b) == '?' && hasStatus then Close(c, braced, Status, b + 1)
      else if At(text, b) == '#' then Close(c, braced, Count, b + 1)
      else if IsDigit(At(text, b)) then
        var (index, e) := if braced then IndexFrom(b + 1, HexValue(text[b])) else (HexValue(text[b]), b + 1);
        Close(c, braced, Argument(index), e)
      else
        DollarName(c, if At(text, b) == '?' then b + 1 else b, braced)
    }

    function ParseName(c: nat): (r: Parsed)
      requires c < |text| && IsNameChar(text[c]) && !IsDigit(text[c])
      ensures c < r.next <= |text|
    {
      var e := NameEnd(text, c, NAME_LIMIT);
      var name := text[c..e];
      var q := Skip(text, e, true);
      var sign := At(text, q);
      if (sign == '+' || sign == '-') && At(text, q + 1) == sign then Parsed(Postfix(name, sign == '+'), q + 2)
      else Parsed(Leaf(Variable(name), name), q)
    }

    function ParsePrimary(p: nat): (r: Parsed)
      requires p <= |text|
      ensures p <= r.next <= |text|
      decreases |text| - p, 0
    {
      var c := Skip(text, p, true);
      if At(text, c) == '(' then
        var inner := ParseAssign(c + 1);
        var q := Skip(text, inner.next, true);
        if At(text, q) == ')' then Parsed(Group(inner.e), q + 1) else Parsed(Unclosed(inner.e), q)
      else if IsDigit(At(text, c)) then
        match Constant(text, c)
        case Some((v, e)) => Parsed(Leaf(Number(v), text[c..e]), e)
        case None => Parsed(Missing, c)
      else if At(text, c) == '$' then
        var dollar := ParseDollar(c);
        if dollar.atom.Some? then Parsed(Leaf(dollar.atom.value, text[c..dollar.end]), dollar.next)
        else Parsed(Missing, dollar.next)
      else if IsNameChar(At(text, c)) then ParseName(c)
      else Parsed(Missing, c)
    }

    /** What stands in front of an operand: a sign and where the operand starts, a
        step of the variable whose name of `n` characters is at `after`, or
        nothing */
    function UnaryHeadAt(p: nat): (r: UnaryHead)
      requires p <= |text|
      ensures r.Sign? ==> p < r.next <= |text|
      ensures r.Step? ==> p <= r.after + r.n <= |text|
      ensures r.NoSign? ==> p <= r.next <= |text|
    {
      var c := Skip(text, p, true);
      var op := At(text, c);
      if op == '!' && At(text, c + 1) != '=' then Sign(Not, c + 1)
      else if op == '~' then Sign(Complement, c + 1)
      else if op == '+' || op == '-' then
        if StepName(c) > 0 then Step(op == '+', Skip(text, c + 2, false), StepName(c))
        else Sign(if op == '-' then Negate else Identity, c + 1)
      else NoSign(c)
    }

    /** The length of the name that a `++` or `--` at `c` applies to, 0 if
        there is none */
    function StepName(c: nat): (n: nat)
      requires c < |text| && text[c] != NUL
      ensures n > 0 ==> c + 2 <= |text| && Skip(text, c + 2, false) + n <= |text|
    {
      if At(text, c + 1) == text[c] then PeekName(text, Skip(text, c + 2, false)) else 0
    }

    function ParseUnary(p: nat): (r: Parsed)
      requires p <= |text|
      ensures p <= r.next <= |text|
      decreases |text| - p, 1
    {
      match UnaryHeadAt(p)
      case Sign(op, next) =>
        var r := ParseUnary(next);
        Parsed(Unary(op, r.e), r.next)
      case Step(up, after, n) => Parsed(Prefix(text[after..after + n], up), after + n)
      case NoSign(c) => ParsePrimary(c)
    }

    function ParseOperand(level: nat, p: nat): (r: Parsed)
      requires p <= |text| && level <= LOOSEST
      ensures p <= r.next <= |text|
      decreases |text| - p, 2 + 2 * level
    {
      if level == 0 then ParseUnary(p) else ParseBinary(level - 1, p)
    }

    /** A left-to-right level: an operand, then operators with an operand each */
    function ParseBinary(level: nat, p: nat): (r: Parsed)
      requires p <= |text| && level <= LOOSEST
      ensures p <= r.next <= |text|
      decreases |text| - p, 3 + 2 * level
    {
      var operand := ParseOperand(level, p);
      ParseRest(level, operand.e, operand.next)
    }

    function ParseRest(level: nat, left: Expr, p: nat): (r: Parsed)
      requires p <= |text| && level <= LOOSEST
      ensures p <= r.next <= |text|
      decreases |text| - p, 0
    {
      var q := Skip(text, p, true);
      match OperatorAt(level, text, q)
      case None => Parsed(left, q)
      case Some(op) =>
        var operand := ParseOperand(level, q + |OperatorText(op)|);
        ParseRest(level, Binary(op, left, operand.e), operand.next)
    }

    static lemma BinaryUnfolds(src: Source, level: nat, p: nat)
      requires p <= |src.text| && level <= LOOSEST
      ensures var operand := src.ParseOperand(level, p);
              src.ParseBinary(level, p) == src.ParseRest(level, operand.e, operand.next)
    {
    }

    static lemma RestUnfolds(src: Source, level: nat, left: Expr, p: nat)
      requires p <= |src.text| && level <= LOOSEST
      ensures var q := Skip(src.text, p, true);
              match OperatorAt(level, src.text, q)
              case None => src.ParseRest(level, left, p) == Parsed(left, q)
              case Some(op) =>
                var operand := src.ParseOperand(level, q + |OperatorText(op)|);
                src.ParseRest(level, left, p) == src.ParseRest(level, Binary(op, left, operand.e), operand.next)
    {
    }

    function ParseConditional(p: nat): (r: Parsed)
      requires p <= |text|
      ensures p <= r.next <= |text|
      decreases |text| - p, 4 + 2 * LOOSEST
    {
      var c := ParseBinary(LOOSEST, p);
      var q := Skip(text, c.next, true);
      if At(text, q) == '?' then ParseBranches(c.e, q + 1) else Parsed(c.e, q)
    }

    /** What follows `cond ?` */
    function ParseBranches(cond: Expr, p: nat): (r: Parsed)
      requires p <= |text|
      ensures p <= r.next <= |text|
      decreases |text| - p, 6 + 2 * LOOSEST
    {
      var x := ParseAssign(p);
      var q := Skip(text, x.next, true);
      if At(text, q) != ':' then Parsed(NoColon(cond, x.e), q)
      else
        var y := ParseConditional(q + 1);
        Parsed(Conditional(cond, x.e, y.e), y.next)
    }

    /** A name with an assignment operator after it, and where the right side
        starts; or where a conditional starts */
    function AssignHeadAt(p: nat): (r: AssignHead)
      requires p <= |text|
      ensures p <= r.next <= |text|
      ensures r.Named? ==> p < r.next && !r.assignment.NoAssignment?
    {
      var c := Skip(text, p, true);
      var n := PeekName(text, c);
      if n == 0 then NoName(c)
      else
        var q := Skip(text, c + n, false);
        var assignment := AssignmentFrom(text, q, 0);
        if assignment.NoAssignment? then NoName(c)
        else Named(assignment, text[c..c + n], q + AssignmentLength(assignment))
    }

    function ParseAssign(p: nat): (r: Parsed)
      requires p <= |text|
      ensures p <= r.next <= |text|
      decreases |text| - p, 5 + 2 * LOOSEST
    {
      match AssignHeadAt(p)
      case NoName(c) => ParseConditional(c)
      case Named(assignment, name, next) =>
        var r := ParseAssign(next);
        Parsed(AssignmentNode(assignment, name, r.e), r.next)
    }

    /** The tree of a whole text; None if it has a syntax error */
    function Parse(): Option<Expr> {
      var r := ParseAssign(0);
      if Correct(r.e) && At(text, Skip(text, r.next, true)) == NUL then Some(r.e) else None
    }
  }
}
