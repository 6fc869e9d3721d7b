/** Every derivation of the grammar is what the parser reads from its own
    text: printing a tree with a blank after each token and parsing the
    result gives the tree back. Together with `ParseIsADerivation` this makes the
    parser the inverse of printing: precedence and associativity are C's, and
    no derivation is read as another.
 */
module ArithPrinting {
  import opened Common
  import opened Machine64
  import opened ArithText
  import opened ArithSyntax
  import opened ArithGrammar

  /** A tree as text, a blank after each token */
  function Print(e: Expr): (s: string)
    ensures Derivation(e, true) || Derivation(e, false) ==> s != ""
  {
    match e
    case Leaf(_, lexeme) => lexeme + " "
    case Postfix(name, up) => name + (StepText(up) + " ")
    case Prefix(name, up) => StepText(up) + (name + " ")
    case Unary(op, x) => (UnaryText(op) + " ") + Print(x)
    case Group(x) => "( " + (Print(x) + ") ")
    case Binary(op, l, r) => Print(l) + ((OperatorText(op) + " ") + Print(r))
    case Conditional(c, x, y) => Print(c) + ("? " + (Print(x) + (": " + Print(y))))
    case Assign(name, x) => name + (" " + ("=" + (" " + Print(x))))
    case Update(name, op, x) => name + (" " + ((OperatorText(op) + "=") + (" " + Print(x))))
    case _ => ""
  }

  /** `s` stands at `p` */
  predicate Stands(t: string, p: nat, s: string) {
    p + |s| <= |t| && t[p..p + |s|] == s
  }

  lemma StandsSplit(t: string, p: nat, a: string, b: string)
    requires Stands(t, p, a + b)
    ensures Stands(t, p, a) && Stands(t, p + |a|, b)
  {
    var s := t[p..p + |a + b|];
    assert s[..|a|] == a && s[|a|..] == b;
    assert t[p..p + |a|] == s[..|a|];
    assert t[p + |a|..p + |a| + |b|] == s[|a|..];
  }

  lemma StandsAt(t: string, p: nat, s: string, k: nat)
    requires Stands(t, p, s) && k < |s|
    ensures p + k < |t| && t[p + k] == s[k]
  {
    assert t[p..p + |s|][k] == t[p + k];
  }

  /** What may follow an expression that is an operand of level `level` or
      tighter: the end, a closing character, `?`, or an operator at least as loose
      with a blank after it */
  predicate Closes(t: string, q: nat) {
    q <= |t| && (q == |t| || t[q] == ')' || t[q] == ':')
  }

  ghost predicate Follows(t: string, q: nat, level: nat) {
    || Closes(t, q)
    || (q < |t| && t[q] == '?')
    || exists op :: Level(op) >= level && Stands(t, q, OperatorText(op) + " ")
  }

  lemma FollowsLooser(t: string, q: nat, level: nat, level': nat)
    requires Follows(t, q, level) && level' <= level
    ensures Follows(t, q, level')
  {
  }

  /** A printed operator is read at its own level and at no other */
  lemma OperatorRead(t: string, q: nat, op: BinaryOperator, level: nat)
    requires level <= LOOSEST && Stands(t, q, OperatorText(op) + " ")
    ensures OperatorAt(level, t, q) == if level == Level(op) then Some(op) else None
  {
    var s := OperatorText(op) + " ";
    StandsAt(t, q, s, 0);
    StandsAt(t, q, s, 1);
    if |s| == 3 {
      StandsAt(t, q, s, 2);
    }
  }

  lemma NothingFollows(t: string, q: nat, level: nat, l: nat)
    requires Follows(t, q, level) && l < level && l <= LOOSEST
    ensures OperatorAt(l, t, q).None?
  {
    if Closes(t, q) || t[q] == '?' {
      NoOperatorCloses(t, q, l);
    } else {
      var op :| Level(op) >= level && Stands(t, q, OperatorText(op) + " ");
      OperatorRead(t, q, op, l);
    }
  }

  lemma NoOperatorCloses(t: string, q: nat, l: nat)
    requires l <= LOOSEST && q <= |t| && (Closes(t, q) || t[q] == '?')
    ensures OperatorAt(l, t, q).None?
  {
  }

  // ----- Blanks and runs -----

  lemma SkipNothing(t: string, i: nat, newlines: bool)
    requires i <= |t| && !IsSkipped(At(t, i), true)
    ensures Skip(t, i, newlines) == i
  {
  }

  lemma SkipOne(t: string, i: nat, newlines: bool)
    requires i < |t| && t[i] == ' ' && !IsSkipped(At(t, i + 1), true)
    ensures Skip(t, i, newlines) == i + 1
  {
    SkipNothing(t, i + 1, newlines);
  }

  lemma {:induction false} NameRun(t: string, i: nat, e: nat, limit: nat)
    requires i <= e <= |t| && e - i <= limit && !IsNameChar(At(t, e))
    requires forall k | i <= k < e :: IsNameChar(t[k])
    ensures NameEnd(t, i, limit) == e
    decreases limit
  {
    if i < e {
      NameRun(t, i + 1, e, limit - 1);
    }
  }

  /** A variable's name and a character that is not part of it */
  lemma NameRead(t: string, i: nat, name: string)
    requires VariableName(name) && Stands(t, i, name) && !IsNameChar(At(t, i + |name|))
    ensures NameEnd(t, i, NAME_LIMIT) == i + |name|
    ensures PeekName(t, i) == |name|
    ensures i < |t| && IsNameChar(t[i]) && !IsDigit(t[i])
  {
    forall k | i <= k < i + |name|
      ensures t[k] == name[k - i]
    {
      StandsAt(t, i, name, k - i);
    }
    NameRun(t, i, i + |name|, NAME_LIMIT);
  }

  lemma {:induction false} HexStops(t: string, i: nat, e: nat)
    requires i <= e <= |t| && !IsHex(At(t, e))
    requires forall k | i <= k < e :: IsHex(t[k])
    ensures HexEnd(t, i) == e
    decreases e - i
  {
    if i < e {
      HexStops(t, i + 1, e);
    }
  }

  /** A constant with a blank after it is read as it is alone */
  lemma ConstantRead(t: string, p: nat, lexeme: string, v: Long)
    requires lexeme != "" && IsDigit(lexeme[0]) && Constant(lexeme, 0) == Some((v, |lexeme|))
    requires Stands(t, p, lexeme + " ")
    ensures Constant(t, p) == Some((v, p + |lexeme|))
  {
    hide HexEnd, DigitsValue, Signed;
    var e := p + |lexeme|;
    StandsSplit(t, p, lexeme, " ");
    StandsAt(t, p, lexeme + " ", |lexeme|);
    BaseRead(t, p, lexeme);
    var d := DigitsStart(lexeme, 0);
    assert HexEnd(lexeme, d) == |lexeme|;
    forall k | p + d <= k < e
      ensures IsHex(t[k])
    {
      StandsAt(t, p, lexeme, k - p);
      assert IsHex(lexeme[k - p]);
    }
    HexStops(t, p + d, e);
    assert t[p + d..e] == lexeme[d..|lexeme|];
  }

  lemma BaseRead(t: string, p: nat, lexeme: string)
    requires Stands(t, p, lexeme + " ") && lexeme != ""
    ensures BaseAt(t, p) == BaseAt(lexeme, 0)
    ensures BaseAt(lexeme, 0) == 16 ==> |lexeme| >= 2
  {
    StandsAt(t, p, lexeme + " ", 0);
    StandsAt(t, p, lexeme + " ", 1);
  }

  // ----- What follows -----

  /** What follows an expression is no blank, no part of a name and no `++` */
  lemma FollowChar(t: string, q: nat, level: nat)
    requires Follows(t, q, level)
    ensures q <= |t| && !IsSkipped(At(t, q), true) && !IsNameChar(At(t, q))
    ensures At(t, q) == '+' || At(t, q) == '-' ==> At(t, q + 1) != At(t, q)
  {
    if q < |t| && t[q] != ')' && t[q] != ':' && t[q] != '?' {
      var op :| Level(op) >= level && Stands(t, q, OperatorText(op) + " ");
      OperatorChars(t, q, op);
    }
  }

  /** And it is no assignment */
  lemma FollowIsNoAssignment(t: string, q: nat, level: nat)
    requires Follows(t, q, level)
    ensures q <= |t| && AssignmentFrom(t, q, 0).NoAssignment?
  {
    hide AssignmentFrom;
    if q < |t| && t[q] != ')' && t[q] != ':' && t[q] != '?' {
      var op :| Level(op) >= level && Stands(t, q, OperatorText(op) + " ");
      OperatorChars(t, q, op);
      NoUpdate(t, q, op, 0);
    } else {
      NoAssignmentByFirst(t, q, 0);
    }
  }

  lemma OperatorChars(t: string, q: nat, op: BinaryOperator)
    requires Stands(t, q, OperatorText(op) + " ")
    ensures q < |t| && !IsSkipped(At(t, q), true) && !IsNameChar(At(t, q))
    ensures At(t, q) == '+' || At(t, q) == '-' ==> At(t, q + 1) != At(t, q)
  {
    hide Stands;
    var s := OperatorText(op) + " ";
    StandsAt(t, q, s, 0);
    StandsAt(t, q, s, 1);
  }

  /** None of the updates stands where an operator and a blank do */
  lemma {:induction false} NoUpdate(t: string, q: nat, op: BinaryOperator, i: nat)
    requires Stands(t, q, OperatorText(op) + " ") && i <= |UPDATES|
    ensures AssignmentFrom(t, q, i).NoAssignment?
    decreases |UPDATES| - i
  {
    var s := OperatorText(op) + " ";
    StandsAt(t, q, s, 0);
    StandsAt(t, q, s, 1);
    if i < |UPDATES| {
      if StartsWith(t, q, OperatorText(UPDATES[i]) + "=") {
        UpdateIsNoOperator(t, q, op, UPDATES[i]);
      }
      NoUpdate(t, q, op, i + 1);
    }
  }

  lemma UpdateIsNoOperator(t: string, q: nat, op: BinaryOperator, update: BinaryOperator)
    requires Stands(t, q, OperatorText(op) + " ") && update in UPDATES
    ensures !Stands(t, q, OperatorText(update) + "=")
  {
    var s, u := OperatorText(op) + " ", OperatorText(update) + "=";
    if Stands(t, q, u) {
      StandsAt(t, q, s, 0);
      StandsAt(t, q, s, 1);
      StandsAt(t, q, u, 0);
      StandsAt(t, q, u, 1);
      if |s| == 3 {
        StandsAt(t, q, s, 2);
      }
      if |u| == 3 {
        StandsAt(t, q, u, 2);
      }
      assert false;
    }
  }

  lemma {:induction false} NoAssignmentByFirst(t: string, q: nat, i: nat)
    requires q <= |t| && At(t, q) !in ['<', '>', '*', '/', '%', '+', '-', '&', '^', '|', '='] && i <= |UPDATES|
    ensures AssignmentFrom(t, q, i).NoAssignment?
    decreases |UPDATES| - i
  {
    if i < |UPDATES| {
      if StartsWith(t, q, OperatorText(UPDATES[i]) + "=") {
        StandsAt(t, q, OperatorText(UPDATES[i]) + "=", 0);
        assert false;
      }
      NoAssignmentByFirst(t, q, i + 1);
    }
  }

  /** The updates are told apart by their text */
  lemma UpdateRead(t: string, q: nat, op: BinaryOperator)
    requires op in UPDATES && Stands(t, q, OperatorText(op) + "= ")
    ensures AssignmentFrom(t, q, 0) == UpdateBy(op)
  {
    var i :| 0 <= i < |UPDATES| && UPDATES[i] == op;
    UpdateFound(t, q, i, 0);
  }

  lemma {:induction false} UpdateFound(t: string, q: nat, i: nat, j: nat)
    requires j <= i < |UPDATES| && Stands(t, q, OperatorText(UPDATES[i]) + "= ")
    ensures AssignmentFrom(t, q, j) == UpdateBy(UPDATES[i])
    decreases i - j
  {
    hide OperatorText;
    var s := OperatorText(UPDATES[i]) + "=";
    assert OperatorText(UPDATES[i]) + "= " == s + " ";
    StandsSplit(t, q, s, " ");
    if j < i {
      UpdatesDiffer(t, q, i, j);
      UpdateFound(t, q, i, j + 1);
    }
  }

  lemma UpdatesDiffer(t: string, q: nat, i: nat, j: nat)
    requires j < i < |UPDATES| && Stands(t, q, OperatorText(UPDATES[i]) + "=")
    ensures !Stands(t, q, OperatorText(UPDATES[j]) + "=")
  {
    if Stands(t, q, OperatorText(UPDATES[j]) + "=") {
      StandsAt(t, q, OperatorText(UPDATES[i]) + "=", 0);
      StandsAt(t, q, OperatorText(UPDATES[j]) + "=", 0);
      assert false;
    }
  }

  lemma StoreRead(t: string, q: nat)
    requires Stands(t, q, "= ")
    ensures AssignmentFrom(t, q, 0) == Store
  {
    StandsAt(t, q, "= ", 0);
    StandsAt(t, q, "= ", 1);
    NoUpdateAtEquals(t, q, 0);
  }

  lemma {:induction false} NoUpdateAtEquals(t: string, q: nat, i: nat)
    requires q + 1 < |t| && t[q] == '=' && t[q + 1] == ' ' && i <= |UPDATES|
    ensures AssignmentFrom(t, q, i) == Store
    decreases |UPDATES| - i
  {
    if i < |UPDATES| {
      if StartsWith(t, q, OperatorText(UPDATES[i]) + "=") {
        StandsAt(t, q, OperatorText(UPDATES[i]) + "=", 0);
        assert false;
      }
      NoUpdateAtEquals(t, q, i + 1);
    }
  }

  // ----- Reading leaves back -----

  lemma {:induction false} IndexRun(src: Source, start: nat, i: nat, e: nat, index: nat)
    requires start < i <= e < |src.text| && !IsDigit(src.text[e])
    requires AllDigits(src.text[start..e]) && DecimalValue(src.text[start..e]) < 10000
    requires AllDigits(src.text[start..i]) && DecimalValue(src.text[start..i]) == index
    ensures src.IndexFrom(i, index) == (DecimalValue(src.text[start..e]), e)
    decreases e - i
  {
    var t := src.text;
    if i < e {
      assert t[start..e][i - start] == t[i];
      AllDigitsBelow10(t[start..e]);
      AllDigitsBelow10(t[start..i]);
      NextDigit(t, start, i, e, 10);
      IndexRun(src, start, i + 1, e, index * 10 + HexValue(t[i]));
    }
  }

  /** `lexeme` and a blank, starting with a `$` */
  lemma DollarRead(src: Source, p: nat, lexeme: string, a: Atom)
    requires Stands(src.text, p, lexeme + " ")
    requires Spells(lexeme, a, src.hasStatus) && lexeme[0] == '$'
    ensures p < |src.text| && src.text[p] == '$'
    ensures var dollar := src.ParseDollar(p);
            dollar.atom == Some(a) && dollar.end == p + |lexeme|
  {
    StandsAt(src.text, p, lexeme + " ", 0);
    match a
    case Number(_) =>
    case Status => DollarSpecialRead(src, p, lexeme, '?');
    case Count => DollarSpecialRead(src, p, lexeme, '#');
    case Argument(index) => DollarArgumentRead(src, p, lexeme, index);
    case Variable(name) =>
      assert lexeme != name;
      if Dollared(lexeme, name) {
        DollarVariableRead(src, p, lexeme, name);
      } else {
        DollarPassedRead(src, p, lexeme, name);
      }
  }

  lemma DollarSpecialRead(src: Source, p: nat, lexeme: string, c: char)
    requires c == '#' || (c == '?' && src.hasStatus)
    requires Stands(src.text, p, lexeme + " ") && Dollared(lexeme, [c])
    ensures p < |src.text| && src.text[p] == '$'
    ensures var dollar := src.ParseDollar(p);
            dollar.atom == Some(if c == '?' then Status else Count) && dollar.end == p + |lexeme|
  {
    hide Source.IndexFrom, Source.DollarName;
    StandsAt(src.text, p, lexeme + " ", 0);
    StandsAt(src.text, p, lexeme + " ", 1);
    if |lexeme| == 4 {
      StandsAt(src.text, p, lexeme + " ", 2);
      StandsAt(src.text, p, lexeme + " ", 3);
    }
  }

  lemma DollarArgumentRead(src: Source, p: nat, lexeme: string, index: nat)
    requires Stands(src.text, p, lexeme + " ") && SpellsArgument(lexeme, index)
    ensures p < |src.text| && src.text[p] == '$'
    ensures var dollar := src.ParseDollar(p);
            dollar.atom == Some(Argument(index)) && dollar.end == p + |lexeme|
  {
    hide Source.IndexFrom, Source.DollarName, DecimalValue;
    var t := src.text;
    StandsAt(t, p, lexeme + " ", 0);
    StandsAt(t, p, lexeme + " ", 1);
    if |lexeme| > 2 {
      var digits, e := lexeme[2..|lexeme| - 1], p + |lexeme| - 1;
      StandsAt(t, p, lexeme + " ", 2);
      StandsAt(t, p, lexeme + " ", |lexeme| - 1);
      StandsSplit(t, p, lexeme, " ");
      assert t[p + 2..e] == digits;
      OneDigit(t[p + 2..p + 3]);
      IndexRun(src, p + 2, p + 3, e, HexValue(t[p + 2]));
    }
  }

  lemma DollarVariableRead(src: Source, p: nat, lexeme: string, name: string)
    requires VariableName(name)
    requires Stands(src.text, p, lexeme + " ") && Dollared(lexeme, name)
    ensures p < |src.text| && src.text[p] == '$'
    ensures var dollar := src.ParseDollar(p);
            dollar.atom == Some(Variable(name)) && dollar.end == p + |lexeme|
  {
    hide Source.ParseDollar, IsName;
    StandsAt(src.text, p, lexeme + " ", 0);
    if lexeme == "$" + name {
      assert lexeme + " " == "$" + (name + " ");
      StandsSplit(src.text, p, "$", name + " ");
      DollarNameRead(src, p, name);
    } else {
      assert lexeme + " " == "${" + (name + "} ");
      StandsSplit(src.text, p, "${", name + "} ");
      BracedNameRead(src, p, name);
    }
  }

  /** A '?' before the name passed over */
  lemma DollarPassedRead(src: Source, p: nat, lexeme: string, name: string)
    requires !src.hasStatus && VariableName(name)
    requires Stands(src.text, p, lexeme + " ") && Dollared(lexeme, "?" + name)
    ensures p < |src.text| && src.text[p] == '$'
    ensures var dollar := src.ParseDollar(p);
            dollar.atom == Some(Variable(name)) && dollar.end == p + |lexeme|
  {
    hide Source.ParseDollar, IsName;
    StandsAt(src.text, p, lexeme + " ", 0);
    if lexeme == "$" + ("?" + name) {
      assert lexeme + " " == "$?" + (name + " ");
      StandsSplit(src.text, p, "$?", name + " ");
      PassedNameRead(src, p, name);
    } else {
      assert lexeme + " " == "${?" + (name + "} ");
      StandsSplit(src.text, p, "${?", name + "} ");
      BracedPassedRead(src, p, name);
    }
  }

  lemma PassedNameRead(src: Source, p: nat, name: string)
    requires !src.hasStatus && p < |src.text| && src.text[p] == '$' && VariableName(name)
    requires Stands(src.text, p, "$?") && Stands(src.text, p + 2, name + " ")
    ensures var dollar := src.ParseDollar(p);
            dollar.atom == Some(Variable(name)) && dollar.end == p + 2 + |name|
  {
    hide Source.IndexFrom, NameEnd, PeekName, Skip, IsName;
    StandsAt(src.text, p, "$?", 1);
    NameBefore(src.text, p + 2, name, " ");
  }

  lemma BracedPassedRead(src: Source, p: nat, name: string)
    requires !src.hasStatus && p < |src.text| && src.text[p] == '$' && VariableName(name)
    requires Stands(src.text, p, "${?") && Stands(src.text, p + 3, name + "} ")
    ensures var dollar := src.ParseDollar(p);
            dollar.atom == Some(Variable(name)) && dollar.end == p + 4 + |name|
  {
    hide Source.IndexFrom, NameEnd, PeekName, Skip, IsName;
    StandsAt(src.text, p, "${?", 1);
    StandsAt(src.text, p, "${?", 2);
    NameBefore(src.text, p + 3, name, "} ");
  }

  lemma DollarNameRead(src: Source, p: nat, name: string)
    requires p < |src.text| && src.text[p] == '$' && VariableName(name) && Stands(src.text, p + 1, name + " ")
    ensures var dollar := src.ParseDollar(p);
            dollar.atom == Some(Variable(name)) && dollar.end == p + 1 + |name|
  {
    hide Source.IndexFrom, NameEnd, PeekName, Skip, IsName;
    NameBefore(src.text, p + 1, name, " ");
  }

  lemma BracedNameRead(src: Source, p: nat, name: string)
    requires p < |src.text| && src.text[p] == '$' && VariableName(name)
    requires Stands(src.text, p, "${") && Stands(src.text, p + 2, name + "} ")
    ensures var dollar := src.ParseDollar(p);
            dollar.atom == Some(Variable(name)) && dollar.end == p + 3 + |name|
  {
    hide Source.IndexFrom, NameEnd, PeekName, Skip, IsName;
    StandsAt(src.text, p, "${", 1);
    NameBefore(src.text, p + 2, name, "} ");
  }

  /** A name and what stands after it */
  lemma NameBefore(t: string, i: nat, name: string, tail: string)
    requires VariableName(name) && tail != "" && !IsNameChar(tail[0]) && Stands(t, i, name + tail)
    ensures i + |name| < |t| && t[i..i + |name|] == name && t[i + |name|] == tail[0]
    ensures Stands(t, i + |name|, tail)
    ensures NameEnd(t, i, NAME_LIMIT) == i + |name|
    ensures PeekName(t, i) == |name|
    ensures IsNameChar(t[i]) && !IsDigit(t[i]) && !IsSkipped(t[i], true)
  {
    hide NameEnd, PeekName, IsName;
    StandsSplit(t, i, name, tail);
    StandsAt(t, i + |name|, tail, 0);
    NameRead(t, i, name);
  }

  // ----- Reading trees back -----

  /** `e` is printed at the first character from `p` on that is not a blank, up to
      `q` */
  predicate PrintedAt(t: string, p: nat, e: Expr, q: nat, hasStatus: bool) {
    && p <= |t|
    && Derivation(e, hasStatus)
    && Stands(t, Skip(t, p, true), Print(e))
    && q == Skip(t, p, true) + |Print(e)|
  }

  /** `r` is `e`, and after blanks the parser is at `q` */
  predicate Reads(t: string, r: Parsed, e: Expr, q: nat) {
    r.e == e && r.next <= |t| && Skip(t, r.next, true) == q
  }

  lemma {:induction false} PrintFirst(e: Expr, hasStatus: bool)
    requires Derivation(e, hasStatus)
    ensures !IsSkipped(Print(e)[0], true)
  {
    match e
    case Binary(_, l, _) => PrintFirst(l, hasStatus);
    case Conditional(c, _, _) => PrintFirst(c, hasStatus);
    case Leaf(a, lexeme) => LexemeFirst(lexeme, a, hasStatus);
    case _ =>
  }

  lemma LexemeFirst(lexeme: string, a: Atom, hasStatus: bool)
    requires Spells(lexeme, a, hasStatus)
    ensures lexeme != "" && (IsDigit(lexeme[0]) || lexeme[0] == '$' || IsNameChar(lexeme[0]))
    ensures a.Number? <==> IsDigit(lexeme[0])
    ensures lexeme[0] != '$' && !a.Number? ==> a == Variable(lexeme) && VariableName(lexeme)
  {
    hide Constant;
  }

  /** One blank before a printed tree */
  lemma PrintedAfterBlank(t: string, p: nat, e: Expr, hasStatus: bool)
    requires Derivation(e, hasStatus) && p < |t| && t[p] == ' ' && Stands(t, p + 1, Print(e))
    ensures PrintedAt(t, p, e, p + 1 + |Print(e)|, hasStatus)
  {
    PrintFirst(e, hasStatus);
    StandsAt(t, p + 1, Print(e), 0);
    SkipOne(t, p, true);
  }

  lemma LeafReads(src: Source, p: nat, a: Atom, lexeme: string, q: nat)
    requires PrintedAt(src.text, p, Leaf(a, lexeme), q, src.hasStatus) && Follows(src.text, q, 0)
    ensures Reads(src.text, src.ParsePrimary(p), Leaf(a, lexeme), q)
  {
    hide Constant, Source.ParseDollar, Source.ParseName, Skip, Spells, Follows;
    var t, c := src.text, Skip(src.text, p, true);
    var e := c + |lexeme|;
    LexemeFirst(lexeme, a, src.hasStatus);
    StandsAt(t, c, lexeme + " ", 0);
    StandsAt(t, c, lexeme + " ", |lexeme|);
    StandsSplit(t, c, lexeme, " ");
    FollowChar(t, q, 0);
    SkipOne(t, e, true);
    SkipNothing(t, q, true);
    assert t[c..e] == lexeme;
    if a.Number? {
      NumberReads(src, p, a, lexeme);
    } else if lexeme[0] == '$' {
      DollarRead(src, c, lexeme, a);
    } else {
      NameReads(src, c, lexeme, q);
    }
  }

  lemma NumberReads(src: Source, p: nat, a: Atom, lexeme: string)
    requires a.Number? && Spells(lexeme, a, src.hasStatus)
    requires p <= |src.text| && Stands(src.text, Skip(src.text, p, true), lexeme + " ")
    ensures src.ParsePrimary(p) == Parsed(Leaf(a, lexeme), Skip(src.text, p, true) + |lexeme|)
  {
    hide Constant, Skip;
    var c := Skip(src.text, p, true);
    ConstantRead(src.text, c, lexeme, a.v);
    StandsAt(src.text, c, lexeme + " ", 0);
    StandsSplit(src.text, c, lexeme, " ");
  }

  lemma NameReads(src: Source, c: nat, name: string, q: nat)
    requires VariableName(name) && Stands(src.text, c, name + " ") && q == c + |name| + 1
    requires Follows(src.text, q, 0)
    ensures c < |src.text| && IsNameChar(src.text[c]) && !IsDigit(src.text[c])
    ensures src.ParseName(c) == Parsed(Leaf(Variable(name), name), q)
  {
    hide NameEnd, PeekName, Skip, Follows, IsName, Stands;
    NameBefore(src.text, c, name, " ");
    FollowChar(src.text, q, 0);
    SkipOne(src.text, c + |name|, true);
  }

  lemma PostfixReads(src: Source, c: nat, name: string, up: bool)
    requires VariableName(name) && Stands(src.text, c, name + (StepText(up) + " "))
    ensures c < |src.text| && IsNameChar(src.text[c]) && !IsDigit(src.text[c])
    ensures src.ParseName(c) == Parsed(Postfix(name, up), c + |name| + 2)
    ensures src.text[c + |name| + 2] == ' '
  {
    hide NameEnd, PeekName, Skip, IsName, Stands;
    var t, e := src.text, c + |name|;
    NameBefore(t, c, name, StepText(up) + " ");
    StandsAt(t, e, StepText(up) + " ", 1);
    StandsAt(t, e, StepText(up) + " ", 2);
    SkipNothing(t, e, true);
  }

  lemma PrefixReads(src: Source, p: nat, name: string, up: bool)
    requires p <= |src.text| && VariableName(name)
    requires Stands(src.text, Skip(src.text, p, true), StepText(up) + (name + " "))
    ensures var after := Skip(src.text, p, true) + 2;
            && src.UnaryHeadAt(p) == Step(up, after, |name|)
            && after + |name| < |src.text| && src.text[after..after + |name|] == name && src.text[after + |name|] == ' '
  {
    hide NameEnd, PeekName, Skip, IsName, Stands;
    var t, c := src.text, Skip(src.text, p, true);
    StandsSplit(t, c, StepText(up), name + " ");
    StandsAt(t, c, StepText(up), 0);
    StandsAt(t, c, StepText(up), 1);
    NameBefore(t, c + 2, name, " ");
    SkipNothing(t, c + 2, false);
  }

  /** A sign and a blank are the head of a unary expression */
  lemma SignRead(src: Source, p: nat, op: UnaryOperator)
    requires p <= |src.text| && Stands(src.text, Skip(src.text, p, true), UnaryText(op) + " ")
    ensures src.UnaryHeadAt(p) == Sign(op, Skip(src.text, p, true) + 1)
  {
    hide Skip, PeekName;
    var c := Skip(src.text, p, true);
    StandsAt(src.text, c, UnaryText(op) + " ", 0);
    StandsAt(src.text, c, UnaryText(op) + " ", 1);
  }

  /** What starts a primary is no sign */
  lemma NoSignRead(src: Source, p: nat)
    requires p <= |src.text| && At(src.text, Skip(src.text, p, true)) !in ['!', '~', '+', '-']
    ensures src.UnaryHeadAt(p) == NoSign(Skip(src.text, p, true))
  {
  }

  // ----- A printed tree and its parts -----

  lemma GroupParts(t: string, p: nat, x: Expr, q: nat, hasStatus: bool)
    requires PrintedAt(t, p, Group(x), q, hasStatus)
    ensures var c := Skip(t, p, true);
            c < q - 1 < |t| && t[c] == '(' && PrintedAt(t, c + 1, x, q - 2, hasStatus) && t[q - 2] == ')'
              && t[q - 1] == ' '
  {
    hide Skip, Stands, Spells, Print, Derivation;
    var c := Skip(t, p, true);
    var tail := Print(x) + ") ";
    GroupApart(x, hasStatus);
    StandsSplit(t, c, "( ", tail);
    StandsAt(t, c, "( ", 0);
    StandsAt(t, c, "( ", 1);
    StandsSplit(t, c + 2, Print(x), ") ");
    StandsAt(t, q - 2, ") ", 0);
    StandsAt(t, q - 2, ") ", 1);
    PrintedAfterBlank(t, c + 1, x, hasStatus);
  }

  lemma GroupApart(x: Expr, hasStatus: bool)
    requires Derivation(Group(x), hasStatus)
    ensures Derivation(x, hasStatus) && Print(Group(x)) == "( " + (Print(x) + ") ")
  {
  }

  lemma BinaryApart(op: BinaryOperator, l: Expr, r: Expr, hasStatus: bool)
    requires Derivation(Binary(op, l, r), hasStatus)
    ensures Derivation(l, hasStatus) && Rank(l) <= 2 + Level(op)
    ensures Derivation(r, hasStatus) && Rank(r) <= 1 + Level(op)
    ensures Print(Binary(op, l, r)) == Print(l) + ((OperatorText(op) + " ") + Print(r))
  {
    hide OperatorText, Level;
  }

  lemma UnaryParts(t: string, p: nat, op: UnaryOperator, x: Expr, q: nat, hasStatus: bool)
    requires PrintedAt(t, p, Unary(op, x), q, hasStatus)
    ensures var c := Skip(t, p, true);
            c < |t| && Stands(t, c, UnaryText(op) + " ") && PrintedAt(t, c + 1, x, q, hasStatus) && Rank(x) <= 1
  {
    hide Skip, Stands;
    var c := Skip(t, p, true);
    StandsSplit(t, c, UnaryText(op) + " ", Print(x));
    StandsAt(t, c, UnaryText(op) + " ", 1);
    PrintedAfterBlank(t, c + 1, x, hasStatus);
  }

  lemma BinaryParts(t: string, p: nat, op: BinaryOperator, l: Expr, r: Expr, q: nat, hasStatus: bool) returns (q': nat)
    requires PrintedAt(t, p, Binary(op, l, r), q, hasStatus)
    ensures PrintedAt(t, p, l, q', hasStatus) && Rank(l) <= 2 + Level(op)
    ensures Stands(t, q', OperatorText(op) + " ")
    ensures PrintedAt(t, q' + |OperatorText(op)|, r, q, hasStatus) && Rank(r) <= 1 + Level(op)
  {
    hide Skip, Stands, OperatorText, Print, Derivation, Rank, Level;
    var c := Skip(t, p, true);
    BinaryApart(op, l, r, hasStatus);
    q' := c + |Print(l)|;
    var op' := OperatorText(op) + " ";
    StandsSplit(t, c, Print(l), op' + Print(r));
    StandsSplit(t, q', op', Print(r));
    StandsAt(t, q', op', |OperatorText(op)|);
    PrintedAfterBlank(t, q' + |OperatorText(op)|, r, hasStatus);
  }

  lemma ConditionalParts(t: string, p: nat, c: Expr, x: Expr, y: Expr, q: nat, hasStatus: bool)
    returns (q1: nat, q2: nat)
    requires PrintedAt(t, p, Conditional(c, x, y), q, hasStatus)
    ensures PrintedAt(t, p, c, q1, hasStatus) && Rank(c) <= 11
    ensures q1 < |t| && t[q1] == '?' && PrintedAt(t, q1 + 1, x, q2, hasStatus)
    ensures q2 < |t| && t[q2] == ':' && PrintedAt(t, q2 + 1, y, q, hasStatus) && Rank(y) <= 12
  {
    hide Skip, Stands, Print, IsName, Spells;
    var start := Skip(t, p, true);
    q1, q2 := ConditionalStands(t, start, c, x, y);
    BlankAfter(t, q1, '?', x, hasStatus);
    BlankAfter(t, q2, ':', y, hasStatus);
  }

  lemma ConditionalStands(t: string, start: nat, c: Expr, x: Expr, y: Expr) returns (q1: nat, q2: nat)
    requires Stands(t, start, Print(Conditional(c, x, y)))
    ensures q1 == start + |Print(c)| && q2 == q1 + 2 + |Print(x)|
    ensures start + |Print(Conditional(c, x, y))| == q2 + 2 + |Print(y)|
    ensures Stands(t, start, Print(c)) && Stands(t, q1, ['?'] + " ") && Stands(t, q1 + 2, Print(x))
    ensures Stands(t, q2, [':'] + " ") && Stands(t, q2 + 2, Print(y))
  {
    hide Stands, Print;
    PrintConditional(c, x, y, Print(Conditional(c, x, y)));
    q1, q2 := StandsInFive(t, start, Print(c), ['?'] + " ", Print(x), [':'] + " ", Print(y));
  }

  lemma PrintConditional(c: Expr, x: Expr, y: Expr, printed: string)
    requires printed == Print(Conditional(c, x, y))
    ensures printed == Print(c) + ((['?'] + " ") + (Print(x) + (([':'] + " ") + Print(y))))
    ensures |printed| == |Print(c)| + 2 + |Print(x)| + 2 + |Print(y)|
  {
    assert "? " == ['?'] + " " && ": " == [':'] + " ";
  }

  lemma StandsInFive(t: string, i: nat, a: string, b: string, c: string, d: string, e: string)
    returns (q1: nat, q2: nat)
    requires Stands(t, i, a + (b + (c + (d + e)))) && |b| == 2 == |d|
    ensures q1 == i + |a| && q2 == q1 + 2 + |c|
    ensures Stands(t, i, a) && Stands(t, q1, b) && Stands(t, q1 + 2, c) && Stands(t, q2, d) && Stands(t, q2 + 2, e)
  {
    hide Stands;
    q1 := i + |a|;
    q2 := q1 + 2 + |c|;
    StandsSplit(t, i, a, b + (c + (d + e)));
    StandsSplit(t, q1, b, c + (d + e));
    StandsSplit(t, q1 + 2, c, d + e);
    StandsSplit(t, q2, d, e);
  }

  lemma BlankAfter(t: string, i: nat, c: char, e: Expr, hasStatus: bool)
    requires Derivation(e, hasStatus) && Stands(t, i, [c] + " ") && Stands(t, i + 2, Print(e))
    ensures i < |t| && t[i] == c && PrintedAt(t, i + 1, e, i + 2 + |Print(e)|, hasStatus)
  {
    hide Skip, Stands, Derivation;
    StandsAt(t, i, [c] + " ", 0);
    StandsAt(t, i, [c] + " ", 1);
    PrintedAfterBlank(t, i + 1, e, hasStatus);
  }

  lemma {:induction false} PrimaryReads(src: Source, p: nat, e: Expr, q: nat)
    requires PrintedAt(src.text, p, e, q, src.hasStatus) && Follows(src.text, q, 0) && Rank(e) == 0
    ensures Reads(src.text, src.ParsePrimary(p), e, q)
    decreases e, 0
  {
    hide Follows, Source.ParsePrimary, Reads;
    match e
    case Leaf(a, lexeme) => LeafReads(src, p, a, lexeme, q);
    case Postfix(name, up) => PostfixPrimary(src, p, name, up, q);
    case Group(x) => GroupReads(src, p, x, q);
  }

  lemma PostfixPrimary(src: Source, p: nat, name: string, up: bool, q: nat)
    requires PrintedAt(src.text, p, Postfix(name, up), q, src.hasStatus) && Follows(src.text, q, 0)
    ensures Reads(src.text, src.ParsePrimary(p), Postfix(name, up), q)
  {
    hide Skip, Follows, Stands, Source.ParseName, Source.ParseAssign, Source.ParseDollar, Constant, IsName;
    PostfixReads(src, Skip(src.text, p, true), name, up);
    FollowChar(src.text, q, 0);
    SkipOne(src.text, q - 1, true);
  }

  lemma GroupPrimary(src: Source, p: nat)
    requires p <= |src.text| && At(src.text, Skip(src.text, p, true)) == '('
    ensures var inner := src.ParseAssign(Skip(src.text, p, true) + 1);
            var q := Skip(src.text, inner.next, true);
            At(src.text, q) == ')' ==> src.ParsePrimary(p) == Parsed(Group(inner.e), q + 1)
  {
    hide Skip, Source.ParseAssign;
  }

  lemma {:induction false} GroupReads(src: Source, p: nat, x: Expr, q: nat)
    requires PrintedAt(src.text, p, Group(x), q, src.hasStatus) && Follows(src.text, q, 0)
    ensures Reads(src.text, src.ParsePrimary(p), Group(x), q)
    decreases x, 9 + 2 * LOOSEST
  {
    hide Skip, Follows, Stands, Print, Derivation, Source.ParseAssign, Source.ParsePrimary;
    var t, c := src.text, Skip(src.text, p, true);
    GroupParts(t, p, x, q, src.hasStatus);
    GroupPrimary(src, p);
    AssignReads(src, c + 1, x, q - 2);
    SkipNothing(t, q - 2, true);
    FollowChar(t, q, 0);
    SkipOne(t, q - 1, true);
  }

  lemma {:induction false} UnaryReads(src: Source, p: nat, e: Expr, q: nat)
    requires PrintedAt(src.text, p, e, q, src.hasStatus) && Follows(src.text, q, 0) && Rank(e) <= 1
    ensures Reads(src.text, src.ParseUnary(p), e, q)
    decreases e, 2
  {
    hide Skip, Follows, Stands, Source.UnaryHeadAt, Source.ParsePrimary;
    match e
    case Unary(op, x) =>
      UnaryParts(src.text, p, op, x, q, src.hasStatus);
      SignRead(src, p, op);
      UnaryReads(src, Skip(src.text, p, true) + 1, x, q);
    case Prefix(name, up) => PrefixUnary(src, p, name, up, q);
    case Leaf(_, _) => PrimaryUnary(src, p, e, q);
    case Postfix(_, _) => PrimaryUnary(src, p, e, q);
    case Group(_) => PrimaryUnary(src, p, e, q);
  }

  lemma {:induction false} PrimaryUnary(src: Source, p: nat, e: Expr, q: nat)
    requires PrintedAt(src.text, p, e, q, src.hasStatus) && Follows(src.text, q, 0) && Rank(e) == 0
    ensures Reads(src.text, src.ParseUnary(p), e, q)
    decreases e, 1
  {
    hide Skip, Follows, PrintedAt, Source.UnaryHeadAt, Source.ParsePrimary;
    PrimaryFirst(src, p, e, q);
    PrimaryReads(src, p, e, q);
    PrimaryFrom(src, p);
  }

  lemma PrefixUnary(src: Source, p: nat, name: string, up: bool, q: nat)
    requires PrintedAt(src.text, p, Prefix(name, up), q, src.hasStatus) && Follows(src.text, q, 0)
    ensures Reads(src.text, src.ParseUnary(p), Prefix(name, up), q)
  {
    hide Skip, Follows, Stands, Source.UnaryHeadAt, Source.ParsePrimary, IsName, Spells;
    PrefixReads(src, p, name, up);
    FollowChar(src.text, q, 0);
    SkipOne(src.text, q - 1, true);
  }

  lemma PrimaryFirst(src: Source, p: nat, e: Expr, q: nat)
    requires PrintedAt(src.text, p, e, q, src.hasStatus) && Rank(e) == 0
    ensures src.UnaryHeadAt(p) == NoSign(Skip(src.text, p, true))
  {
    StandsAt(src.text, Skip(src.text, p, true), Print(e), 0);
    if e.Leaf? {
      LexemeFirst(e.lexeme, e.atom, src.hasStatus);
    }
    NoSignRead(src, p);
  }

  /** Blanks before a primary make no difference */
  lemma PrimaryFrom(src: Source, p: nat)
    requires p <= |src.text|
    ensures src.ParsePrimary(p) == src.ParsePrimary(Skip(src.text, p, true))
  {
    hide Source.ParseAssign, Source.ParseDollar, Source.ParseName, Constant;
    SkipNothing(src.text, Skip(src.text, p, true), true);
  }

  lemma RestFrom(src: Source, level: nat, left: Expr, p: nat, q: nat)
    requires level <= LOOSEST && p <= |src.text| && q == Skip(src.text, p, true)
    ensures src.ParseRest(level, left, p) == src.ParseRest(level, left, q)
  {
    hide Source.ParseOperand, OperatorAt;
    SkipNothing(src.text, q, true);
  }

  /** An operand of a level is read whole, and nothing after it */
  lemma {:induction false} OperandReads(src: Source, p: nat, e: Expr, q: nat, level: nat)
    requires level <= LOOSEST && PrintedAt(src.text, p, e, q, src.hasStatus) && Follows(src.text, q, level)
    requires Rank(e) <= 1 + level
    ensures Reads(src.text, src.ParseOperand(level, p), e, q)
    decreases e, 3 + 2 * level
  {
    hide Skip, Follows, PrintedAt, Source.ParseUnary, Source.ParseBinary;
    if level == 0 {
      UnaryReads(src, p, e, q);
    } else {
      FollowsLooser(src.text, q, level, level - 1);
      BinaryReads(src, p, e, q, level - 1);
      NothingFollows(src.text, q, level, level - 1);
      RestEnds(src, level - 1, e, q);
    }
  }

  lemma RestEnds(src: Source, level: nat, e: Expr, q: nat)
    requires level <= LOOSEST && q <= |src.text| && !IsSkipped(At(src.text, q), true)
    requires OperatorAt(level, src.text, q).None?
    ensures src.ParseRest(level, e, q) == Parsed(e, q)
    ensures Skip(src.text, q, true) == q
  {
    SkipNothing(src.text, q, true);
  }

  /** A tree of a level or tighter is read, and reading goes on after it */
  lemma {:induction false} BinaryReads(src: Source, p: nat, e: Expr, q: nat, level: nat)
    requires level <= LOOSEST && PrintedAt(src.text, p, e, q, src.hasStatus) && Follows(src.text, q, level)
    requires Rank(e) <= 2 + level
    ensures q <= |src.text| && !IsSkipped(At(src.text, q), true)
    ensures src.ParseBinary(level, p) == src.ParseRest(level, e, q)
    decreases e, 4 + 2 * level
  {
    hide Skip, Follows, PrintedAt, Source.ParseRest, Source.ParseOperand;
    FollowChar(src.text, q, level);
    if Rank(e) <= 1 + level {
      OperandReads(src, p, e, q, level);
      RestFrom(src, level, e, src.ParseOperand(level, p).next, q);
    } else {
      SameLevelReads(src, p, e.op, e.left, e.right, q);
    }
  }

  lemma {:induction false} SameLevelReads(src: Source, p: nat, op: BinaryOperator, l: Expr, r: Expr, q: nat)
    requires PrintedAt(src.text, p, Binary(op, l, r), q, src.hasStatus) && Follows(src.text, q, Level(op))
    ensures src.ParseBinary(Level(op), p) == src.ParseRest(Level(op), Binary(op, l, r), q)
    decreases Binary(op, l, r), 0
  {
    hide Skip, Follows, Stands, PrintedAt, Source.ParseBinary, Source.ParseRest, Source.ParseOperand, OperatorText,
      Level;
    var level := Level(op);
    var q' := BinaryParts(src.text, p, op, l, r, q, src.hasStatus);
    OperatorFollows(src.text, q', op);
    BinaryReads(src, p, l, q', level);
    OperandReads(src, q' + |OperatorText(op)|, r, q, level);
    RestStep(src, l, q', op, r, q);
  }

  lemma RestStep(src: Source, l: Expr, q': nat, op: BinaryOperator, r: Expr, q: nat)
    requires Stands(src.text, q', OperatorText(op) + " ") && q' <= |src.text| && !IsSkipped(At(src.text, q'), true)
    requires Reads(src.text, src.ParseOperand(Level(op), q' + |OperatorText(op)|), r, q)
    ensures src.ParseRest(Level(op), l, q') == src.ParseRest(Level(op), Binary(op, l, r), q)
  {
    hide Skip, OperatorAt, OperatorText, Level, Source.ParseOperand, Source.ParseRest, Stands;
    OperatorRead(src.text, q', op, Level(op));
    SkipNothing(src.text, q', true);
    RestMore(src, Level(op), l, q', op);
    RestFrom(src, Level(op), Binary(op, l, r), src.ParseOperand(Level(op), q' + |OperatorText(op)|).next, q);
  }

  lemma RestMore(src: Source, level: nat, l: Expr, q: nat, op: BinaryOperator)
    requires level <= LOOSEST && q <= |src.text| && Skip(src.text, q, true) == q
    requires OperatorAt(level, src.text, q) == Some(op)
    ensures var operand := src.ParseOperand(level, q + |OperatorText(op)|);
            src.ParseRest(level, l, q) == src.ParseRest(level, Binary(op, l, operand.e), operand.next)
  {
    hide Skip, OperatorAt, OperatorText, Source.ParseOperand;
  }

  lemma OperatorFollows(t: string, q: nat, op: BinaryOperator)
    requires Stands(t, q, OperatorText(op) + " ")
    ensures Follows(t, q, Level(op))
  {
  }

  /** The condition of a `?:`, or a whole conditional that is none */
  lemma ConditionReads(src: Source, p: nat, e: Expr, q: nat)
    requires PrintedAt(src.text, p, e, q, src.hasStatus) && Rank(e) <= 11
    requires Closes(src.text, q) || (q < |src.text| && src.text[q] == '?')
    ensures src.ParseBinary(LOOSEST, p) == Parsed(e, q) && Skip(src.text, q, true) == q
    decreases e, 5 + 2 * LOOSEST
  {
    hide Skip, PrintedAt, Source.ParseBinary, Source.ParseRest;
    BinaryReads(src, p, e, q, LOOSEST);
    NoOperatorCloses(src.text, q, LOOSEST);
    RestEnds(src, LOOSEST, e, q);
  }

  lemma {:induction false} ConditionalReads(src: Source, p: nat, e: Expr, q: nat)
    requires PrintedAt(src.text, p, e, q, src.hasStatus) && Rank(e) <= 12 && Closes(src.text, q)
    ensures src.ParseConditional(p) == Parsed(e, q)
    decreases e, 6 + 2 * LOOSEST
  {
    hide Skip, PrintedAt, Source.ParseBinary, Source.ParseBranches;
    if Rank(e) <= 11 {
      ConditionReads(src, p, e, q);
    } else {
      ConditionalShape(src.text, p, e, q, src.hasStatus);
      var q1, q2 := ConditionalParts(src.text, p, e.cond, e.yes, e.no, q, src.hasStatus);
      ConditionReads(src, p, e.cond, q1);
      BranchesRead(src, q1, q2, e.cond, e.yes, e.no, q);
    }
  }

  lemma ConditionalShape(t: string, p: nat, e: Expr, q: nat, hasStatus: bool)
    requires PrintedAt(t, p, e, q, hasStatus) && Rank(e) == 12
    ensures e.Conditional?
  {
  }

  lemma {:induction false} BranchesRead(src: Source, q1: nat, q2: nat, c: Expr, x: Expr, y: Expr, q: nat)
    requires Closes(src.text, q)
    requires q1 < |src.text| && PrintedAt(src.text, q1 + 1, x, q2, src.hasStatus)
    requires q2 < |src.text| && src.text[q2] == ':' && PrintedAt(src.text, q2 + 1, y, q, src.hasStatus) && Rank(y) <= 12
    ensures src.ParseBranches(c, q1 + 1) == Parsed(Conditional(c, x, y), q)
    decreases Conditional(c, x, y), 0
  {
    hide Skip, PrintedAt, Source.ParseAssign, Source.ParseConditional;
    AssignReads(src, q1 + 1, x, q2);
    SkipNothing(src.text, q2, true);
    ConditionalReads(src, q2 + 1, y, q);
  }

  lemma {:induction false} AssignReads(src: Source, p: nat, e: Expr, q: nat)
    requires PrintedAt(src.text, p, e, q, src.hasStatus) && Closes(src.text, q)
    ensures src.ParseAssign(p) == Parsed(e, q)
    decreases e, 8 + 2 * LOOSEST
  {
    hide Skip, Stands, Source.ParseAssign;
    if e.Assign? {
      NamedReads(src, p, e.name, Store, e.value, q);
    } else if e.Update? {
      NamedReads(src, p, e.name, UpdateBy(e.op), e.value, q);
    } else {
      PlainReads(src, p, e, q);
    }
  }

  lemma {:induction false} PlainReads(src: Source, p: nat, e: Expr, q: nat)
    requires PrintedAt(src.text, p, e, q, src.hasStatus) && Rank(e) <= 12 && Closes(src.text, q)
    ensures src.ParseAssign(p) == Parsed(e, q)
    decreases e, 7 + 2 * LOOSEST
  {
    hide Skip, Stands, Derivation, Source.AssignHeadAt, Source.ParseConditional;
    var t, c := src.text, Skip(src.text, p, true);
    HeadOf(t, c, e, q, src.hasStatus);
    NoHead(src, p);
    SkipNothing(t, c, true);
    ConditionalReads(src, c, e, q);
  }

  /** NAME, an assignment operator and the right side */
  lemma {:induction false} NamedReads(src: Source, p: nat, name: string, a: Assignment, x: Expr, q: nat)
    requires p <= |src.text| && VariableName(name) && Derivation(x, src.hasStatus) && Closes(src.text, q)
    requires !a.NoAssignment? && (a.UpdateBy? ==> a.op in UPDATES)
    requires var s := name + (" " + (AssignmentText(a) + (" " + Print(x))));
             Stands(src.text, Skip(src.text, p, true), s) && q == Skip(src.text, p, true) + |s|
    ensures src.ParseAssign(p) == Parsed(AssignmentNode(a, name, x), q)
    decreases x, 9 + 2 * LOOSEST
  {
    hide Skip, Stands, PrintedAt, IsName, AssignmentText, AssignmentNode, Source.AssignHeadAt;
    var next := NamedHead(src, p, name, a, x);
    AssignReads(src, next, x, q);
  }

  lemma NamedHead(src: Source, p: nat, name: string, a: Assignment, x: Expr) returns (next: nat)
    requires p <= |src.text| && VariableName(name) && Derivation(x, src.hasStatus)
    requires !a.NoAssignment? && (a.UpdateBy? ==> a.op in UPDATES)
    requires Stands(src.text, Skip(src.text, p, true), name + (" " + (AssignmentText(a) + (" " + Print(x)))))
    ensures src.AssignHeadAt(p) == Named(a, name, next)
    ensures PrintedAt(src.text, next, x, Skip(src.text, p, true) + |name| + 1 + |AssignmentText(a)| + 1 + |Print(x)|,
                      src.hasStatus)
  {
    hide Skip, Stands, Derivation, AssignmentFrom, PeekName, NameEnd, IsName, AssignmentText, AssignmentLength, Print;
    var t, c := src.text, Skip(src.text, p, true);
    var i := c + |name| + 1;
    var right := " " + Print(x);
    NamedAt(t, c, name, a, right);
    next := i + |AssignmentText(a)|;
    RightPrinted(t, i, AssignmentText(a), x, src.hasStatus);
  }

  /** A name, a blank, an assignment operator */
  lemma NamedAt(t: string, c: nat, name: string, a: Assignment, right: string)
    requires VariableName(name) && !a.NoAssignment? && (a.UpdateBy? ==> a.op in UPDATES)
    requires right != "" && right[0] == ' ' && Stands(t, c, name + (" " + (AssignmentText(a) + right)))
    ensures var i := c + |name| + 1;
            && i <= |t| && PeekName(t, c) == |name| && t[c..c + |name|] == name
            && Skip(t, c + |name|, false) == i
            && AssignmentFrom(t, i, 0) == a && AssignmentLength(a) == |AssignmentText(a)|
            && Stands(t, i, AssignmentText(a) + right)
  {
    hide Skip, Stands, AssignmentFrom, PeekName, NameEnd, IsName, AssignmentText, AssignmentLength;
    var middle := AssignmentText(a) + right;
    NameBefore(t, c, name, " " + middle);
    StandsSplit(t, c + |name|, " ", middle);
    AssignmentRead(t, c + |name| + 1, a, right);
    SkipOne(t, c + |name|, false);
  }

  lemma RightPrinted(t: string, i: nat, middle: string, x: Expr, hasStatus: bool)
    requires Derivation(x, hasStatus) && Stands(t, i, middle + (" " + Print(x)))
    ensures PrintedAt(t, i + |middle|, x, i + |middle| + 1 + |Print(x)|, hasStatus)
  {
    hide Skip, Stands, Derivation;
    StandsSplit(t, i, middle, " " + Print(x));
    StandsAt(t, i + |middle|, " " + Print(x), 0);
    StandsSplit(t, i + |middle|, " ", Print(x));
    PrintedAfterBlank(t, i + |middle|, x, hasStatus);
  }

  lemma AssignmentRead(t: string, q: nat, a: Assignment, right: string)
    requires !a.NoAssignment? && (a.UpdateBy? ==> a.op in UPDATES)
    requires right != "" && right[0] == ' ' && Stands(t, q, AssignmentText(a) + right)
    ensures AssignmentFrom(t, q, 0) == a && AssignmentLength(a) == |AssignmentText(a)|
    ensures q < |t| && !IsSkipped(t[q], true)
  {
    hide AssignmentFrom;
    assert right == " " + right[1..];
    var s := AssignmentText(a) + " ";
    assert AssignmentText(a) + right == s + right[1..];
    StandsSplit(t, q, s, right[1..]);
    StandsAt(t, q, s, 0);
    match a
    case Store =>
      assert s == "= ";
      StoreRead(t, q);
    case UpdateBy(op) =>
      assert s == OperatorText(op) + "= ";
      UpdateRead(t, q, op);
      OperatorSolid(op);
  }

  /** No assignment starts at `c` */
  predicate Headless(t: string, c: nat)
    requires c <= |t|
  {
    var n := PeekName(t, c);
    n == 0 || AssignmentFrom(t, Skip(t, c + n, false), 0).NoAssignment?
  }

  lemma NoHead(src: Source, p: nat)
    requires p <= |src.text| && Headless(src.text, Skip(src.text, p, true))
    ensures src.AssignHeadAt(p) == NoName(Skip(src.text, p, true))
  {
    hide Skip, PeekName, AssignmentFrom, AssignmentLength, IsName;
  }

  /** A conditional does not start like an assignment: what follows its first
      name, if it starts with one, is no assignment operator */
  lemma {:induction false} HeadOf(t: string, c: nat, e: Expr, q: nat, hasStatus: bool)
    requires Derivation(e, hasStatus) && Rank(e) <= 12 && Stands(t, c, Print(e)) && q == c + |Print(e)|
    requires Follows(t, q, 0)
    ensures c <= |t| && Headless(t, c)
    decreases e
  {
    hide Skip, Stands, Follows, PeekName, AssignmentFrom, IsName, Spells;
    match e
    case Leaf(a, lexeme) => LeafHead(t, c, a, lexeme, q, hasStatus);
    case Postfix(name, up) =>
      PostfixHead(t, c, name, up);
    case Binary(op, l, r) =>
      var q', rest := c + |Print(l)|, (OperatorText(op) + " ") + Print(r);
      StandsSplit(t, c, Print(l), rest);
      StandsSplit(t, q', OperatorText(op) + " ", Print(r));
      OperatorFollows(t, q', op);
      FollowsLooser(t, q', Level(op), 0);
      HeadOf(t, c, l, q', hasStatus);
    case Conditional(cond, x, y) =>
      var q', rest := c + |Print(cond)|, "? " + (Print(x) + (": " + Print(y)));
      StandsSplit(t, c, Print(cond), rest);
      StandsAt(t, q', rest, 0);
      QuestionFollows(t, q');
      HeadOf(t, c, cond, q', hasStatus);
    case Unary(_, _) => SignHead(t, c, e);
    case Prefix(_, _) => SignHead(t, c, e);
    case Group(_) => SignHead(t, c, e);
  }

  lemma QuestionFollows(t: string, q: nat)
    requires q < |t| && t[q] == '?'
    ensures Follows(t, q, 0)
  {
  }

  lemma SignHead(t: string, c: nat, e: Expr)
    requires e.Unary? || e.Prefix? || e.Group?
    requires Stands(t, c, Print(e))
    ensures c <= |t| && Headless(t, c)
  {
    StandsAt(t, c, Print(e), 0);
  }

  lemma LeafHead(t: string, c: nat, a: Atom, lexeme: string, q: nat, hasStatus: bool)
    requires Spells(lexeme, a, hasStatus) && Stands(t, c, lexeme + " ") && q == c + |lexeme| + 1 && Follows(t, q, 0)
    ensures c <= |t| && Headless(t, c)
  {
    hide Stands, Follows, AssignmentFrom, IsName, Spells, Skip, PeekName, NameEnd;
    LexemeFirst(lexeme, a, hasStatus);
    StandsAt(t, c, lexeme + " ", 0);
    if lexeme[0] != '$' && !a.Number? {
      NameBefore(t, c, lexeme, " ");
      FollowChar(t, q, 0);
      FollowIsNoAssignment(t, q, 0);
      SkipOne(t, c + |lexeme|, false);
    } else {
      NoNameHere(t, c);
    }
  }

  lemma NoNameHere(t: string, c: nat)
    requires c < |t| && (IsDigit(t[c]) || !IsNameChar(t[c]))
    ensures PeekName(t, c) == 0
  {
  }

  lemma PostfixHead(t: string, c: nat, name: string, up: bool)
    requires VariableName(name) && Stands(t, c, name + (StepText(up) + " "))
    ensures c <= |t| && Headless(t, c)
  {
    hide Stands, AssignmentFrom, IsName, Skip, PeekName, NameEnd;
    var e := c + |name|;
    NameBefore(t, c, name, StepText(up) + " ");
    StandsAt(t, e, StepText(up) + " ", 0);
    StandsAt(t, e, StepText(up) + " ", 1);
    SkipNothing(t, e, false);
    StepIsNoAssignment(t, e, 0);
  }

  lemma {:induction false} StepIsNoAssignment(t: string, q: nat, i: nat)
    requires q + 1 < |t| && (t[q] == '+' || t[q] == '-') && t[q + 1] == t[q] && i <= |UPDATES|
    ensures AssignmentFrom(t, q, i).NoAssignment?
    decreases |UPDATES| - i
  {
    if i < |UPDATES| {
      if StartsWith(t, q, OperatorText(UPDATES[i]) + "=") {
        StandsAt(t, q, OperatorText(UPDATES[i]) + "=", 0);
        StandsAt(t, q, OperatorText(UPDATES[i]) + "=", 1);
        assert false;
      }
      StepIsNoAssignment(t, q, i + 1);
    }
  }

  // ----- The round trip -----

  lemma {:induction false} DerivationsAreCorrect(e: Expr, hasStatus: bool)
    requires Derivation(e, hasStatus)
    ensures Correct(e)
  {
    match e
    case Unary(_, x) => DerivationsAreCorrect(x, hasStatus);
    case Group(x) => DerivationsAreCorrect(x, hasStatus);
    case Binary(_, l, r) =>
      DerivationsAreCorrect(l, hasStatus);
      DerivationsAreCorrect(r, hasStatus);
    case Conditional(c, x, y) =>
      DerivationsAreCorrect(c, hasStatus);
      DerivationsAreCorrect(x, hasStatus);
      DerivationsAreCorrect(y, hasStatus);
    case Assign(_, x) => DerivationsAreCorrect(x, hasStatus);
    case Update(_, _, x) => DerivationsAreCorrect(x, hasStatus);
    case _ =>
  }

  /** Parsing the text of any derivation gives that derivation back */
  lemma ParsePrinted(e: Expr, hasStatus: bool)
    requires Derivation(e, hasStatus)
    ensures Source(Print(e), hasStatus).Parse() == Some(e)
  {
    hide Source.ParseAssign, Derivation;
    var t := Print(e);
    PrintFirst(e, hasStatus);
    assert t[0..0 + |t|] == t;
    SkipNothing(t, 0, true);
    AssignReads(Source(t, hasStatus), 0, e, |t|);
    SkipNothing(t, |t|, true);
    DerivationsAreCorrect(e, hasStatus);
  }

  /** No text is read as two derivations */
  lemma PrintIsInjective(e: Expr, e': Expr, hasStatus: bool)
    requires Derivation(e, hasStatus) && Derivation(e', hasStatus) && Print(e) == Print(e')
    ensures e == e'
  {
    hide Source.Parse, Derivation;
    ParsePrinted(e, hasStatus);
    ParsePrinted(e', hasStatus);
  }
}
