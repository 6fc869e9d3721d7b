/** C's grammar of expressions, as a property of trees, and that the trees of
    `Source.Parse` are its derivations: they respect precedence and
    associativity, and spell exactly the text they were read from.
 */
module ArithGrammar {
  import opened Common
  import opened Machine64
  import opened ArithText
  import opened ArithSyntax

  // ----- The grammar -----

  /** Where a tree stands in the grammar: primaries 0, unary expressions 1, the ten
      levels of binary operators 2 to 11, conditionals 12, assignments 13 */
  function Rank(e: Expr): nat {
    match e
    case Unary(_, _) => 1
    case Prefix(_, _) => 1
    case Binary(op, _, _) => 2 + Level(op)
    case Conditional(_, _, _) => 12
    case NoColon(_, _) => 12
    case Assign(_, _) => 13
    case Update(_, _, _) => 13
    case _ => 0
  }

  predicate VariableName(name: string) {
    IsName(name) && |name| <= NAME_LIMIT
  }

  predicate AllDigits(s: string) {
    forall k | 0 <= k < |s| :: IsDigit(s[k])
  }

  lemma AllDigitsBelow10(s: string)
    requires AllDigits(s)
    ensures DigitsBelow(s, 10)
  {
  }

  function DecimalValue(s: string): nat
    requires AllDigits(s)
  {
    AllDigitsBelow10(s);
    DigitsValue(s, 10)
  }

  /** `body` after a `$`, with or without braces */
  predicate Dollared(lexeme: string, body: string) {
    lexeme == "$" + body || lexeme == "${" + body + "}"
  }

  /** What a lexeme stands for. Without a `$?` to show, a '?' before a name is passed
      over. */
  predicate Spells(lexeme: string, a: Atom, hasStatus: bool) {
    match a
    case Number(v) => lexeme != "" && IsDigit(lexeme[0]) && Constant(lexeme, 0) == Some((v, |lexeme|))
    case Status => hasStatus && Dollared(lexeme, "?")
    case Count => Dollared(lexeme, "#")
    case Argument(index) => SpellsArgument(lexeme, index)
    case Variable(name) =>
      VariableName(name) && (lexeme == name || Dollared(lexeme, name) || (!hasStatus && Dollared(lexeme, "?" + name)))
  }

  /** One digit, or in braces any number worth less than 10000 */
  predicate SpellsArgument(lexeme: string, index: nat) {
    || (|lexeme| == 2 && lexeme[0] == '$' && IsDigit(lexeme[1]) && HexValue(lexeme[1]) == index)
    || (index < 10000 && |lexeme| > 3 && lexeme[..2] == "${" && lexeme[|lexeme| - 1] == '}'
        && AllDigits(lexeme[2..|lexeme| - 1]) && DecimalValue(lexeme[2..|lexeme| - 1]) == index)
  }

  /** The derivations: a binary operator's left side may be of its own level, its
      right side only of a tighter one; `?:` and assignments lean the other way */
  predicate Derivation(e: Expr, hasStatus: bool) {
    match e
    case Leaf(a, lexeme) => Spells(lexeme, a, hasStatus)
    case Postfix(name, _) => VariableName(name)
    case Prefix(name, _) => VariableName(name)
    case Unary(_, x) => Derivation(x, hasStatus) && Rank(x) <= 1
    case Group(x) => Derivation(x, hasStatus)
    case Binary(op, l, r) =>
      Derivation(l, hasStatus) && Derivation(r, hasStatus) && Rank(l) <= 2 + Level(op) && Rank(r) < 2 + Level(op)
    case Conditional(c, x, y) =>
      Derivation(c, hasStatus) && Derivation(x, hasStatus) && Derivation(y, hasStatus) && Rank(c) <= 11 && Rank(y) <= 12
    case Assign(name, x) => VariableName(name) && Derivation(x, hasStatus)
    case Update(name, op, x) => VariableName(name) && op in UPDATES && Derivation(x, hasStatus)
    case _ => false
  }

  function UnaryText(op: UnaryOperator): string {
    match op
    case Not => "!"
    case Complement => "~"
    case Negate => "-"
    case Identity => "+"
  }

  function StepText(up: bool): string {
    if up then "++" else "--"
  }

  /** The text a tree stands for, without blanks */
  function Spelling(e: Expr): string {
    match e
    case Leaf(_, lexeme) => lexeme
    case Postfix(name, up) => name + StepText(up)
    case Prefix(name, up) => StepText(up) + name
    case Unary(op, x) => UnaryText(op) + Spelling(x)
    case Group(x) => "(" + Spelling(x) + ")"
    case Binary(op, l, r) => Spelling(l) + OperatorText(op) + Spelling(r)
    case Conditional(c, x, y) => Spelling(c) + "?" + Spelling(x) + ":" + Spelling(y)
    case Assign(name, x) => name + "=" + Spelling(x)
    case Update(name, op, x) => name + (OperatorText(op) + "=") + Spelling(x)
    case _ => ""
  }

  // ----- Blanks -----

  function Squeeze(s: string): string {
    if s == "" then ""
    else if IsSkipped(s[0], true) then Squeeze(s[1..])
    else [s[0]] + Squeeze(s[1..])
  }

  lemma {:induction false} SqueezeConcat(a: string, b: string)
    ensures Squeeze(a + b) == Squeeze(a) + Squeeze(b)
  {
    if a == "" {
      assert a + b == b;
    } else {
      assert (a + b)[1..] == a[1..] + b;
      SqueezeConcat(a[1..], b);
    }
  }

  lemma {:induction false} SqueezeBlanks(s: string)
    requires forall k | 0 <= k < |s| :: IsSkipped(s[k], true)
    ensures Squeeze(s) == ""
  {
    if s != "" {
      SqueezeBlanks(s[1..]);
    }
  }

  predicate Solid(s: string) {
    forall k | 0 <= k < |s| :: !IsSkipped(s[k], true)
  }

  lemma {:induction false} SqueezeSolid(s: string)
    requires Solid(s)
    ensures Squeeze(s) == s
  {
    if s != "" {
      SqueezeSolid(s[1..]);
      assert s == [s[0]] + s[1..];
    }
  }

  /** The text from `i` to `j`, without its blanks */
  function Between(t: string, i: nat, j: nat): string
    requires i <= j <= |t|
  {
    Squeeze(t[i..j])
  }

  lemma BetweenSplit(t: string, i: nat, j: nat, k: nat)
    requires i <= j <= k <= |t|
    ensures Between(t, i, k) == Between(t, i, j) + Between(t, j, k)
  {
    assert t[i..k] == t[i..j] + t[j..k];
    SqueezeConcat(t[i..j], t[j..k]);
  }

  lemma BetweenSolid(t: string, i: nat, j: nat)
    requires i <= j <= |t| && Solid(t[i..j])
    ensures Between(t, i, j) == t[i..j]
  {
    SqueezeSolid(t[i..j]);
  }

  lemma BetweenSkip(t: string, i: nat, newlines: bool)
    requires i <= |t|
    ensures Between(t, i, Skip(t, i, newlines)) == ""
  {
    SqueezeBlanks(t[i..Skip(t, i, newlines)]);
  }

  /** Blanks, then something solid from the next character up to `k` */
  lemma BetweenSkipSolid(t: string, i: nat, j: nat, k: nat, newlines: bool)
    requires i <= |t| && j == Skip(t, i, newlines) && j <= k <= |t| && Solid(t[j..k])
    ensures Between(t, i, k) == t[j..k]
  {
    BetweenSkip(t, i, newlines);
    BetweenSplit(t, i, j, k);
    SqueezeSolid(t[j..k]);
  }

  // ----- The lexemes -----

  lemma {:induction false} HexEndLocal(t: string, i: nat, e: nat, lexeme: string, d: nat)
    requires i <= e <= |t| && e == HexEnd(t, i)
    requires d <= |lexeme| && lexeme[d..] == t[i..e]
    ensures HexEnd(lexeme, d) == |lexeme|
    decreases e - i
  {
    if i < e {
      assert lexeme[d] == lexeme[d..][0] == t[i..e][0] == t[i];
      assert lexeme[d + 1..] == lexeme[d..][1..] == t[i..e][1..] == t[i + 1..e];
      HexEndLocal(t, i + 1, e, lexeme, d + 1);
    } else {
      assert lexeme[d..] == "";
    }
  }

  lemma BaseLocal(t: string, c: nat, e: nat)
    requires c < e <= |t| && DigitsStart(t, c) < e
    ensures BaseAt(t[c..e], 0) == BaseAt(t, c) && DigitsStart(t[c..e], 0) == DigitsStart(t, c) - c
  {
    var lexeme := t[c..e];
    assert lexeme[0] == t[c];
    if c + 1 < e {
      assert lexeme[1] == t[c + 1];
    } else {
      assert BaseAt(lexeme, 0) != 16;
    }
  }

  /** A constant cut out of its text is the same constant */
  lemma ConstantLocal(t: string, c: nat)
    requires c < |t| && IsDigit(t[c]) && Constant(t, c).Some?
    ensures var (v, e) := Constant(t, c).value;
            forall hasStatus :: Spells(t[c..e], Number(v), hasStatus)
  {
    hide HexEnd, DigitsValue, BaseAt, DigitsStart, Signed;
    var (v, e) := Constant(t, c).value;
    var lexeme, d := t[c..e], DigitsStart(t, c);
    BaseLocal(t, c, e);
    assert lexeme[d - c..] == t[d..e];
    HexEndLocal(t, d, e, lexeme, d - c);
    assert lexeme[d - c..|lexeme|] == t[d..e];
  }

  lemma ConstantSolid(t: string, c: nat)
    requires c <= |t| && Constant(t, c).Some?
    ensures Solid(t[c..Constant(t, c).value.1])
  {
    hide DigitsValue;
    var e := Constant(t, c).value.1;
    forall k | c <= k < e
      ensures !IsSkipped(t[k], true)
    {
      if k >= DigitsStart(t, c) {
        assert IsHex(t[k]);
      }
    }
  }

  lemma SliceOne(t: string, i: nat)
    requires i < |t|
    ensures t[i..i + 1] == [t[i]]
  {
  }

  /** From `$` or `${` to the end of what `Close` found */
  lemma ClosedLexeme(src: Source, c: nat, braced: bool, atom: Atom, e: nat)
    requires c < |src.text| && src.text[c] == '$'
    requires braced == (At(src.text, c + 1) == '{')
    requires (if braced then c + 2 else c + 1) <= e <= |src.text|
    requires src.Close(c, braced, atom, e).atom.Some?
    ensures var body := src.text[if braced then c + 2 else c + 1..e];
            var lexeme := src.text[c..src.Close(c, braced, atom, e).end];
            lexeme == if braced then "${" + body + "}" else "$" + body
  {
  }

  lemma {:induction false} IndexDigits(src: Source, start: nat, i: nat, index: nat)
    requires start < i <= |src.text| && AllDigits(src.text[start..i])
    requires DecimalValue(src.text[start..i]) == index < 10000
    ensures var (n, e) := src.IndexFrom(i, index);
            && AllDigits(src.text[start..e]) && DecimalValue(src.text[start..e]) == n < 10000
    decreases |src.text| - i
  {
    if IsDigit(At(src.text, i)) && index < 1000 {
      var longer := src.text[start..i + 1];
      assert longer[..|longer| - 1] == src.text[start..i];
      assert longer[|longer| - 1] == src.text[i];
      AllDigitsBelow10(longer);
      assert DecimalValue(longer) == DecimalValue(src.text[start..i]) * 10 + HexValue(src.text[i]);
      IndexDigits(src, start, i + 1, index * 10 + HexValue(src.text[i]));
    }
  }

  lemma OneDigit(s: string)
    requires |s| == 1 && IsDigit(s[0])
    ensures AllDigits(s) && DecimalValue(s) == HexValue(s[0])
  {
    assert s[..0] == "";
    assert DigitsValue(s[..0], 10) == 0;
  }

  /** What is read after a `$` is spelled by the characters from it on */
  lemma DollarSpells(src: Source, c: nat)
    requires c < |src.text| && src.text[c] == '$'
    requires src.ParseDollar(c).atom.Some?
    ensures var dollar := src.ParseDollar(c);
            Spells(src.text[c..dollar.end], dollar.atom.value, src.hasStatus) && Solid(src.text[c..dollar.end])
  {
    var t := src.text;
    var braced := At(t, c + 1) == '{';
    var b := if braced then c + 2 else c + 1;
    if At(t, b) == '?' && !src.hasStatus {
      DollarPassed(src, c, braced, b);
    } else if At(t, b) == '?' || At(t, b) == '#' {
      DollarSpecial(src, c, braced, b);
    } else if IsDigit(At(t, b)) {
      DollarArgument(src, c, braced, b);
    } else {
      DollarVariable(src, c, braced, b);
    }
  }

  lemma DollarSpecial(src: Source, c: nat, braced: bool, b: nat)
    requires c < |src.text| && src.text[c] == '$' && braced == (At(src.text, c + 1) == '{')
    requires b == (if braced then c + 2 else c + 1) < |src.text| && (src.text[b] == '?' || src.text[b] == '#')
    requires (src.text[b] == '?' ==> src.hasStatus) && src.ParseDollar(c).atom.Some?
    ensures var dollar := src.ParseDollar(c);
            Spells(src.text[c..dollar.end], dollar.atom.value, src.hasStatus) && Solid(src.text[c..dollar.end])
  {
    hide Source.IndexFrom, Source.DollarName, Spells, Solid;
    ClosedLexeme(src, c, braced, if src.text[b] == '?' then Status else Count, b + 1);
    SliceOne(src.text, b);
    SpecialSpells(src.text[b], src.hasStatus);
  }

  lemma SpecialSpells(c: char, hasStatus: bool)
    requires c == '#' || (c == '?' && hasStatus)
    ensures var atom := if c == '?' then Status else Count;
            && Spells("$" + [c], atom, hasStatus) && Solid("$" + [c])
            && Spells("${" + [c] + "}", atom, hasStatus) && Solid("${" + [c] + "}")
  {
    hide Constant, SpellsArgument;
  }

  /** A '?' passed over */
  lemma DollarPassed(src: Source, c: nat, braced: bool, b: nat)
    requires c < |src.text| && src.text[c] == '$' && braced == (At(src.text, c + 1) == '{')
    requires b == (if braced then c + 2 else c + 1) < |src.text| && src.text[b] == '?' && !src.hasStatus
    requires src.ParseDollar(c).atom.Some?
    ensures var dollar := src.ParseDollar(c);
            Spells(src.text[c..dollar.end], dollar.atom.value, src.hasStatus) && Solid(src.text[c..dollar.end])
  {
    hide Source.IndexFrom, NameEnd, Spells, Solid, Skip, IsName;
    var e := NameEnd(src.text, b + 1, NAME_LIMIT);
    assert src.ParseDollar(c) == src.DollarName(c, b + 1, braced);
    ClosedLexeme(src, c, braced, Variable(src.text[b + 1..e]), e);
    SliceAfter(src.text, b, e);
    PassedSpells(src.text[b + 1..e]);
  }

  lemma SliceAfter(t: string, b: nat, e: nat)
    requires b < e <= |t|
    ensures t[b..e] == [t[b]] + t[b + 1..e]
  {
  }

  lemma PassedSpells(name: string)
    requires VariableName(name)
    ensures Spells("$" + ("?" + name), Variable(name), false) && Solid("$" + ("?" + name))
    ensures Spells("${" + ("?" + name) + "}", Variable(name), false) && Solid("${" + ("?" + name) + "}")
  {
    hide Constant, SpellsArgument;
  }

  lemma DollarVariable(src: Source, c: nat, braced: bool, b: nat)
    requires c < |src.text| && src.text[c] == '$' && braced == (At(src.text, c + 1) == '{')
    requires b == (if braced then c + 2 else c + 1) <= |src.text|
    requires At(src.text, b) != '?' && At(src.text, b) != '#' && !IsDigit(At(src.text, b))
    requires src.ParseDollar(c).atom.Some?
    ensures var dollar := src.ParseDollar(c);
            Spells(src.text[c..dollar.end], dollar.atom.value, src.hasStatus) && Solid(src.text[c..dollar.end])
  {
    hide Source.IndexFrom, NameEnd, Spells, Solid, Skip, IsName;
    var e := NameEnd(src.text, b, NAME_LIMIT);
    assert src.ParseDollar(c) == src.DollarName(c, b, braced);
    ClosedLexeme(src, c, braced, Variable(src.text[b..e]), e);
    DollaredSpells(src.text[b..e], src.hasStatus);
  }

  lemma DollaredSpells(name: string, hasStatus: bool)
    requires VariableName(name)
    ensures Spells("$" + name, Variable(name), hasStatus) && Solid("$" + name)
    ensures Spells("${" + name + "}", Variable(name), hasStatus) && Solid("${" + name + "}")
  {
    hide Constant, SpellsArgument;
  }

  lemma DollarArgument(src: Source, c: nat, braced: bool, b: nat)
    requires c < |src.text| && src.text[c] == '$' && braced == (At(src.text, c + 1) == '{')
    requires b == (if braced then c + 2 else c + 1) < |src.text| && IsDigit(src.text[b])
    requires src.ParseDollar(c).atom.Some?
    ensures var dollar := src.ParseDollar(c);
            Spells(src.text[c..dollar.end], dollar.atom.value, src.hasStatus) && Solid(src.text[c..dollar.end])
  {
    hide Source.IndexFrom, Source.DollarName, DecimalValue, AllDigits, NameEnd, Spells, Solid, HexValue;
    var t := src.text;
    OneDigit(t[b..b + 1]);
    IndexDigits(src, b, b + 1, HexValue(t[b]));
    var (index, e) := if braced then src.IndexFrom(b + 1, HexValue(t[b])) else (HexValue(t[b]), b + 1);
    ClosedLexeme(src, c, braced, Argument(index), e);
    if braced {
      BracedArgument(t[b..e], index, src.hasStatus);
    } else {
      SliceOne(t, b);
      PlainArgument(t[b], src.hasStatus);
    }
  }

  lemma BracedArgument(digits: string, index: nat, hasStatus: bool)
    requires digits != "" && AllDigits(digits) && DecimalValue(digits) == index < 10000
    ensures Spells("${" + digits + "}", Argument(index), hasStatus) && Solid("${" + digits + "}")
  {
    hide DecimalValue;
    var lexeme := "${" + digits + "}";
    assert lexeme[2..|lexeme| - 1] == digits;
  }

  lemma PlainArgument(c: char, hasStatus: bool)
    requires IsDigit(c)
    ensures Spells("$" + [c], Argument(HexValue(c)), hasStatus) && Solid("$" + [c])
  {
  }

  // ----- Soundness -----

  /** A tree without errors is a derivation of at most that rank, spelled by the
      text it was read from */
  predicate Sound(t: string, hasStatus: bool, p: nat, r: Parsed, rank: nat)
    requires p <= r.next <= |t|
  {
    Correct(r.e) ==> Derivation(r.e, hasStatus) && Rank(r.e) <= rank && Between(t, p, r.next) == Spelling(r.e)
  }

  lemma NameSound(src: Source, p: nat, c: nat)
    requires p <= |src.text| && c == Skip(src.text, p, true) < |src.text|
    requires IsNameChar(src.text[c]) && !IsDigit(src.text[c])
    ensures Sound(src.text, src.hasStatus, p, src.ParseName(c), 0)
  {
    hide NameEnd, Skip, Between, Spells, IsName, Solid;
    var t := src.text;
    var e := NameEnd(t, c, NAME_LIMIT);
    var q := Skip(t, e, true);
    NameLeaf(t, c, e, src.hasStatus);
    BetweenSkipSolid(t, p, c, e, true);
    BetweenSkip(t, e, true);
    BetweenSplit(t, p, e, q);
    var next := src.ParseName(c).next;
    if next == q + 2 {
      StepSlice(t, q);
      BetweenSplit(t, p, q, q + 2);
      BetweenSolid(t, q, q + 2);
    }
  }

  lemma NameLeaf(t: string, c: nat, e: nat, hasStatus: bool)
    requires c < |t| && IsNameChar(t[c]) && !IsDigit(t[c]) && e == NameEnd(t, c, NAME_LIMIT)
    ensures var name := t[c..e];
            VariableName(name) && Spells(name, Variable(name), hasStatus) && Solid(name)
  {
    hide Constant, SpellsArgument;
  }

  lemma StepSlice(t: string, q: nat)
    requires q + 2 <= |t| && t[q] == t[q + 1] && (t[q] == '+' || t[q] == '-')
    ensures t[q..q + 2] == StepText(t[q] == '+') && Solid(t[q..q + 2])
  {
  }

  lemma {:induction false} PrimarySound(src: Source, p: nat)
    requires p <= |src.text|
    ensures Sound(src.text, src.hasStatus, p, src.ParsePrimary(p), 0)
    decreases |src.text| - p, 1
  {
    hide Source.ParseAssign, Source.ParseDollar, Constant, Between, Skip, Source.ParseName;
    var t := src.text;
    var c := Skip(t, p, true);
    if At(t, c) == '(' {
      GroupSound(src, p, c);
    } else if IsDigit(At(t, c)) {
      if Constant(t, c).Some? {
        ConstantLocal(t, c);
        ConstantSolid(t, c);
        BetweenSkipSolid(t, p, c, Constant(t, c).value.1, true);
      }
    } else if At(t, c) == '$' {
      if src.ParseDollar(c).atom.Some? {
        DollarSound(src, p, c);
      }
    } else if IsNameChar(At(t, c)) {
      NameSound(src, p, c);
    }
  }

  lemma DollarSound(src: Source, p: nat, c: nat)
    requires p <= |src.text| && c == Skip(src.text, p, true) < |src.text| && src.text[c] == '$'
    requires src.ParseDollar(c).atom.Some?
    ensures var dollar := src.ParseDollar(c);
            var lexeme := src.text[c..dollar.end];
            Spells(lexeme, dollar.atom.value, src.hasStatus) && Between(src.text, p, dollar.next) == lexeme
  {
    hide Source.ParseDollar, Between, Skip;
    var dollar := src.ParseDollar(c);
    DollarSpells(src, c);
    BetweenSkipSolid(src.text, p, c, dollar.end, true);
    BetweenSkip(src.text, dollar.end, true);
    BetweenSplit(src.text, p, dollar.end, dollar.next);
    BetweenSolid(src.text, dollar.end, dollar.end);
  }

  lemma BetweenOne(t: string, q: nat)
    requires q < |t| && !IsSkipped(t[q], true)
    ensures Between(t, q, q + 1) == [t[q]]
  {
    SliceOne(t, q);
    BetweenSolid(t, q, q + 1);
  }

  lemma BetweenChar(t: string, i: nat)
    requires i <= |t| && Skip(t, i, true) < |t|
    ensures Between(t, i, Skip(t, i, true) + 1) == [t[Skip(t, i, true)]]
  {
    hide Between, Skip;
    BetweenSkip(t, i, true);
    BetweenOne(t, Skip(t, i, true));
    BetweenSplit(t, i, Skip(t, i, true), Skip(t, i, true) + 1);
  }

  /** Blanks and then the token `s` */
  lemma BetweenToken(t: string, i: nat, s: string)
    requires i <= |t|
    requires Skip(t, i, true) + |s| <= |t| && t[Skip(t, i, true)..Skip(t, i, true) + |s|] == s && Solid(s)
    ensures Between(t, i, Skip(t, i, true) + |s|) == s
  {
    BetweenSkipSolid(t, i, Skip(t, i, true), Skip(t, i, true) + |s|, true);
  }

  lemma {:induction false} GroupSound(src: Source, p: nat, c: nat)
    requires p <= |src.text| && c == Skip(src.text, p, true) && At(src.text, c) == '('
    ensures Sound(src.text, src.hasStatus, p, src.ParsePrimary(p), 0)
    decreases |src.text| - c, 0
  {
    hide Source.ParseAssign, Between, Skip;
    var t := src.text;
    AssignSound(src, c + 1);
    var inner := src.ParseAssign(c + 1);
    var q := Skip(t, inner.next, true);
    BetweenChar(t, p);
    BetweenSplit(t, p, c + 1, inner.next);
    if At(t, q) == ')' {
      BetweenChar(t, inner.next);
      BetweenSplit(t, p, inner.next, q + 1);
    }
  }

  lemma {:induction false} UnarySound(src: Source, p: nat)
    requires p <= |src.text|
    ensures Sound(src.text, src.hasStatus, p, src.ParseUnary(p), 1)
    decreases |src.text| - p, 2
  {
    hide Source.ParsePrimary, Source.UnaryHeadAt, Between;
    var t := src.text;
    UnaryHeadSound(src, p);
    match src.UnaryHeadAt(p)
    case Sign(op, next) =>
      UnarySound(src, next);
      BetweenSplit(t, p, next, src.ParseUnary(next).next);
    case Step(_, _, _) =>
    case NoSign(c) =>
      PrimarySound(src, c);
      BetweenSplit(t, p, c, src.ParsePrimary(c).next);
  }

  lemma UnaryHeadSound(src: Source, p: nat)
    requires p <= |src.text|
    ensures var head := src.UnaryHeadAt(p);
            match head
            case Sign(op, next) => Between(src.text, p, next) == UnaryText(op)
            case Step(up, after, n) =>
              && VariableName(src.text[after..after + n])
              && Between(src.text, p, after + n) == StepText(up) + src.text[after..after + n]
            case NoSign(next) => Between(src.text, p, next) == ""
  {
    hide Between, Skip, PeekName, VariableName, StepText, Source.StepName;
    var t := src.text;
    var c := Skip(t, p, true);
    BetweenSkip(t, p, true);
    if c < |t| && (t[c] == '!' || t[c] == '~' || t[c] == '+' || t[c] == '-') {
      BetweenChar(t, p);
      if (t[c] == '+' || t[c] == '-') && src.StepName(c) > 0 {
        StepSound(src, p, c);
      }
    }
  }

  lemma StepSound(src: Source, p: nat, c: nat)
    requires p <= |src.text| && c == Skip(src.text, p, true) < |src.text|
    requires (src.text[c] == '+' || src.text[c] == '-') && src.StepName(c) > 0
    ensures var after, n := Skip(src.text, c + 2, false), src.StepName(c);
            && VariableName(src.text[after..after + n])
            && Between(src.text, p, after + n) == StepText(src.text[c] == '+') + src.text[after..after + n]
  {
    hide Between, Skip, PeekName, IsName, Solid;
    var t := src.text;
    var after, n := Skip(t, c + 2, false), src.StepName(c);
    StepSlice(t, c);
    BetweenToken(t, p, StepText(t[c] == '+'));
    NameSolid(t[after..after + n]);
    BetweenSkipSolid(t, c + 2, after, after + n, false);
    BetweenSplit(t, p, c + 2, after + n);
  }

  lemma {:induction false} OperandSound(src: Source, level: nat, p: nat)
    requires p <= |src.text| && level <= LOOSEST
    ensures Sound(src.text, src.hasStatus, p, src.ParseOperand(level, p), 1 + level)
    decreases |src.text| - p, 3 + 2 * level
  {
    if level == 0 {
      UnarySound(src, p);
    } else {
      BinarySound(src, level - 1, p);
    }
  }

  lemma {:induction false} BinarySound(src: Source, level: nat, p: nat)
    requires p <= |src.text| && level <= LOOSEST
    ensures Sound(src.text, src.hasStatus, p, src.ParseBinary(level, p), 2 + level)
    decreases |src.text| - p, 4 + 2 * level
  {
    hide Source.ParseOperand, Source.ParseRest, Between;
    OperandSound(src, level, p);
    var operand := src.ParseOperand(level, p);
    RestSound(src, level, p, operand.e, operand.next);
  }

  lemma BlanksKeepSound(t: string, hasStatus: bool, p: nat, e: Expr, q: nat, rank: nat)
    requires p <= q <= |t| && Sound(t, hasStatus, p, Parsed(e, q), rank)
    ensures Sound(t, hasStatus, p, Parsed(e, Skip(t, q, true)), rank)
  {
    hide Between, Skip, Derivation, Spelling;
    BetweenSkip(t, q, true);
    BetweenSplit(t, p, q, Skip(t, q, true));
  }

  /** Reading on after `left`, which was read from `p` to `q` */
  lemma {:induction false} RestSound(src: Source, level: nat, p: nat, left: Expr, q: nat)
    requires p <= q <= |src.text| && level <= LOOSEST
    requires Sound(src.text, src.hasStatus, p, Parsed(left, q), 2 + level)
    ensures Sound(src.text, src.hasStatus, p, src.ParseRest(level, left, q), 2 + level)
    decreases |src.text| - q, 0
  {
    hide Source.ParseOperand, OperatorAt, OperatorText, Sound, Skip;
    var t := src.text;
    var c := Skip(t, q, true);
    match OperatorAt(level, t, c)
    case None => BlanksKeepSound(t, src.hasStatus, p, left, q, 2 + level);
    case Some(op) =>
      var next := c + |OperatorText(op)|;
      OperandSound(src, level, next);
      var operand := src.ParseOperand(level, next);
      BinaryNodeSound(t, src.hasStatus, p, left, q, op, operand);
      RestSound(src, level, p, Binary(op, left, operand.e), operand.next);
  }

  lemma BinaryNodeSound(t: string, hasStatus: bool, p: nat, left: Expr, q: nat, op: BinaryOperator, operand: Parsed)
    requires p <= q <= |t|
    requires var next := Skip(t, q, true) + |OperatorText(op)|;
             && next <= operand.next <= |t|
             && t[Skip(t, q, true)..next] == OperatorText(op)
             && Sound(t, hasStatus, next, operand, 1 + Level(op))
    requires Sound(t, hasStatus, p, Parsed(left, q), 2 + Level(op))
    ensures Sound(t, hasStatus, p, Parsed(Binary(op, left, operand.e), operand.next), 2 + Level(op))
  {
    hide Between, Skip, OperatorText, Derivation, Spelling, Rank, Level, Correct;
    BinaryNode(op, left, operand.e, hasStatus);
    OperatorSolid(op);
    var next := Skip(t, q, true) + |OperatorText(op)|;
    BetweenToken(t, q, OperatorText(op));
    BetweenThree(t, p, q, next, operand.next);
  }

  lemma BetweenThree(t: string, i: nat, j: nat, k: nat, l: nat)
    requires i <= j <= k <= l <= |t|
    ensures Between(t, i, l) == Between(t, i, j) + Between(t, j, k) + Between(t, k, l)
  {
    hide Between;
    BetweenSplit(t, i, j, k);
    BetweenSplit(t, i, k, l);
  }

  lemma BinaryNode(op: BinaryOperator, l: Expr, r: Expr, hasStatus: bool)
    ensures Correct(Binary(op, l, r)) ==> Correct(l) && Correct(r)
    ensures Derivation(l, hasStatus) && Derivation(r, hasStatus) && Rank(l) <= 2 + Level(op) && Rank(r) <= 1 + Level(op)
            ==> Derivation(Binary(op, l, r), hasStatus)
    ensures Rank(Binary(op, l, r)) == 2 + Level(op)
    ensures Spelling(Binary(op, l, r)) == Spelling(l) + OperatorText(op) + Spelling(r)
  {
    hide Spells, VariableName, OperatorText;
  }

  lemma {:induction false} ConditionalSound(src: Source, p: nat)
    requires p <= |src.text|
    ensures Sound(src.text, src.hasStatus, p, src.ParseConditional(p), 12)
    decreases |src.text| - p, 5 + 2 * LOOSEST
  {
    hide Source.ParseBinary, Source.ParseBranches, Between, Skip, Spells;
    var t := src.text;
    BinarySound(src, LOOSEST, p);
    var c := src.ParseBinary(LOOSEST, p);
    var q := Skip(t, c.next, true);
    BlanksKeepSound(t, src.hasStatus, p, c.e, c.next, 11);
    if At(t, q) == '?' {
      BranchesSound(src, p, c.e, q);
    }
  }

  lemma {:induction false} BranchesSound(src: Source, p: nat, cond: Expr, q: nat)
    requires p <= q < |src.text| && src.text[q] == '?'
    requires Sound(src.text, src.hasStatus, p, Parsed(cond, q), 11)
    ensures Sound(src.text, src.hasStatus, p, src.ParseBranches(cond, q + 1), 12)
    decreases |src.text| - q, 0
  {
    hide Source.ParseAssign, Source.ParseConditional, Between, Skip, Spells;
    var t := src.text;
    AssignSound(src, q + 1);
    var x := src.ParseAssign(q + 1);
    var q' := Skip(t, x.next, true);
    BetweenOne(t, q);
    BetweenSplit(t, p, q, q + 1);
    BetweenSplit(t, p, q + 1, x.next);
    if At(t, q') == ':' {
      ConditionalSound(src, q' + 1);
      BetweenChar(t, x.next);
      BetweenSplit(t, p, x.next, q' + 1);
      BetweenSplit(t, p, q' + 1, src.ParseConditional(q' + 1).next);
    }
  }

  lemma {:induction false} AssignSound(src: Source, p: nat)
    requires p <= |src.text|
    ensures Sound(src.text, src.hasStatus, p, src.ParseAssign(p), 13)
    decreases |src.text| - p, 6 + 2 * LOOSEST
  {
    hide Source.ParseConditional, Source.AssignHeadAt, Between, Spells;
    var t := src.text;
    AssignHeadSound(src, p);
    match src.AssignHeadAt(p)
    case NoName(c) =>
      ConditionalSound(src, c);
      BetweenSplit(t, p, c, src.ParseConditional(c).next);
    case Named(assignment, name, next) =>
      AssignSound(src, next);
      BetweenSplit(t, p, next, src.ParseAssign(next).next);
  }

  function AssignmentText(a: Assignment): string
    requires !a.NoAssignment?
  {
    match a
    case Store => "="
    case UpdateBy(op) => OperatorText(op) + "="
  }

  /** A name and an assignment, read from `p` to `next` */
  predicate NamedHead(t: string, p: nat, assignment: Assignment, name: string, next: nat)
    requires p <= next <= |t| && !assignment.NoAssignment?
  {
    && VariableName(name)
    && (assignment.UpdateBy? ==> assignment.op in UPDATES)
    && Between(t, p, next) == name + AssignmentText(assignment)
  }

  lemma AssignHeadSound(src: Source, p: nat)
    requires p <= |src.text|
    ensures match src.AssignHeadAt(p)
            case NoName(next) => Between(src.text, p, next) == ""
            case Named(assignment, name, next) => NamedHead(src.text, p, assignment, name, next)
  {
    hide Between, Skip, PeekName, AssignmentFrom, AssignmentLength, NamedHead, Solid, IsName;
    var t := src.text;
    var c := Skip(t, p, true);
    var n := PeekName(t, c);
    BetweenSkip(t, p, true);
    if n > 0 && !AssignmentFrom(t, Skip(t, c + n, false), 0).NoAssignment? {
      NamedSound(t, p, c, n);
    }
  }

  lemma NamedSound(t: string, p: nat, c: nat, n: nat)
    requires p <= |t| && c == Skip(t, p, true) && n == PeekName(t, c) > 0
    requires !AssignmentFrom(t, Skip(t, c + n, false), 0).NoAssignment?
    ensures var q := Skip(t, c + n, false);
            var assignment := AssignmentFrom(t, q, 0);
            NamedHead(t, p, assignment, t[c..c + n], q + AssignmentLength(assignment))
  {
    hide Between, Skip, PeekName, AssignmentFrom, AssignmentLength, AssignmentText, IsName;
    var q := Skip(t, c + n, false);
    var assignment := AssignmentFrom(t, q, 0);
    var next := q + AssignmentLength(assignment);
    assert Solid(t[c..c + n]) by { NameSolid(t[c..c + n]); }
    BetweenSkipSolid(t, p, c, c + n, true);
    AssignmentSolid(t, q);
    BetweenSkipSolid(t, c + n, q, next, false);
    BetweenSplit(t, p, c + n, next);
  }

  lemma NameSolid(name: string)
    requires IsName(name)
    ensures Solid(name)
  {
  }

  lemma AssignmentSolid(t: string, q: nat)
    requires q <= |t| && !AssignmentFrom(t, q, 0).NoAssignment?
    ensures var a := AssignmentFrom(t, q, 0);
            && t[q..q + AssignmentLength(a)] == AssignmentText(a)
            && Solid(t[q..q + AssignmentLength(a)])
            && (a.UpdateBy? ==> a.op in UPDATES)
  {
    hide AssignmentFrom;
    AssignmentListed(t, q, 0);
    var a := AssignmentFrom(t, q, 0);
    if a.Store? {
      SliceOne(t, q);
    } else {
      OperatorSolid(a.op);
    }
  }

  lemma OperatorSolid(op: BinaryOperator)
    ensures Solid(OperatorText(op))
  {
  }

  lemma {:induction false} AssignmentListed(t: string, q: nat, i: nat)
    requires q <= |t| && i <= |UPDATES|
    ensures AssignmentFrom(t, q, i).UpdateBy? ==> AssignmentFrom(t, q, i).op in UPDATES
    decreases |UPDATES| - i
  {
    hide StartsWith;
    if i < |UPDATES| {
      AssignmentListed(t, q, i + 1);
    }
  }

  // ----- A status that is not shown -----

  /** While the last status is negative, a `$?` or `${?` at `c` is a syntax error unless
      a name follows the '?', and in braces at most 31 characters of it and then the
      closing brace; then it is the variable of that name */
  lemma NegativeStatus(src: Source, c: nat, braced: bool, b: nat)
    requires !src.hasStatus && c < |src.text| && src.text[c] == '$' && braced == (At(src.text, c + 1) == '{')
    requires b == (if braced then c + 2 else c + 1) < |src.text| && src.text[b] == '?'
    ensures var first, e := At(src.text, b + 1), NameEnd(src.text, b + 1, NAME_LIMIT);
            && (src.ParseDollar(c).atom.Some? <==>
                IsNameChar(first) && !IsDigit(first) && (braced ==> At(src.text, e) == '}'))
            && (src.ParseDollar(c).atom.Some? ==> src.ParseDollar(c).atom.value == Variable(src.text[b + 1..e]))
  {
    hide Source.IndexFrom, NameEnd, IsName, Skip;
    assert src.ParseDollar(c) == src.DollarName(c, b + 1, braced);
    NameStarts(src.text, b + 1);
  }

  lemma NameStarts(t: string, s: nat)
    requires s <= |t|
    ensures var e := NameEnd(t, s, NAME_LIMIT);
            e > s && IsName(t[s..e]) <==> IsNameChar(At(t, s)) && !IsDigit(At(t, s))
  {
  }

  /** Alone it is an error; before an x it is the variable x */
  lemma NegativeStatusAt()
    ensures Source("$?", false).ParseDollar(0).atom.None?
    ensures Source("$?x", false).ParseDollar(0).atom == Some(Variable("x"))
  {
    NegativeStatus(Source("$?", false), 0, false, 1);
    var t := "$?x";
    NegativeStatus(Source(t, false), 0, false, 1);
    assert NameEnd(t, 3, NAME_LIMIT - 1) == 3;
    assert NameEnd(t, 2, NAME_LIMIT) == 3;
    assert t[2..3] == "x";
  }

  /** Every tree the parser gives for a whole text is a derivation of C's grammar
      whose spelling is the text without its blanks */
  lemma ParseIsADerivation(text: string, hasStatus: bool)
    requires Source(text, hasStatus).Parse().Some? && NUL !in text
    ensures var e := Source(text, hasStatus).Parse().value;
            Derivation(e, hasStatus) && Spelling(e) == Squeeze(text)
  {
    hide Source.ParseAssign, Squeeze, Skip;
    var src := Source(text, hasStatus);
    AssignSound(src, 0);
    var next := src.ParseAssign(0).next;
    BetweenSkip(text, next, true);
    BetweenSplit(text, 0, next, |text|);
    assert Skip(text, next, true) == |text|;
    assert text[0..|text|] == text;
  }
}
