/** The characters and operators of `$((...))` against tables written out: C's digits, the
    characters of names, C's table of precedence, and what each operator's text computes.
 */
module ArithTables {
  import opened Machine64
  import opened ArithText
  import opened ArithSyntax
  import opened ArithSemantics
  import opened Variables

  // ----- Characters -----

  const LOWER: string := "abcdefghijklmnopqrstuvwxyz"
  const UPPER: string := "ABCDEFGHIJKLMNOPQRSTUVWXYZ"
  const DIGITS: string := "0123456789"

  lemma CharactersAreCs(c: char)
    ensures IsNameChar(c) <==> c in LOWER || c in UPPER || c in DIGITS || c == '_'
    ensures IsDigit(c) <==> c in DIGITS
    ensures IsSkipped(c, true) <==> c in " \t\n"
    ensures IsSkipped(c, false) <==> c in " \t"
  {
    LowerIs(c);
    UpperIs(c);
    DigitIs(c);
    assert c in " \t\n" <==> c == ' ' || c == '\t' || c == '\n';
  }

  lemma LowerIs(c: char)
    ensures c in LOWER <==> 'a' <= c <= 'z'
  {
    if 'a' <= c <= 'z' {
      assert LOWER[(c - 'a') as int] == c;
    }
  }

  lemma UpperIs(c: char)
    ensures c in UPPER <==> 'A' <= c <= 'Z'
  {
    if 'A' <= c <= 'Z' {
      assert UPPER[(c - 'A') as int] == c;
    }
  }

  lemma DigitIs(c: char)
    ensures c in DIGITS <==> '0' <= c <= '9'
  {
    if '0' <= c <= '9' {
      assert DIGITS[(c - '0') as int] == c;
    }
  }

  /** A digit is worth its place, of either case */
  lemma DigitsAreCs(c: char, k: nat)
    requires k < 16
    ensures IsHex(c) && HexValue(c) == k <==> c == "0123456789abcdef"[k] || c == "0123456789ABCDEF"[k]
  {
  }

  /** A name of at most 31 characters is one that a variable can have; a longer one is none */
  lemma NamesAreShort(name: string)
    requires IsName(name)
    ensures PeekName(name, 0) == if |name| <= 31 then |name| else 0
  {
    hide NameEnd;
    var e := NameEnd(name, 0, 31);
    assert e < |name| ==> IsNameChar(name[e]);
  }

  // ----- Operators -----

  /** C's binary operators, those that bind tightest first */
  const PRECEDENCE: seq<seq<string>> := [
    ["*", "/", "%"], ["+", "-"], ["<<", ">>"], ["<", "<=", ">", ">="], ["==", "!="],
    ["&"], ["^"], ["|"], ["&&"], ["||"]
  ]

  lemma PrecedenceIsCs(op: BinaryOperator)
    ensures Level(op) < |PRECEDENCE| && OperatorText(op) in PRECEDENCE[Level(op)]
  {
  }

  /** What is written, and what is computed */
  lemma OperatorsAreCs(op: BinaryOperator, v: Long, w: Long)
    ensures OperatorText(op) == "<" ==> Machine(op, v, w) == if v < w then 1 else 0
    ensures OperatorText(op) == "<=" ==> Machine(op, v, w) == if v <= w then 1 else 0
    ensures OperatorText(op) == ">" ==> Machine(op, v, w) == if v > w then 1 else 0
    ensures OperatorText(op) == ">=" ==> Machine(op, v, w) == if v >= w then 1 else 0
    ensures OperatorText(op) == "==" ==> Machine(op, v, w) == if v == w then 1 else 0
    ensures OperatorText(op) == "!=" ==> Machine(op, v, w) == if v != w then 1 else 0
    ensures OperatorText(op) == "&&" ==> Machine(op, v, w) == if v != 0 && w != 0 then 1 else 0
    ensures OperatorText(op) == "||" ==> Machine(op, v, w) == if v != 0 || w != 0 then 1 else 0
    ensures OperatorText(op) == "*" ==> op == Times
    ensures OperatorText(op) == "/" ==> op == Divide
    ensures OperatorText(op) == "%" ==> op == Remainder
    ensures OperatorText(op) == "+" ==> op == Plus
    ensures OperatorText(op) == "-" ==> op == Minus
    ensures OperatorText(op) == "<<" ==> op == ShiftLeft
    ensures OperatorText(op) == ">>" ==> op == ShiftRight
    ensures OperatorText(op) == "&" ==> op == Bits(And)
    ensures OperatorText(op) == "^" ==> op == Bits(Xor)
    ensures OperatorText(op) == "|" ==> op == Bits(Or)
  {
  }

  /** The operators that `=` can follow */
  lemma UpdatesAreCs(op: BinaryOperator)
    ensures op in UPDATES <==> OperatorText(op) in ["*", "/", "%", "+", "-", "<<", ">>", "&", "^", "|"]
  {
    assert UPDATES == [ShiftLeft, ShiftRight, Times, Divide, Remainder, Plus, Minus, Bits(And), Bits(Xor), Bits(Or)];
  }

  // ----- Arguments -----

  /** `$1` is the first argument, `${10}` the tenth; one that is not there is 0 */
  lemma ArgumentsAreCounted(index: nat, vars: Vars, cx: Context)
    ensures EvaluateAtom(Argument(index), vars, cx) ==
            if index == 0 || index > |cx.arguments| then Value(0, vars)
            else match NumberOf(cx.arguments[index - 1])
                 case Some(v) => Value(v, vars)
                 case None => Failed(NotANumber("argument"), vars)
  {
    hide NumberOf;
  }
}
