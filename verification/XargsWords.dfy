/** The words of an input, and how they are shared out among commands. */
module XargsWords {
  type Byte = x: int | 0 <= x < 256
  type Word = seq<Byte>

  const SPACE: Byte := 32
  const TAB: Byte := 9
  const NEWLINE: Byte := 10
  const NUL: Byte := 0

  const MAX_ARGS: nat := 32
  const ARG_BYTES: nat := 4096

  predicate Blank(c: Byte) {
    c == SPACE || c == TAB || c == NEWLINE
  }

  /** Spaces, tabs and newlines */
  lemma BlanksAre(c: Byte)
    ensures Blank(c) <==> c as char in " \t\n"
  {
    assert c as char in " \t\n" <==> c as char == ' ' || c as char == '\t' || c as char == '\n';
  }

  predicate NoBlank(s: seq<Byte>) {
    forall i | 0 <= i < |s| :: !Blank(s[i])
  }

  // ----- Words -----

  function WordEnd(s: seq<Byte>): (n: nat)
    ensures n <= |s| && (forall i | 0 <= i < n :: !Blank(s[i])) && (n < |s| ==> Blank(s[n]))
  {
    if s == [] || Blank(s[0]) then 0
    else 1 + WordEnd(s[1..])
  }

  /** The longest pieces without a blank */
  function Words(s: seq<Byte>): seq<Word>
    decreases |s|
  {
    if s == [] then []
    else if Blank(s[0]) then Words(s[1..])
    else [s[..WordEnd(s)]] + Words(s[WordEnd(s)..])
  }

  /** A word, if there is one */
  function IfAny(w: Word): seq<Word> {
    if w == [] then [] else [w]
  }

  lemma WordEndIs(s: seq<Byte>, n: nat)
    requires n <= |s| && (forall i | 0 <= i < n :: !Blank(s[i])) && (n < |s| ==> Blank(s[n]))
    ensures WordEnd(s) == n
  {
    var m := WordEnd(s);
    if m < n {
      assert false;
    } else if n < m {
      assert false;
    }
  }

  /** A word ends at a blank */
  lemma WordsAtBlank(w: Word, b: Byte, rest: seq<Byte>)
    requires NoBlank(w) && Blank(b)
    ensures Words(w + [b] + rest) == IfAny(w) + Words(rest)
  {
    var s := w + [b] + rest;
    assert s[|w|] == b && s[..|w|] == w && s[|w|..] == [b] + rest;
    assert ([b] + rest)[1..] == rest;
    if w != [] {
      WordEndIs(s, |w|);
    }
  }

  /** and at the end of the input */
  lemma WordsAtEnd(w: Word)
    requires NoBlank(w)
    ensures Words(w) == IfAny(w)
  {
    if w != [] {
      assert w[..|w|] == w;
      WordEndIs(w, |w|);
    }
  }

  // ----- Command lines -----

  /** The fixed part of every line: so many arguments, and so many bytes left by it and
      the environment; and -n */
  datatype Limits = Limits(fixedCount: nat, room: nat, maxWords: nat) {
    predicate Valid() {
      fixedCount < MAX_ARGS && 0 < room <= ARG_BYTES && maxWords >= 1
    }
  }

  function Size(line: seq<Word>): nat {
    if line == [] then 0 else Size(line[..|line| - 1]) + |line[|line| - 1]| + 1
  }

  predicate Fits(l: Limits, line: seq<Word>) {
    |line| <= l.maxWords && l.fixedCount + |line| <= MAX_ARGS && Size(line) <= l.room
  }

  function Concat(lines: seq<seq<Word>>): seq<Word> {
    if lines == [] then [] else lines[0] + Concat(lines[1..])
  }

  /** Every line has words and fits; none but the last could have taken the next word */
  ghost predicate Packing(l: Limits, lines: seq<seq<Word>>) {
    && (forall i | 0 <= i < |lines| :: lines[i] != [] && Fits(l, lines[i]))
    && (forall i | 0 <= i < |lines| - 1 :: !Fits(l, lines[i] + [lines[i + 1][0]]))
  }

  lemma SizeMore(line: seq<Word>, w: Word)
    ensures Size(line + [w]) == Size(line) + |w| + 1
  {
    assert (line + [w])[..|line|] == line;
  }

  lemma {:induction false} ConcatMore(lines: seq<seq<Word>>, line: seq<Word>)
    ensures Concat(lines + [line]) == Concat(lines) + line
  {
    if lines == [] {
      assert (lines + [line])[1..] == [];
    } else {
      ConcatMore(lines[1..], line);
      assert (lines + [line])[1..] == lines[1..] + [line];
    }
  }

  /** The lines run, and the one being built; there is none only at the start */
  ghost predicate Building(l: Limits, runs: seq<seq<Word>>, line: seq<Word>) {
    if line == [] then runs == [] else Packing(l, runs + [line])
  }

  lemma BuildMore(l: Limits, runs: seq<seq<Word>>, line: seq<Word>, w: Word)
    requires Building(l, runs, line) && Fits(l, line + [w])
    ensures Building(l, runs, line + [w])
  {
    hide Fits;
    var before, after := runs + [line], runs + [line + [w]];
    forall i | 0 <= i < |after|
      ensures after[i] != [] && Fits(l, after[i])
    {
      if i < |runs| {
        assert before[i] == after[i];
      }
    }
    forall i | 0 <= i < |after| - 1
      ensures !Fits(l, after[i] + [after[i + 1][0]])
    {
      assert before[i] == after[i] && before[i + 1] != [];
      assert before[i + 1][0] == after[i + 1][0];
    }
  }

  lemma BuildNext(l: Limits, runs: seq<seq<Word>>, line: seq<Word>, w: Word)
    requires Building(l, runs, line) && line != [] && !Fits(l, line + [w]) && Fits(l, [w])
    ensures Building(l, runs + [line], [w])
  {
    hide Fits;
    var before, after := runs + [line], runs + [line] + [[w]];
    forall i | 0 <= i < |after|
      ensures after[i] != [] && Fits(l, after[i])
      ensures i < |after| - 1 ==> !Fits(l, after[i] + [after[i + 1][0]])
    {
      if i < |runs| {
        assert before[i] == after[i] && before[i + 1] == after[i + 1];
      }
    }
  }

  lemma {:induction false} FitsPrefix(l: Limits, line: seq<Word>, n: nat)
    requires n <= |line| && Fits(l, line)
    ensures Fits(l, line[..n])
    decreases |line|
  {
    if n < |line| {
      var shorter := line[..|line| - 1];
      FitsPrefix(l, shorter, n);
      assert shorter[..n] == line[..n];
    } else {
      assert line[..n] == line;
    }
  }

  /** There is one way to share out words */
  lemma {:induction false} PackingIsUnique(l: Limits, p: seq<seq<Word>>, q: seq<seq<Word>>)
    requires Packing(l, p) && Packing(l, q) && Concat(p) == Concat(q)
    ensures p == q
    decreases |p|
  {
    hide Fits;
    HasWords(l, p);
    HasWords(l, q);
    if p != [] && q != [] {
      NotShorter(l, p, q);
      NotShorter(l, q, p);
      Parts(p[0], Concat(p[1..]), q[0], Concat(q[1..]));
      PackingIsUnique(l, p[1..], q[1..]);
      assert p == [p[0]] + p[1..] && q == [q[0]] + q[1..];
    }
  }

  lemma HasWords(l: Limits, p: seq<seq<Word>>)
    requires Packing(l, p)
    ensures p == [] <==> Concat(p) == []
  {
    hide Fits;
  }

  lemma Parts(a: seq<Word>, b: seq<Word>, c: seq<Word>, d: seq<Word>)
    requires a + b == c + d && |a| == |c|
    ensures a == c && b == d
  {
    assert a == (a + b)[..|a|] && c == (c + d)[..|c|];
    assert b == (a + b)[|a|..] && d == (c + d)[|c|..];
  }

  /** A shorter first line could have taken its next word */
  lemma NotShorter(l: Limits, p: seq<seq<Word>>, q: seq<seq<Word>>)
    requires Packing(l, p) && Packing(l, q) && Concat(p) == Concat(q) && p != [] && q != []
    ensures |p[0]| >= |q[0]|
  {
    hide Fits;
    if |p[0]| < |q[0]| {
      var n := |p[0]|;
      assert Concat(p)[n] == q[0][n];
      if |p| > 1 {
        assert Concat(p[1..])[0] == p[1][0];
        assert q[0][..n + 1] == p[0] + [p[1][0]] by {
          assert q[0][..n] == Concat(q)[..n] == p[0];
        }
        FitsPrefix(l, q[0], n + 1);
      }
    }
  }
}
