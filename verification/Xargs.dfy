/** xargs: words read a byte at a time into one buffer, packed into another, and passed
    on as strings that end at a NUL.
 */
module Xargs {
  import opened XargsWords

  // ----- Strings in a buffer -----

  /** The words one after another, each with its NUL */
  function Packed(line: seq<Word>): (r: seq<Byte>)
    ensures |r| == Size(line)
  {
    if line == [] then [] else Packed(line[..|line| - 1]) + line[|line| - 1] + [NUL]
  }

  lemma PackedMore(line: seq<Word>, w: Word)
    ensures Packed(line + [w]) == Packed(line) + w + [NUL]
  {
    assert (line + [w])[..|line|] == line;
  }

  /** What a command sees of a string: the bytes before its first NUL */
  function StringAt(text: seq<Byte>, at: nat): seq<Byte>
    requires at <= |text|
    decreases |text| - at
  {
    if at == |text| || text[at] == NUL then [] else [text[at]] + StringAt(text, at + 1)
  }

  function Cut(w: Word): Word {
    if w == [] || w[0] == NUL then [] else [w[0]] + Cut(w[1..])
  }

  lemma {:induction false} CutWhole(w: Word)
    ensures Cut(w) == w <==> NUL !in w
  {
    if w != [] {
      CutWhole(w[1..]);
      assert w == [w[0]] + w[1..];
    }
  }

  function CutLine(line: seq<Word>): seq<Word> {
    seq(|line|, i requires 0 <= i < |line| => Cut(line[i]))
  }

  lemma {:induction false} StringIsCut(text: seq<Byte>, at: nat, w: Word)
    requires at + |w| < |text| && text[at..at + |w|] == w && text[at + |w|] == NUL
    ensures StringAt(text, at) == Cut(w)
    decreases |w|
  {
    if w != [] {
      assert text[at] == w[0];
      assert text[at + 1..at + 1 + |w[1..]|] == w[1..];
      StringIsCut(text, at + 1, w[1..]);
    }
  }

  /** Where each word of a line starts */
  function Starts(line: seq<Word>): seq<nat> {
    if line == [] then [] else Starts(line[..|line| - 1]) + [Size(line[..|line| - 1])]
  }

  lemma StartsMore(line: seq<Word>, w: Word)
    ensures Starts(line + [w]) == Starts(line) + [Size(line)]
  {
    assert (line + [w])[..|line|] == line;
  }

  /** The strings of a packed line are its words, cut at their NULs */
  lemma {:induction false} StringsOfLine(line: seq<Word>, i: nat, more: seq<Byte>)
    requires i < |line|
    ensures |Starts(line)| == |line| && Starts(line)[i] <= Size(line)
    ensures StringAt(Packed(line) + more, Starts(line)[i]) == Cut(line[i])
    decreases |line|
  {
    var n := |line| - 1;
    var before, w := line[..n], line[n];
    assert line == before + [w];
    PackedMore(before, w);
    StartsMore(before, w);
    SizeMore(before, w);
    if n > 0 {
      StringsOfLine(before, if i < n then i else 0, w + [NUL] + more);
    }
    assert Packed(line) + more == Packed(before) + (w + [NUL] + more);
    if i == n {
      StringIsCut(Packed(line) + more, Size(before), w);
    }
  }

  // ----- What xargs exits with -----

  predicate Fatal(s: int) {
    s == 126 || s == 127 || s < 0
  }

  /** finish_line's rule, over the results of all runs */
  function StatusOf(results: seq<int>): int {
    if results == [] then 0
    else
      var last := results[|results| - 1];
      if Fatal(last) then (if last < 0 then 1 else last)
      else if last != 0 then 123
      else StatusOf(results[..|results| - 1])
  }

  lemma StatusMore(results: seq<int>, s: int)
    ensures StatusOf(results + [s]) ==
            if Fatal(s) then (if s < 0 then 1 else s) else if s != 0 then 123 else StatusOf(results)
  {
    assert (results + [s])[..|results|] == results;
  }

  /** As runs stop with the first fatal result: 126 and 127 are passed on, a command that was
      killed or could not be started is 1, any other that failed 123 */
  lemma {:induction false} StatusIs(results: seq<int>)
    requires forall i | 0 <= i < |results| - 1 :: !Fatal(results[i])
    ensures forall i | 0 <= i < |results| - 1 :: results[i] >= 0 && results[i] != 126 && results[i] != 127
    ensures var last := if results == [] then 0 else results[|results| - 1];
            StatusOf(results) ==
            if last == 126 || last == 127 then last else if last < 0 then 1
            else if exists i :: 0 <= i < |results| && results[i] != 0 then 123 else 0
  {
    if results != [] && results[|results| - 1] == 0 {
      var rest := results[..|results| - 1];
      StatusIs(rest);
      assert rest != [] ==> !Fatal(rest[|rest| - 1]);
    }
  }

  datatype Outcome = Done | Stopped | TooLong | ReadError

  class Builder {
    const limits: Limits
    /** What the run of each number would come to */
    const result: nat -> int
    var lineText: array<Byte>
    var lineUsed: nat
    var args: seq<nat>
    var pending: array<Byte>
    var pendingLength: nat
    var status: int
    /** The lines run, as the commands see them */
    var ran: seq<seq<Word>>
    ghost var line: seq<Word>
    ghost var runs: seq<seq<Word>>
    ghost var results: seq<int>

    ghost predicate Buffers()
      reads this, lineText, pending
    {
      && limits.Valid() && lineText != pending
      && lineText.Length == ARG_BYTES && pending.Length == ARG_BYTES
      && lineUsed == Size(line) <= limits.room && lineText[..lineUsed] == Packed(line) && args == Starts(line)
      && pendingLength < limits.room && NoBlank(pending[..pendingLength])
    }

    ghost predicate Records()
      reads this
    {
      && |ran| == |runs| == |results|
      && (forall i | 0 <= i < |runs| :: ran[i] == CutLine(runs[i]))
      && (forall i | 0 <= i < |results| :: results[i] == result(i))
      && (forall i | 0 <= i < |results| - 1 :: !Fatal(results[i]))
      && status == StatusOf(results)
    }

    /** No run has ended so that no more follow */
    ghost predicate Going()
      reads this
    {
      forall i | 0 <= i < |results| :: !Fatal(results[i])
    }

    ghost predicate Valid()
      reads this, lineText, pending
    {
      Buffers() && Records() && Going() && Building(limits, runs, line)
    }

    ghost function Pending(): seq<Byte>
      requires Buffers()
      reads this, lineText, pending
    {
      pending[..pendingLength]
    }

    constructor (limits: Limits, result: nat -> int)
      requires limits.Valid()
      ensures Valid() && fresh(lineText) && fresh(pending) && this.limits == limits && this.result == result
      ensures line == [] && runs == [] && pendingLength == 0
    {
      this.limits := limits;
      this.result := result;
      lineText := new Byte[ARG_BYTES];
      pending := new Byte[ARG_BYTES];
      lineUsed, args, pendingLength, status, ran := 0, [], 0, 0, [];
      line, runs, results := [], [], [];
    }

    /** run_line's argument strings */
    method Strings() returns (strings: seq<Word>)
      requires Buffers()
      ensures strings == CutLine(line)
    {
      hide Starts, Packed, StringAt, Cut;
      strings := [];
      StartsLength(line);
      for i := 0 to |args|
        invariant |strings| == i && forall k | 0 <= k < i :: strings[k] == Cut(line[k])
      {
        StringsOfLine(line, i, lineText[lineUsed..]);
        assert lineText[..] == Packed(line) + lineText[lineUsed..];
        strings := strings + [StringAt(lineText[..], args[i])];
      }
    }

    /** finish_line */
    method FinishLine() returns (go: bool)
      requires Buffers() && Records() && Going()
      modifies this
      ensures Buffers() && Records() && (go ==> Going()) && lineText == old(lineText) && pending == old(pending)
      ensures pendingLength == old(pendingLength)
      ensures line == [] && runs == old(runs) + [old(line)] && results == old(results) + [result(|old(runs)|)]
      ensures go <==> !Fatal(result(|old(runs)|))
    {
      hide Starts, Packed, Size, CutLine, StatusOf, NoBlank;
      var strings := Strings();
      var s := result(|ran|);
      StatusMore(results, s);
      EmptyLine();
      ran := ran + [strings];
      runs, line, results := runs + [line], [], results + [s];
      args, lineUsed := [], 0;
      assert lineText[..0] == [];
      if Fatal(s) {
        status := if s < 0 then 1 else s;
        return false;
      }
      if s != 0 {
        status := 123;
      }
      go := true;
    }

    /** The word into the line */
    method Add()
      requires Buffers() && Records() && 0 < pendingLength && lineUsed + pendingLength + 1 <= limits.room
      modifies this, lineText
      ensures Buffers() && Records() && lineText == old(lineText) && pending == old(pending)
      ensures line == old(line) + [old(Pending())] && runs == old(runs) && results == old(results) && pendingLength == 0
    {
      hide Starts, Packed, CutLine, StatusOf, NoBlank;
      ghost var w, was := pending[..pendingLength], lineText[..lineUsed];
      PackedMore(line, w);
      StartsMore(line, w);
      SizeMore(line, w);
      CopyWord();
      line := line + [w];
      args := args + [lineUsed];
      lineUsed := lineUsed + pendingLength + 1;
      pendingLength := 0;
      NoBlankInNothing(pending[..0]);
    }

    method CopyWord()
      requires lineText != pending && lineUsed + pendingLength < lineText.Length && pendingLength <= pending.Length
      modifies lineText
      ensures lineText[..lineUsed + pendingLength + 1] == old(lineText[..lineUsed]) + pending[..pendingLength] + [NUL]
    {
      for i := 0 to pendingLength
        invariant lineText[..lineUsed + i] == old(lineText[..lineUsed]) + pending[..i]
      {
        lineText[lineUsed + i] := pending[i];
      }
      ghost var before := lineText[..lineUsed + pendingLength];
      lineText[lineUsed + pendingLength] := NUL;
      assert lineText[..lineUsed + pendingLength + 1] == before + [NUL];
    }

    /** The words passed on and those of the line being built */
    ghost function Taken(): seq<Word>
      reads this
    {
      Concat(runs) + line
    }

    /** The lines run are a packing, and the last could not be started */
    ghost predicate Halted()
      reads this
    {
      Records() && Packing(limits, runs) && results != [] && Fatal(results[|results| - 1])
    }

    /** end_word */
    method EndWord() returns (go: bool)
      requires Valid()
      modifies this, lineText
      ensures lineText == old(lineText) && pending == old(pending)
      ensures go ==> Valid() && pendingLength == 0 && Taken() == old(Taken()) + IfAny(old(Pending()))
      ensures !go ==> Halted() && Concat(runs) == old(Taken())
    {
      hide Size, Packed, Starts, Concat, NoBlank, Packing, CutLine, StatusOf;
      if pendingLength == 0 {
        return true;
      }
      ghost var w := Pending();
      FitsMore(limits, line, w);
      StartsLength(line);
      if |args| >= limits.maxWords || limits.fixedCount + |args| >= MAX_ARGS
        || lineUsed + pendingLength + 1 > limits.room {
        BuiltIsPacking(limits, runs, line);
        BuildNext(limits, runs, line, w);
        ConcatMore(runs, line);
        go := FinishLine();
        if !go {
          return;
        }
        EmptyLine();
        Add();
      } else {
        BuildMore(limits, runs, line, w);
        Add();
      }
      go := true;
      assert line == [w] || line == old(line) + [w];
    }

    /** One byte of the input: with a blank a word ends, or it is too long, or it goes on */
    method Put(b: Byte) returns (outcome: Outcome)
      requires Valid()
      modifies this, lineText, pending
      ensures lineText == old(lineText) && pending == old(pending)
      ensures outcome == Done ==> Valid()
      ensures outcome == Done && Blank(b) ==> Pending() == [] && Taken() == old(Taken()) + IfAny(old(Pending()))
      ensures outcome == Done && !Blank(b) ==> Pending() == old(Pending()) + [b] && Taken() == old(Taken())
      ensures outcome == Stopped ==> Blank(b) && Halted() && Concat(runs) == old(Taken())
      ensures outcome == TooLong ==>
              Valid() && Taken() == old(Taken()) && !Blank(b) && |old(Pending())| + 2 > limits.room
      ensures outcome != ReadError
    {
      hide Size, Packed, Starts, Concat, Packing, CutLine, StatusOf, Building;
      if Blank(b) {
        var go := EndWord();
        return if go then Done else Stopped;
      }
      if pendingLength + 2 > limits.room {
        return TooLong;
      }
      ghost var before, text := pending[..pendingLength], lineText[..lineUsed];
      pending[pendingLength] := b;
      pendingLength := pendingLength + 1;
      assert pending[..pendingLength] == before + [b];
      assert lineText[..lineUsed] == text;
      outcome := Done;
    }

    /** Over the input: what was taken, what is pending and what is still to be read
        make up its words */
    ghost predicate OnTheWay(input: seq<Byte>, at: nat)
      reads this, lineText, pending
    {
      at <= |input| && Valid() && Words(input) == Taken() + Words(Pending() + input[at..])
    }

    /** One byte on */
    method PutNext(b: Byte, ghost input: seq<Byte>, ghost at: nat) returns (outcome: Outcome)
      requires at < |input| && input[at] == b && OnTheWay(input, at)
      modifies this, lineText, pending
      ensures lineText == old(lineText) && pending == old(pending)
      ensures outcome == Done ==> OnTheWay(input, at + 1)
      ensures outcome == Stopped ==> Halted() && Concat(runs) <= Words(input)
      ensures outcome == TooLong ==> Records() && Concat(runs) <= Words(input) && HasLongWord(limits, input)
      ensures outcome != ReadError
    {
      hide Words, Buffers, Records, Building, Concat, Packing, IfAny, HasLongWord;
      ghost var w, taken, rest := Pending(), Taken(), input[at + 1..];
      NextByte(input, at, w);
      NoBlankPending();
      if Blank(b) {
        WordsAtBlank(w, b, rest);
        Grouped(taken, IfAny(w), Words(rest));
      }
      outcome := Put(b);
      if outcome == TooLong {
        LongWord(limits, input, taken, w, b, rest);
        PrefixOf(Concat(runs), line, Words(w + [b] + rest));
      }
      assert [] + rest == rest;
    }

    lemma NoBlankPending()
      requires Valid()
      ensures NoBlank(Pending())
    {
    }

    /** What main does at the end of the input */
    method Finish(ghost input: seq<Byte>) returns (outcome: Outcome)
      requires OnTheWay(input, |input|)
      modifies this, lineText
      ensures Records()
      ensures outcome == Done ==> Packing(limits, runs) && Concat(runs) == Words(input)
      ensures outcome == Stopped ==> Halted() && Concat(runs) <= Words(input)
      ensures outcome == Done || outcome == Stopped
    {
      hide Words, Records, Building, Concat, Packing, IfAny, Packed, Size, NoBlank;
      ghost var w, taken := Pending(), Taken();
      NoBlankPending();
      WordsAtEnd(w);
      assert w + input[|input|..] == w;
      var go := EndWord();
      if !go {
        return Stopped;
      }
      StartsLength(line);
      BuiltAll(limits, runs, line);
      if |args| > 0 {
        ConcatMore(runs, line);
        var _ := FinishLine();
      }
      outcome := Done;
    }

    /** What one read gave */
    method PutChunk(chunk: seq<Byte>, ghost input: seq<Byte>, ghost at: nat) returns (outcome: Outcome)
      requires at + |chunk| <= |input| && input[at..at + |chunk|] == chunk && OnTheWay(input, at)
      modifies this, lineText, pending
      ensures lineText == old(lineText) && pending == old(pending)
      ensures outcome == Done ==> OnTheWay(input, at + |chunk|)
      ensures outcome == Stopped ==> Halted() && Concat(runs) <= Words(input)
      ensures outcome == TooLong ==> Records() && Concat(runs) <= Words(input) && HasLongWord(limits, input)
      ensures outcome != ReadError
    {
      hide OnTheWay, Halted, Records, HasLongWord, Words, Concat;
      for i := 0 to |chunk|
        invariant lineText == old(lineText) && pending == old(pending) && OnTheWay(input, at + i)
      {
        assert input[at..at + |chunk|][i] == input[at + i];
        outcome := PutNext(chunk[i], input, at + i);
        if outcome != Done {
          return;
        }
      }
      outcome := Done;
    }

    /** main from the reading loop on. The chunks are what each read gives; a read may
        fail in the end. */
    method Run(chunks: seq<seq<Byte>>, readFails: bool) returns (outcome: Outcome)
      requires Valid() && line == [] && runs == [] && pendingLength == 0
      modifies this, lineText, pending
      ensures Records() && forall i | 0 <= i < |results| - 1 :: !Fatal(results[i])
      ensures outcome == Done ==> !readFails && Packing(limits, runs) && Concat(runs) == Words(Join(chunks))
      ensures outcome == Done ==> (ran == runs <==> 0 !in Join(chunks))
      ensures outcome == Stopped ==> Halted() && Concat(runs) <= Words(Join(chunks))
      ensures outcome == TooLong ==> Concat(runs) <= Words(Join(chunks)) && HasLongWord(limits, Join(chunks))
      ensures outcome == ReadError ==> readFails && Concat(runs) <= Words(Join(chunks))
    {
      hide Words, Buffers, Records, Building, Concat, Packing, Join, HasLongWord;
      ghost var input := Join(chunks);
      ghost var at: nat := 0;
      Begin(chunks);
      for c := 0 to |chunks|
        invariant lineText == old(lineText) && pending == old(pending)
        invariant OnTheWay(input, at) && at == |Join(chunks[..c])|
      {
        JoinIs(chunks, c);
        outcome := PutChunk(chunks[c], input, at);
        if outcome != Done {
          LastIsFatal();
          return;
        }
        at := at + |chunks[c]|;
      }
      assert chunks[..|chunks|] == chunks;
      if readFails {
        PrefixOf(Concat(runs), line, Words(Pending() + input[at..]));
        LastIsFatal();
        return ReadError;
      }
      outcome := Finish(input);
      LastIsFatal();
      if outcome == Done {
        RanIsRuns();
        WordsArriveWhole(runs, input);
      }
    }

    lemma LastIsFatal()
      requires Records()
      ensures forall i | 0 <= i < |results| - 1 :: !Fatal(results[i])
    {
    }

    lemma RanIsRuns()
      requires Records()
      ensures ran == runs <==> forall i | 0 <= i < |runs| :: CutLine(runs[i]) == runs[i]
    {
      hide CutLine, StatusOf;
    }
  }

  function Join(chunks: seq<seq<Byte>>): seq<Byte> {
    if chunks == [] then [] else chunks[0] + Join(chunks[1..])
  }

  lemma {:induction false} JoinSplits(chunks: seq<seq<Byte>>, c: nat)
    requires c <= |chunks|
    ensures Join(chunks) == Join(chunks[..c]) + Join(chunks[c..])
  {
    if c == 0 {
      assert chunks[..0] == [] && chunks[0..] == chunks;
    } else {
      JoinSplits(chunks[1..], c - 1);
      assert chunks[1..][..c - 1] == chunks[..c][1..] && chunks[1..][c - 1..] == chunks[c..];
    }
  }

  lemma JoinIs(chunks: seq<seq<Byte>>, c: nat)
    requires c < |chunks|
    ensures var at := |Join(chunks[..c])|;
            && |Join(chunks[..c + 1])| == at + |chunks[c]| <= |Join(chunks)|
            && Join(chunks)[at..at + |chunks[c]|] == chunks[c]
  {
    JoinSplits(chunks, c);
    JoinSplits(chunks, c + 1);
    JoinSplits(chunks[..c + 1], c);
    assert chunks[..c + 1][..c] == chunks[..c] && chunks[..c + 1][c..] == [chunks[c]];
    assert Join([chunks[c]]) == chunks[c] + Join([]);
    assert Join(chunks[..c + 1]) == Join(chunks[..c]) + chunks[c];
  }

  lemma Begin(chunks: seq<seq<Byte>>)
    ensures |Join(chunks[..0])| == 0 && Concat([]) == [] && [] + Join(chunks)[0..] == Join(chunks)
  {
  }

  ghost predicate HasLongWord(l: Limits, input: seq<Byte>) {
    exists w :: w in Words(input) && |w| + 1 > l.room
  }

  lemma NextByte(input: seq<Byte>, at: nat, w: Word)
    requires at < |input|
    ensures w + input[at..] == w + [input[at]] + input[at + 1..]
    ensures w + [input[at]] + input[at + 1..] == (w + [input[at]]) + input[at + 1..]
  {
  }

  lemma Grouped(a: seq<Word>, b: seq<Word>, c: seq<Word>)
    ensures a + (b + c) == (a + b) + c
  {
  }

  lemma PrefixOf(a: seq<Word>, b: seq<Word>, c: seq<Word>)
    ensures a <= (a + b) + c
  {
  }

  lemma LongWord(l: Limits, input: seq<Byte>, taken: seq<Word>, w: Word, b: Byte, rest: seq<Byte>)
    requires NoBlank(w) && !Blank(b) && |w| + 2 > l.room && Words(input) == taken + Words(w + [b] + rest)
    ensures HasLongWord(l, input)
  {
    var s := w + [b] + rest;
    var v := s[..WordEnd(s)];
    forall i | 0 <= i <= |w|
      ensures !Blank(s[i])
    {
      assert s[i] == if i < |w| then w[i] else b;
    }
    assert WordEnd(s) > |w|;
    assert Words(s)[0] == v;
    assert Words(input)[|taken|] == v;
  }

  lemma BuiltAll(l: Limits, runs: seq<seq<Word>>, line: seq<Word>)
    requires Building(l, runs, line)
    ensures if line == [] then runs == [] && Packing(l, []) else Packing(l, runs + [line])
  {
  }

  lemma FitsMore(l: Limits, line: seq<Word>, w: Word)
    ensures Fits(l, line + [w]) <==>
            |line| < l.maxWords && l.fixedCount + |line| < MAX_ARGS && Size(line) + |w| + 1 <= l.room
    ensures l.Valid() && |w| + 1 <= l.room ==> Fits(l, [w]) && Fits(l, [] + [w])
  {
    SizeMore(line, w);
    SizeMore([], w);
    assert [] + [w] == [w];
  }

  /** What does not fit comes after something */
  lemma BuiltIsPacking(l: Limits, runs: seq<seq<Word>>, line: seq<Word>)
    requires Building(l, runs, line)
    ensures line != [] ==> Packing(l, runs + [line])
  {
  }

  lemma {:induction false} StartsLength(line: seq<Word>)
    ensures |Starts(line)| == |line| && forall i | 0 <= i < |line| :: Starts(line)[i] <= Size(line)
  {
    if line != [] {
      StartsLength(line[..|line| - 1]);
    }
  }

  lemma EmptyLine()
    ensures Starts([]) == [] && Packed([]) == [] && Size([]) == 0
  {
  }

  lemma NoBlankInNothing(s: seq<Byte>)
    requires s == []
    ensures NoBlank(s)
  {
  }

  // ----- The fixed part -----

  /** What main works out first: there is room if the command has at most 31 arguments
      and they and the environment leave a byte */
  method Setup(environment: seq<Word>, fixed: seq<Word>, maxWords: nat) returns (ok: bool, limits: Limits)
    requires maxWords >= 1
    ensures ok <==> |fixed| < 32 && Size(environment) + Size(fixed) < 4096
    ensures ok ==> limits == Limits(|fixed|, 4096 - Size(environment) - Size(fixed), maxWords) && limits.Valid()
  {
    hide Size;
    var used := 0;
    EmptyLine();
    assert environment[..0] == [] && fixed[..0] == [];
    for i := 0 to |environment|
      invariant used == Size(environment[..i])
    {
      SizeNext(environment, i);
      used := used + |environment[i]| + 1;
    }
    assert environment[..|environment|] == environment;
    var count := 0;
    while count < |fixed| && count < MAX_ARGS - 1
      invariant 0 <= count <= |fixed| && count < MAX_ARGS && used == Size(environment) + Size(fixed[..count])
    {
      SizeNext(fixed, count);
      used := used + |fixed[count]| + 1;
      count := count + 1;
    }
    limits := Limits(0, 1, 1);
    assert fixed[..|fixed|] == fixed;
    if count < |fixed| || used >= ARG_BYTES {
      return false, limits;
    }
    return true, Limits(count, ARG_BYTES - used, maxWords);
  }

  lemma SizeNext(line: seq<Word>, i: nat)
    requires i < |line|
    ensures Size(line[..i + 1]) == Size(line[..i]) + |line[i]| + 1
  {
    assert line[..i + 1] == line[..i] + [line[i]];
    SizeMore(line[..i], line[i]);
  }

  /** Every line of a packing is one that execve takes: at most 32 arguments, and at
      most 4096 bytes with the environment; no more words than asked, and one at least */
  lemma EveryRunIsTaken(environment: seq<Word>, fixed: seq<Word>, maxWords: nat, runs: seq<seq<Word>>, i: nat)
    requires maxWords >= 1 && |fixed| < 32 && Size(environment) + Size(fixed) < 4096 && i < |runs|
    requires Packing(Limits(|fixed|, 4096 - Size(environment) - Size(fixed), maxWords), runs)
    ensures 1 <= |runs[i]| <= maxWords
    ensures |fixed + runs[i]| <= 32 && Size(environment) + Size(fixed + runs[i]) <= 4096
  {
    hide Size;
    SizeOfSum(fixed, runs[i]);
  }

  lemma {:induction false} SizeOfSum(a: seq<Word>, b: seq<Word>)
    ensures Size(a + b) == Size(a) + Size(b)
  {
    if b == [] {
      assert a + b == a;
    } else {
      SizeOfSum(a, b[..|b| - 1]);
      assert (a + b)[..|a + b| - 1] == a + b[..|b| - 1];
    }
  }

  lemma CutsNothing(runs: seq<seq<Word>>)
    ensures (forall i | 0 <= i < |runs| :: CutLine(runs[i]) == runs[i]) <==>
            (forall i, j | 0 <= i < |runs| && 0 <= j < |runs[i]| :: NUL !in runs[i][j])
  {
    hide Cut;
    forall i, j | 0 <= i < |runs| && 0 <= j < |runs[i]|
      ensures CutLine(runs[i])[j] == runs[i][j] <==> NUL !in runs[i][j]
    {
      CutWhole(runs[i][j]);
    }
  }

  predicate NoNul(words: seq<Word>) {
    forall j | 0 <= j < |words| :: NUL !in words[j]
  }

  lemma NoNulInSum(a: seq<Word>, b: seq<Word>)
    ensures NoNul(a + b) <==> NoNul(a) && NoNul(b)
  {
    if NoNul(a + b) {
      forall j | 0 <= j < |a|
        ensures NUL !in a[j]
      {
        assert (a + b)[j] == a[j];
      }
      forall j | 0 <= j < |b|
        ensures NUL !in b[j]
      {
        assert (a + b)[|a| + j] == b[j];
      }
    }
  }

  lemma {:induction false} NoNulInRuns(runs: seq<seq<Word>>)
    ensures NoNul(Concat(runs)) <==> forall i | 0 <= i < |runs| :: NoNul(runs[i])
  {
    hide NoNul;
    if runs == [] {
      assert NoNul([]) by { NoNulInNothing(); }
    } else {
      NoNulInRuns(runs[1..]);
      NoNulInSum(runs[0], Concat(runs[1..]));
      assert forall i | 0 < i < |runs| :: runs[i] == runs[1..][i - 1];
    }
  }

  lemma NoNulInNothing()
    ensures NoNul([])
  {
  }

  /** A NUL is no blank: every NUL of a text is in a word of it */
  lemma {:induction false} NoNulInWords(s: seq<Byte>)
    ensures NoNul(Words(s)) <==> NUL !in s
    decreases |s|
  {
    if s != [] {
      if Blank(s[0]) {
        NoNulInWords(s[1..]);
        assert s == [s[0]] + s[1..];
      } else {
        var n := WordEnd(s);
        NoNulInWords(s[n..]);
        NoNulInSum([s[..n]], Words(s[n..]));
        assert s == s[..n] + s[n..];
        assert [s[..n]][0] == s[..n];
      }
    }
  }

  /** The commands get the very words of the input exactly when it has no NUL */
  lemma WordsArriveWhole(runs: seq<seq<Word>>, input: seq<Byte>)
    requires Concat(runs) == Words(input)
    ensures (forall i | 0 <= i < |runs| :: CutLine(runs[i]) == runs[i]) <==> 0 !in input
  {
    hide CutLine, Words, Concat;
    CutsNothing(runs);
    NoNulInRuns(runs);
    NoNulInWords(input);
  }

  /** "a", a NUL and "b" are one word, of which the command sees "a" */
  lemma NulCutsAWord()
    ensures var input: seq<Byte> := [97, 0, 98];
            Words(input) == [input] && CutLine([input]) == [[97]]
  {
    var input: seq<Byte> := [97, 0, 98];
    WordsAtEnd(input);
    assert input[1..][0] == NUL;
    assert Cut(input[1..]) == [];
    assert Cut(input) == [97];
  }
}
