/** The key of a line, and the order of lines. */
module SortKeys {
  import opened SortNumbers

  type Line = seq<Byte>

  /** -n, -r, -t (-1: fields are separated by blanks) and -k (0: not given) */
  datatype Options = Options(numeric: bool, reverse: bool, separator: int, first: nat, last: nat)

  // ----- Fields -----

  /** The text is of signed chars, the separator 0 to 255 or -1 */
  predicate Separates(o: Options, c: Byte) {
    o.separator >= 0 && (if c < 128 then c else c - 256) == o.separator
  }

  function NextSeparator(o: Options, line: Line, at: nat): (r: nat)
    requires at <= |line|
    ensures at <= r <= |line| && (forall k | at <= k < r :: !Separates(o, line[k]))
    ensures r < |line| ==> Separates(o, line[r])
    decreases |line| - at
  {
    if at < |line| && !Separates(o, line[at]) then NextSeparator(o, line, at + 1) else at
  }

  function NextBlank(line: Line, at: nat): (r: nat)
    requires at <= |line|
    ensures at <= r <= |line| && (forall k | at <= k < r :: !Blank(line[k])) && (r < |line| ==> Blank(line[r]))
    decreases |line| - at
  {
    if at < |line| && !Blank(line[at]) then NextBlank(line, at + 1) else at
  }

  /** Where the field that starts at `at` ends */
  function EndFrom(o: Options, line: Line, at: nat): (r: nat)
    requires at <= |line|
    ensures at <= r <= |line|
  {
    if o.separator >= 0 then NextSeparator(o, line, at) else NextBlank(line, SkipBlanks(line, at))
  }

  /** Where field `n` starts; the line's end if it has fewer */
  function StartOf(o: Options, line: Line, n: nat): (r: nat)
    ensures r <= |line|
  {
    if n <= 1 then 0
    else
      var end := EndFrom(o, line, StartOf(o, line, n - 1));
      if o.separator >= 0 && end < |line| then end + 1 else end
  }

  /** The loops of field_start and field_end */
  method SkipField(o: Options, line: Line, start: nat) returns (at: nat)
    requires start <= |line|
    ensures at == EndFrom(o, line, start)
  {
    hide NextSeparator, NextBlank, SkipBlanks, Separates;
    at := start;
    if o.separator >= 0 {
      while at < |line| && !Separates(o, line[at])
        invariant start <= at <= |line| && forall k | start <= k < at :: !Separates(o, line[k])
      {
        at := at + 1;
      }
      SameSeparator(o, line, start, at);
    } else {
      while at < |line| && Blank(line[at])
        invariant start <= at <= |line| && forall k | start <= k < at :: Blank(line[k])
      {
        at := at + 1;
      }
      SameBlanks(line, start, at);
      ghost var word := at;
      while at < |line| && !Blank(line[at])
        invariant word <= at <= |line| && forall k | word <= k < at :: !Blank(line[k])
      {
        at := at + 1;
      }
      SameWord(line, word, at);
    }
  }

  lemma SameSeparator(o: Options, line: Line, start: nat, at: nat)
    requires start <= at <= |line| && (forall k | start <= k < at :: !Separates(o, line[k]))
    requires at < |line| ==> Separates(o, line[at])
    ensures NextSeparator(o, line, start) == at
  {
    hide Separates;
    var r := NextSeparator(o, line, start);
    if r < at {
      assert false;
    }
    if at < r {
      assert false;
    }
  }

  lemma SameBlanks(line: Line, start: nat, at: nat)
    requires start <= at <= |line| && (forall k | start <= k < at :: Blank(line[k]))
    requires at < |line| ==> !Blank(line[at])
    ensures SkipBlanks(line, start) == at
  {
    hide Blank;
    var r := SkipBlanks(line, start);
    if r < at {
      assert false;
    }
    if at < r {
      assert false;
    }
  }

  lemma SameWord(line: Line, start: nat, at: nat)
    requires start <= at <= |line| && (forall k | start <= k < at :: !Blank(line[k]))
    requires at < |line| ==> Blank(line[at])
    ensures NextBlank(line, start) == at
  {
    hide Blank;
    var r := NextBlank(line, start);
    if r < at {
      assert false;
    }
    if at < r {
      assert false;
    }
  }

  /** field_start */
  method FieldStart(o: Options, line: Line, n: nat) returns (at: nat)
    ensures at == StartOf(o, line, n)
  {
    hide EndFrom;
    at := 0;
    var field := 1;
    while field < n
      invariant 1 <= field && (if n == 0 then field == 1 else field <= n) && at == StartOf(o, line, field)
    {
      at := SkipField(o, line, at);
      field := field + 1;
      if at == |line| {
        AtTheEnd(o, line, field, n);
        return;
      }
      if o.separator >= 0 {
        at := at + 1;
      }
    }
  }

  /** After the last field there are only empty ones */
  lemma {:induction false} AtTheEnd(o: Options, line: Line, m: nat, n: nat)
    requires 1 <= m <= n && StartOf(o, line, m) == |line|
    ensures StartOf(o, line, n) == |line|
  {
    hide EndFrom;
    if m < n {
      AtTheEnd(o, line, m, n - 1);
    }
  }

  function CountSeparators(o: Options, line: Line): nat {
    if line == [] then 0
    else CountSeparators(o, line[..|line| - 1]) + if Separates(o, line[|line| - 1]) then 1 else 0
  }

  lemma {:induction false} CountOver(o: Options, line: Line, at: nat, end: nat)
    requires at <= end <= |line| && forall k | at <= k < end :: !Separates(o, line[k])
    ensures CountSeparators(o, line[..end]) == CountSeparators(o, line[..at])
    decreases end
  {
    if at < end {
      CountOver(o, line, at, end - 1);
      assert line[..end][..end - 1] == line[..end - 1];
    }
  }

  lemma {:induction false} CountGrows(o: Options, line: Line, at: nat)
    requires at <= |line|
    ensures CountSeparators(o, line[..at]) <= CountSeparators(o, line)
    decreases |line| - at
  {
    if at < |line| {
      CountGrows(o, line, at + 1);
      assert line[..at + 1][..at] == line[..at];
    } else {
      assert line[..at] == line;
    }
  }

  /** With -t, field `n` starts just after the line's separator number `n - 1`, if
      the line has so many, and at the line's end otherwise */
  lemma {:induction false} FieldsAreSeparated(o: Options, line: Line, n: nat)
    requires o.separator >= 0 && n >= 1
    ensures var start := StartOf(o, line, n);
            if n - 1 <= CountSeparators(o, line)
            then CountSeparators(o, line[..start]) == n - 1 && (n > 1 ==> start > 0 && Separates(o, line[start - 1]))
            else start == |line|
  {
    hide Separates, StartOf, EndFrom, CountSeparators, NextSeparator;
    if n == 1 {
      FirstField(o, line);
    } else {
      FieldsAreSeparated(o, line, n - 1);
      var start := StartOf(o, line, n - 1);
      var end := NextSeparator(o, line, start);
      NextField(o, line, n);
      CountOver(o, line, start, end);
      if end < |line| {
        CountGrows(o, line, end + 1);
        CountOne(o, line, end);
      } else {
        assert line[..end] == line;
      }
    }
  }

  /** The bytes that separate are those equal to the separator exactly if it is at most
      127 */
  lemma SeparatorIsFound(o: Options)
    requires 0 <= o.separator < 256
    ensures (forall c: Byte :: Separates(o, c) <==> c == o.separator) <==> o.separator <= 127
  {
    var c: Byte := o.separator;
    assert Separates(o, c) <==> c <= 127;
  }

  /** Above that there is none, and every line is one field */
  lemma {:induction false} OneField(o: Options, line: Line, n: nat)
    requires o.separator > 127
    ensures EndFrom(o, line, 0) == |line| && StartOf(o, line, n) == if n <= 1 then 0 else |line|
  {
    hide NextSeparator;
    SameSeparator(o, line, 0, |line|);
    if n > 2 {
      OneField(o, line, n - 1);
    }
  }

  lemma FirstField(o: Options, line: Line)
    ensures StartOf(o, line, 1) == 0 && CountSeparators(o, line[..0]) == 0
  {
  }

  lemma NextField(o: Options, line: Line, n: nat)
    requires o.separator >= 0 && n > 1
    ensures var end := NextSeparator(o, line, StartOf(o, line, n - 1));
            StartOf(o, line, n) == if end < |line| then end + 1 else |line|
  {
    hide NextSeparator;
  }

  lemma CountOne(o: Options, line: Line, at: nat)
    requires at < |line| && Separates(o, line[at])
    ensures CountSeparators(o, line[..at + 1]) == CountSeparators(o, line[..at]) + 1
  {
    hide Separates;
    assert line[..at + 1][..at] == line[..at];
  }

  /** A word starts at a byte that is not a blank and has none before it but blanks */
  predicate WordStarts(line: Line, i: nat)
    requires i < |line|
  {
    !Blank(line[i]) && (i == 0 || Blank(line[i - 1]))
  }

  /** The words that start in the first `n` bytes */
  function CountWords(line: Line, n: nat): nat
    requires n <= |line|
  {
    if n == 0 then 0 else CountWords(line, n - 1) + if WordStarts(line, n - 1) then 1 else 0
  }

  lemma {:induction false} NoWordsIn(line: Line, at: nat, end: nat)
    requires at <= end <= |line| && forall k | at <= k < end :: !WordStarts(line, k)
    ensures CountWords(line, end) == CountWords(line, at)
    decreases end
  {
    hide WordStarts;
    if at < end {
      NoWordsIn(line, at, end - 1);
    }
  }

  /** A field without -t is the blanks before a word, and the word */
  lemma OneWordIn(o: Options, line: Line, at: nat)
    requires o.separator < 0 && at <= |line| && (0 < at < |line| ==> Blank(line[at]))
    ensures var end := EndFrom(o, line, at);
            && (end < |line| ==> Blank(line[end]))
            && CountWords(line, end) == CountWords(line, at) + if SkipBlanks(line, at) < |line| then 1 else 0
  {
    hide SkipBlanks, NextBlank;
    var word := SkipBlanks(line, at);
    var end := NextBlank(line, word);
    NoWordsIn(line, at, word);
    if word < |line| {
      assert WordStarts(line, word);
      assert CountWords(line, word + 1) == CountWords(line, word) + 1;
      NoWordsIn(line, word + 1, end);
    }
  }

  lemma {:induction false} WordsGrow(line: Line, at: nat)
    requires at <= |line|
    ensures CountWords(line, at) <= CountWords(line, |line|)
    decreases |line| - at
  {
    if at < |line| {
      WordsGrow(line, at + 1);
    }
  }

  /** Without -t, field `n` starts right after the line's word number `n - 1`, with a
      blank, if the line has so many, and at the line's end otherwise */
  lemma {:induction false} FieldsAreWords(o: Options, line: Line, n: nat)
    requires o.separator < 0 && n >= 1
    ensures var start := StartOf(o, line, n);
            && (0 < start < |line| ==> Blank(line[start]))
            && if n - 1 <= CountWords(line, |line|) then CountWords(line, start) == n - 1 else start == |line|
  {
    hide CountWords, EndFrom, SkipBlanks;
    if n == 1 {
      NoWords(line);
    } else {
      FieldsAreWords(o, line, n - 1);
      var start := StartOf(o, line, n - 1);
      OneWordIn(o, line, start);
      WordsGrow(line, EndFrom(o, line, start));
      if SkipBlanks(line, start) == |line| {
        NoMoreWords(o, line, start);
      }
    }
  }

  lemma NoWords(line: Line)
    ensures CountWords(line, 0) == 0
  {
  }

  lemma NoMoreWords(o: Options, line: Line, at: nat)
    requires o.separator < 0 && at <= |line| && SkipBlanks(line, at) == |line|
    ensures EndFrom(o, line, at) == |line| && CountWords(line, |line|) == CountWords(line, at)
  {
    hide SkipBlanks;
    NoWordsIn(line, at, |line|);
  }

  // ----- Keys -----

  /** From field `first` to field `last`, or to the end */
  function KeyOf(o: Options, line: Line): seq<Byte> {
    if o.first == 0 then line
    else
      var start := StartOf(o, line, o.first);
      var end := if o.last != 0 then EndFrom(o, line, StartOf(o, line, o.last)) else |line|;
      line[start..if end < start then start else end]
  }

  /** key_of */
  method Key(o: Options, line: Line) returns (key: seq<Byte>)
    ensures key == KeyOf(o, line)
  {
    hide StartOf, EndFrom;
    if o.first == 0 {
      return line;
    }
    var start := FieldStart(o, line, o.first);
    var end := |line|;
    if o.last != 0 {
      end := FieldStart(o, line, o.last);
      end := SkipField(o, line, end);
    }
    if end < start {
      end := start;
    }
    key := line[start..end];
  }

  // ----- The order -----

  /** Byte order: the first byte that differs decides, then the length */
  function Lex(a: seq<Byte>, b: seq<Byte>): int {
    if a == [] then (if b == [] then 0 else -1)
    else if b == [] then 1
    else if a[0] < b[0] then -1
    else if a[0] > b[0] then 1
    else Lex(a[1..], b[1..])
  }

  function KeyOrder(o: Options, a: Line, b: Line): int {
    if o.numeric then Order(Value(KeyOf(o, a)), Value(KeyOf(o, b))) else Lex(KeyOf(o, a), KeyOf(o, b))
  }

  function LineOrder(o: Options, a: Line, b: Line): int {
    if o.reverse then -KeyOrder(o, a, b) else KeyOrder(o, a, b)
  }

  lemma {:induction false} LexIsMemcmp(a: seq<Byte>, b: seq<Byte>)
    ensures var n := if |a| < |b| then |a| else |b|;
            var c := Memcmp(a, b, n);
            Lex(a, b) == if c != 0 then c else if |a| < |b| then -1 else if |a| > |b| then 1 else 0
  {
    if a != [] && b != [] && a[0] == b[0] {
      LexIsMemcmp(a[1..], b[1..]);
    }
  }

  /** compare_keys */
  method CompareKeys(o: Options, a: Line, b: Line) returns (c: int)
    ensures c == KeyOrder(o, a, b)
  {
    hide KeyOf, Value, Lex, Memcmp;
    var x := Key(o, a);
    var y := Key(o, b);
    if o.numeric {
      c := CompareNumbers(x, y);
    } else {
      var n := if |x| < |y| then |x| else |y|;
      LexIsMemcmp(x, y);
      c := Memcmp(x, y, n);
      if c == 0 {
        c := if |x| < |y| then -1 else if |x| > |y| then 1 else 0;
      }
    }
  }

  /** compare */
  method Compare(o: Options, a: Line, b: Line) returns (c: int)
    ensures c == LineOrder(o, a, b)
  {
    hide KeyOrder;
    c := CompareKeys(o, a, b);
    if o.reverse {
      c := -c;
    }
  }

  lemma {:induction false} LexTurns(a: seq<Byte>, b: seq<Byte>)
    ensures Lex(b, a) == -Lex(a, b)
  {
    if a != [] && b != [] && a[0] == b[0] {
      LexTurns(a[1..], b[1..]);
    }
  }

  lemma {:induction false} LexChains(a: seq<Byte>, b: seq<Byte>, c: seq<Byte>)
    requires Lex(a, b) <= 0 && Lex(b, c) <= 0
    ensures Lex(a, c) <= 0
    ensures Lex(a, b) < 0 || Lex(b, c) < 0 ==> Lex(a, c) < 0
  {
    if a != [] && b != [] && c != [] && a[0] == b[0] == c[0] {
      LexChains(a[1..], b[1..], c[1..]);
    }
  }

  /** Any two lines are in order one way, the other, or both */
  lemma OrderTurns(o: Options, a: Line, b: Line)
    ensures LineOrder(o, b, a) == -LineOrder(o, a, b)
    ensures LineOrder(o, a, a) == 0
  {
    hide KeyOf, Value, Lex;
    LexTurns(KeyOf(o, a), KeyOf(o, b));
    LexTurns(KeyOf(o, a), KeyOf(o, a));
  }

  /** and the order carries over; strictly, if either step is strict */
  lemma OrderChains(o: Options, a: Line, b: Line, c: Line)
    requires LineOrder(o, a, b) <= 0 && LineOrder(o, b, c) <= 0
    ensures LineOrder(o, a, c) <= 0
    ensures LineOrder(o, a, b) < 0 || LineOrder(o, b, c) < 0 ==> LineOrder(o, a, c) < 0
  {
    hide KeyOf, Value, Lex;
    if !o.numeric {
      var x, y, z := KeyOf(o, a), KeyOf(o, b), KeyOf(o, c);
      if o.reverse {
        LexTurns(x, y);
        LexTurns(y, z);
        LexTurns(x, z);
        LexChains(z, y, x);
      } else {
        LexChains(x, y, z);
      }
    }
  }
}
