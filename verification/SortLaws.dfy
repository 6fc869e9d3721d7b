/** What keys and their order are, said without the functions that compute them. */
module SortLaws {
  import opened SortNumbers
  import opened SortKeys

  // ----- Where a key ends -----

  /** Field `n` ends just before the line's separator number `n`, or with the line */
  predicate EndsBeforeSeparator(o: Options, line: Line, n: nat, end: nat) {
    && end <= |line|
    && if n - 1 <= CountSeparators(o, line)
       then CountSeparators(o, line[..end]) == n - 1 && (end < |line| ==> Separates(o, line[end]))
       else end == |line|
  }

  lemma FieldEndsBeforeSeparator(o: Options, line: Line, n: nat)
    requires o.separator >= 0 && n >= 1
    ensures EndsBeforeSeparator(o, line, n, EndFrom(o, line, StartOf(o, line, n)))
  {
    hide Separates, StartOf, CountSeparators, NextSeparator;
    var start := StartOf(o, line, n);
    FieldsAreSeparated(o, line, n);
    CountOver(o, line, start, EndFrom(o, line, start));
  }

  /** Without -t field `n` ends right after the line's word number `n`, or with the line */
  predicate EndsAfterWord(line: Line, n: nat, end: nat) {
    && end <= |line|
    && if n <= CountWords(line, |line|)
       then CountWords(line, end) == n && 0 < end && !Blank(line[end - 1]) && (end < |line| ==> Blank(line[end]))
       else end == |line|
  }

  lemma FieldEndsAfterWord(o: Options, line: Line, n: nat)
    requires o.separator < 0 && n >= 1
    ensures EndsAfterWord(line, n, EndFrom(o, line, StartOf(o, line, n)))
  {
    hide StartOf, CountWords, SkipBlanks, NextBlank, Blank;
    var start := StartOf(o, line, n);
    FieldsAreWords(o, line, n);
    OneWordIn(o, line, start);
    if SkipBlanks(line, start) == |line| {
      NoMoreWords(o, line, start);
    } else {
      WordsGrow(line, EndFrom(o, line, start));
      WordIsNotEmpty(line, SkipBlanks(line, start));
    }
  }

  lemma WordIsNotEmpty(line: Line, at: nat)
    requires at < |line| && !Blank(line[at])
    ensures at < NextBlank(line, at) && !Blank(line[NextBlank(line, at) - 1])
  {
    hide Blank;
  }

  /** The key is the bytes from where field `first` starts to where field `last` ends, to the
      line's end without a `last`, and nothing if that comes first; without -k it is the line */
  lemma KeyIs(o: Options, line: Line) returns (start: nat, end: nat)
    ensures start <= |line| && end <= |line|
    ensures KeyOf(o, line) == if o.first == 0 then line else if start <= end then line[start..end] else []
    ensures o.first > 0 ==> start == StartOf(o, line, o.first)
    ensures o.last == 0 ==> end == |line|
    ensures o.last > 0 && o.separator >= 0 ==> EndsBeforeSeparator(o, line, o.last, end)
    ensures o.last > 0 && o.separator < 0 ==> EndsAfterWord(line, o.last, end)
  {
    hide StartOf, EndFrom, EndsBeforeSeparator, EndsAfterWord;
    start := StartOf(o, line, o.first);
    end := |line|;
    if o.last > 0 {
      end := EndFrom(o, line, StartOf(o, line, o.last));
      if o.separator >= 0 {
        FieldEndsBeforeSeparator(o, line, o.last);
      } else {
        FieldEndsAfterWord(o, line, o.last);
      }
    }
  }

  // ----- The order of bytes -----

  /** The first byte that differs is less, or the one text is where the other goes on */
  predicate Before(a: seq<Byte>, b: seq<Byte>, k: nat) {
    && k <= |a| && k < |b| && a[..k] == b[..k]
    && (k < |a| ==> a[k] < b[k])
  }

  lemma {:induction false} LexIs(a: seq<Byte>, b: seq<Byte>)
    ensures Lex(a, b) < 0 <==> exists k: nat :: Before(a, b, k)
    ensures Lex(a, b) == 0 <==> a == b
    ensures -1 <= Lex(a, b) <= 1
  {
    if a == [] {
      if b != [] {
        assert Before(a, b, 0);
      }
    } else if b != [] {
      if a[0] == b[0] {
        LexIs(a[1..], b[1..]);
        SameFirst(a, b);
      } else if a[0] < b[0] {
        assert Before(a, b, 0);
      } else {
        assert forall k: nat :: Before(a, b, k) ==> k == 0 || a[..k][0] == b[..k][0];
      }
    }
  }

  lemma SameFirst(a: seq<Byte>, b: seq<Byte>)
    requires a != [] && b != [] && a[0] == b[0]
    ensures (exists k: nat :: Before(a, b, k)) <==> exists k: nat :: Before(a[1..], b[1..], k)
    ensures a == b <==> a[1..] == b[1..]
  {
    if k: nat :| Before(a, b, k) {
      assert k > 0;
      assert a[1..][..k - 1] == a[..k][1..] && b[1..][..k - 1] == b[..k][1..];
      assert Before(a[1..], b[1..], k - 1);
    }
    if k: nat :| Before(a[1..], b[1..], k) {
      assert a[..k + 1] == [a[0]] + a[1..][..k] && b[..k + 1] == [b[0]] + b[1..][..k];
      assert Before(a, b, k + 1);
    }
    assert a == [a[0]] + a[1..] && b == [b[0]] + b[1..];
  }

  // ----- What a number is worth -----

  lemma BlanksAre(c: Byte)
    ensures Blank(c) <==> c as char in " \t"
    ensures Digit(c) <==> '0' <= c as char <= '9'
  {
    assert c as char in " \t" <==> c as char == ' ' || c as char == '\t';
  }

  /** One more digit: ten times as much, and the digit */
  lemma {:induction false} WholeMore(s: seq<Byte>, d: Byte)
    requires Digits(s) && Digit(d)
    ensures Digits(s + [d]) && Whole(s + [d]) == 10 * Whole(s) + (d - '0' as int)
  {
    if s == [] {
      assert s + [d] == [d] && Pow10(0) == 1;
    } else {
      WholeMore(s[1..], d);
      assert (s + [d])[1..] == s[1..] + [d];
      Tenfold(s[0] - ZERO, Pow10(|s| - 1));
    }
  }

  lemma Tenfold(d: int, p: int)
    ensures d * (10 * p) == 10 * (d * p)
  {
  }

  /** A number in a text: blanks up to `sign`, a minus or none, digits from `whole` to `point`,
      and digits from `fraction` to `end` after a point, or none */
  predicate Parts(s: seq<Byte>, sign: nat, minus: bool, whole: nat, point: nat, fraction: nat, end: nat) {
    && sign <= whole <= point <= fraction <= end <= |s|
    && (forall k | 0 <= k < sign :: Blank(s[k])) && (sign < |s| ==> !Blank(s[sign]))
    && (minus <==> sign < |s| && s[sign] == '-' as int) && whole == (if minus then sign + 1 else sign)
    && Digits(s[whole..point]) && (point < |s| ==> !Digit(s[point]))
    && if point < |s| && s[point] == '.' as int
       then fraction == point + 1 && Digits(s[fraction..end]) && (end < |s| ==> !Digit(s[end]))
       else fraction == end == |s|
  }

  /** Every text is in parts in one way, and worth what they are */
  lemma ValueIs(s: seq<Byte>, sign: nat, minus: bool, whole: nat, point: nat, fraction: nat, end: nat)
    requires Parts(s, sign, minus, whole, point, fraction, end)
    ensures Digits(s[whole..point]) && Digits(s[fraction..end])
    ensures Value(s) == Signed(minus, Whole(s[whole..point]) as real + Fraction(s[fraction..end]))
  {
    hide Whole, Fraction, SkipBlanks, DigitsEnd, Blank;
    SameSkip(s, sign);
    assert forall k | whole <= k < point :: s[whole..point][k - whole] == s[k];
    SameDigitsEnd(s, whole, point);
    assert forall k | fraction <= k < end :: s[fraction..end][k - fraction] == s[k];
    SameDigitsEnd(s, fraction, end);
  }

  lemma EveryTextHasParts(s: seq<Byte>)
    returns (sign: nat, minus: bool, whole: nat, point: nat, fraction: nat, end: nat)
    ensures Parts(s, sign, minus, whole, point, fraction, end)
  {
    hide Blank;
    sign, minus, whole := SignAt(s), Negative(s), WholeAt(s);
    point, fraction := DigitsEnd(s, whole), FractionAt(s);
    end := DigitsEnd(s, fraction);
  }
}
