/** Sorting lines in place, and printing them, each once if asked. */
module MergeSort {
  import opened SortKeys

  // ----- What sorting is -----

  ghost predicate Sorted(o: Options, s: seq<Line>) {
    forall i, j | 0 <= i < j < |s| :: LineOrder(o, s[i], s[j]) <= 0
  }

  predicate SameKey(o: Options, x: Line, k: Line) {
    LineOrder(o, x, k) == 0
  }

  /** The lines whose key compares equal to that of `k`, in their order */
  function Class(o: Options, s: seq<Line>, k: Line): seq<Line> {
    if s == [] then []
    else (if SameKey(o, s[0], k) then [s[0]] else []) + Class(o, s[1..], k)
  }

  /** In order, and lines whose keys compare equal as they were: the same lines as
      often (`SortedIsPermutation`), and only one way to be (`StableSortIsUnique`) */
  ghost predicate IsStableSort(o: Options, s: seq<Line>, r: seq<Line>) {
    Sorted(o, r) && forall k: Line :: Class(o, r, k) == Class(o, s, k)
  }

  lemma ClassCons(o: Options, x: Line, s: seq<Line>, k: Line)
    ensures Class(o, [x] + s, k) == (if SameKey(o, x, k) then [x] else []) + Class(o, s, k)
  {
    hide SameKey;
    assert ([x] + s)[1..] == s;
  }

  lemma Halves(s: seq<Line>)
    requires s != []
    ensures s == [s[0]] + s[1..]
  {
  }

  lemma {:induction false} ClassOfSum(o: Options, s: seq<Line>, t: seq<Line>, k: Line)
    ensures Class(o, s + t, k) == Class(o, s, k) + Class(o, t, k)
  {
    hide Class, SameKey;
    if s == [] {
      assert s + t == t;
      NoClass(o, k);
    } else {
      ClassOfSum(o, s[1..], t, k);
      Halves(s);
      ClassCons(o, s[0], s[1..], k);
      ClassCons(o, s[0], s[1..] + t, k);
      Regroup([s[0]], s[1..], t);
      Regroup(if SameKey(o, s[0], k) then [s[0]] else [], Class(o, s[1..], k), Class(o, t, k));
    }
  }

  lemma {:induction false} ClassHas(o: Options, s: seq<Line>, k: Line)
    ensures forall x | x in Class(o, s, k) :: x in s && SameKey(o, x, k)
    ensures forall x | x in s && SameKey(o, x, k) :: x in Class(o, s, k)
  {
    hide SameKey;
    if s != [] {
      ClassHas(o, s[1..], k);
      assert s == [s[0]] + s[1..];
    }
  }

  lemma {:induction false} ClassCounts(o: Options, s: seq<Line>, x: Line)
    ensures multiset(s)[x] == multiset(Class(o, s, x))[x]
  {
    hide LineOrder;
    if s != [] {
      ClassCounts(o, s[1..], x);
      assert s == [s[0]] + s[1..];
      OrderTurns(o, x, x);
    }
  }

  /** Sorting loses and adds nothing */
  lemma SortedIsPermutation(o: Options, s: seq<Line>, r: seq<Line>)
    requires IsStableSort(o, s, r)
    ensures multiset(r) == multiset(s)
  {
    hide Class, Sorted;
    forall x: Line
      ensures multiset(r)[x] == multiset(s)[x]
    {
      ClassCounts(o, s, x);
      ClassCounts(o, r, x);
      assert Class(o, r, x) == Class(o, s, x);
    }
  }

  /** There is one stable sort */
  lemma {:induction false} StableSortIsUnique(o: Options, q: seq<Line>, r: seq<Line>)
    requires Sorted(o, q) && Sorted(o, r) && forall k: Line :: Class(o, q, k) == Class(o, r, k)
    ensures q == r
  {
    hide LineOrder, SameKey;
    if q == [] {
      EmptyHasNone(o, r);
    } else {
      FirstOfClass(o, q);
      assert Class(o, q, q[0]) == Class(o, r, q[0]);
      FirstsAgree(o, q, r);
      forall k: Line
        ensures Class(o, q[1..], k) == Class(o, r[1..], k)
      {
        assert Class(o, q, k) == Class(o, r, k);
        RestOfClass(o, q, k);
        RestOfClass(o, r, k);
      }
      StableSortIsUnique(o, q[1..], r[1..]);
      assert q == [q[0]] + q[1..] && r == [r[0]] + r[1..];
    }
  }

  lemma EmptyHasNone(o: Options, r: seq<Line>)
    requires forall k: Line :: Class(o, [], k) == Class(o, r, k)
    ensures r == []
  {
    hide SameKey;
    if r != [] {
      FirstOfClass(o, r);
    }
  }

  lemma FirstOfClass(o: Options, s: seq<Line>)
    requires s != []
    ensures Class(o, s, s[0]) != [] && Class(o, s, s[0])[0] == s[0]
  {
    hide LineOrder;
    OrderTurns(o, s[0], s[0]);
  }

  lemma RestOfClass(o: Options, s: seq<Line>, k: Line)
    requires s != []
    ensures Class(o, s[1..], k) == if SameKey(o, s[0], k) then Class(o, s, k)[1..] else Class(o, s, k)
  {
    hide SameKey;
  }

  lemma FirstsAgree(o: Options, q: seq<Line>, r: seq<Line>)
    requires Sorted(o, q) && Sorted(o, r) && (forall k: Line :: Class(o, q, k) == Class(o, r, k)) && q != []
    requires Class(o, r, q[0]) != []
    requires Class(o, q, q[0])[0] == q[0]
    ensures r != [] && q[0] == r[0]
  {
    hide Class, LineOrder;
    ClassHas(o, r, q[0]);
    var x := Class(o, r, q[0])[0];
    assert x in r;
    FirstOfClass(o, r);
    ClassHas(o, q, r[0]);
    assert Class(o, q, r[0]) == Class(o, r, r[0]);
    var y := Class(o, q, r[0])[0];
    FirstIsLeast(o, r, x);
    FirstIsLeast(o, q, y);
    Equivalent(o, q[0], r[0], x, y);
    ClassStarts(o, r, q[0]);
  }

  lemma FirstIsLeast(o: Options, s: seq<Line>, x: Line)
    requires Sorted(o, s) && x in s
    ensures LineOrder(o, s[0], x) <= 0
  {
    hide LineOrder;
    var i :| 0 <= i < |s| && s[i] == x;
    OrderTurns(o, x, x);
  }

  lemma Equivalent(o: Options, a: Line, b: Line, x: Line, y: Line)
    requires LineOrder(o, b, x) <= 0 && SameKey(o, x, a) && LineOrder(o, a, y) <= 0 && SameKey(o, y, b)
    ensures SameKey(o, b, a)
  {
    hide LineOrder;
    OrderChains(o, b, x, a);
    OrderChains(o, a, y, b);
    OrderTurns(o, a, b);
  }

  lemma ClassStarts(o: Options, s: seq<Line>, k: Line)
    requires s != [] && SameKey(o, s[0], k)
    ensures Class(o, s, k) != [] && Class(o, s, k)[0] == s[0]
  {
  }

  // ----- Merging -----

  function Merge(o: Options, a: seq<Line>, b: seq<Line>): seq<Line> {
    if a == [] then b
    else if b == [] then a
    else if LineOrder(o, b[0], a[0]) < 0 then [b[0]] + Merge(o, a, b[1..])
    else [a[0]] + Merge(o, a[1..], b)
  }

  function Sort(o: Options, s: seq<Line>): seq<Line>
    decreases |s|
  {
    if |s| < 2 then s
    else Merge(o, Sort(o, s[..|s| / 2]), Sort(o, s[|s| / 2..]))
  }

  lemma {:induction false} MergeHas(o: Options, a: seq<Line>, b: seq<Line>)
    ensures |Merge(o, a, b)| == |a| + |b|
    ensures forall x | x in Merge(o, a, b) :: x in a || x in b
  {
    hide LineOrder;
    if a != [] && b != [] {
      if LineOrder(o, b[0], a[0]) < 0 {
        MergeHas(o, a, b[1..]);
      } else {
        MergeHas(o, a[1..], b);
      }
    }
  }

  lemma {:induction false} SortLength(o: Options, s: seq<Line>)
    ensures |Sort(o, s)| == |s|
    decreases |s|
  {
    hide Merge;
    if |s| >= 2 {
      SortLength(o, s[..|s| / 2]);
      SortLength(o, s[|s| / 2..]);
      MergeHas(o, Sort(o, s[..|s| / 2]), Sort(o, s[|s| / 2..]));
    }
  }

  lemma TailSorted(o: Options, s: seq<Line>)
    requires Sorted(o, s) && s != []
    ensures Sorted(o, s[1..]) && forall x | x in s[1..] :: LineOrder(o, s[0], x) <= 0
  {
    hide LineOrder;
  }

  lemma ConsSorted(o: Options, x: Line, s: seq<Line>)
    requires Sorted(o, s) && forall y | y in s :: LineOrder(o, x, y) <= 0
    ensures Sorted(o, [x] + s)
  {
    hide LineOrder;
    forall i, j | 0 <= i < j < |[x] + s|
      ensures LineOrder(o, ([x] + s)[i], ([x] + s)[j]) <= 0
    {
      assert ([x] + s)[j] == s[j - 1] && s[j - 1] in s;
    }
  }

  lemma {:induction false} MergeSorted(o: Options, a: seq<Line>, b: seq<Line>)
    requires Sorted(o, a) && Sorted(o, b)
    ensures Sorted(o, Merge(o, a, b))
  {
    hide LineOrder, Sorted;
    if a != [] && b != [] {
      if LineOrder(o, b[0], a[0]) < 0 {
        TailSorted(o, b);
        MergeSorted(o, a, b[1..]);
        MergeHas(o, a, b[1..]);
        Least(o, b[0], a);
        ConsSorted(o, b[0], Merge(o, a, b[1..]));
      } else {
        TailSorted(o, a);
        MergeSorted(o, a[1..], b);
        MergeHas(o, a[1..], b);
        OrderTurns(o, a[0], b[0]);
        Least(o, a[0], b);
        ConsSorted(o, a[0], Merge(o, a[1..], b));
      }
    }
  }

  /** What is not after the first of a sorted list is not after any of it */
  lemma Least(o: Options, x: Line, s: seq<Line>)
    requires Sorted(o, s) && s != [] && LineOrder(o, x, s[0]) <= 0
    ensures forall y | y in s :: LineOrder(o, x, y) <= 0 && (LineOrder(o, x, s[0]) < 0 ==> LineOrder(o, x, y) < 0)
  {
    hide LineOrder, Sorted;
    forall y | y in s
      ensures LineOrder(o, x, y) <= 0 && (LineOrder(o, x, s[0]) < 0 ==> LineOrder(o, x, y) < 0)
    {
      FirstIsLeast(o, s, y);
      OrderChains(o, x, s[0], y);
    }
  }

  /** Equal keys: first those of the first list, then those of the second */
  lemma {:induction false} MergeClass(o: Options, a: seq<Line>, b: seq<Line>, k: Line)
    requires Sorted(o, a) && Sorted(o, b)
    ensures Class(o, Merge(o, a, b), k) == Class(o, a, k) + Class(o, b, k)
  {
    hide LineOrder, Sorted, SameKey, Class;
    if a == [] || b == [] {
      NoClass(o, k);
    } else if LineOrder(o, b[0], a[0]) < 0 {
      TailSorted(o, b);
      MergeClass(o, a, b[1..], k);
      Halves(b);
      ClassCons(o, b[0], b[1..], k);
      ClassCons(o, b[0], Merge(o, a, b[1..]), k);
      if SameKey(o, b[0], k) {
        NoneAfter(o, b[0], a, k);
      }
    } else {
      TailSorted(o, a);
      MergeClass(o, a[1..], b, k);
      Halves(a);
      ClassCons(o, a[0], a[1..], k);
      ClassCons(o, a[0], Merge(o, a[1..], b), k);
      Regroup(if SameKey(o, a[0], k) then [a[0]] else [], Class(o, a[1..], k), Class(o, b, k));
    }
  }

  lemma NoneAfter(o: Options, x: Line, s: seq<Line>, k: Line)
    requires Sorted(o, s) && s != [] && LineOrder(o, x, s[0]) < 0 && SameKey(o, x, k)
    ensures Class(o, s, k) == []
  {
    hide LineOrder, Sorted, Class;
    Least(o, x, s);
    ClassHas(o, s, k);
    if Class(o, s, k) != [] {
      var y := Class(o, s, k)[0];
      assert y in s;
      OrderTurns(o, x, k);
      OrderChains(o, k, x, y);
      OrderTurns(o, k, y);
    }
  }

  /** The merge sort is a stable sort */
  lemma {:induction false} SortIsStable(o: Options, s: seq<Line>)
    ensures IsStableSort(o, s, Sort(o, s))
    decreases |s|
  {
    hide LineOrder, Merge, Class;
    if |s| >= 2 {
      var a, b := s[..|s| / 2], s[|s| / 2..];
      SortIsStable(o, a);
      SortIsStable(o, b);
      MergeSorted(o, Sort(o, a), Sort(o, b));
      assert s == a + b;
      forall k: Line
        ensures Class(o, Sort(o, s), k) == Class(o, s, k)
      {
        MergeClass(o, Sort(o, a), Sort(o, b), k);
        ClassOfSum(o, a, b, k);
      }
    }
  }

  // ----- In place -----

  /** The merging loops of merge_sort, into the spare array; `all` is what the lines are */
  method MergeInto(o: Options, lines: array<Line>, spare: array<Line>, lo: nat, half: nat, count: nat,
                   ghost all: seq<Line>)
    requires half <= count && lo + count <= lines.Length && count <= spare.Length && lines != spare && lines[..] == all
    modifies spare
    ensures spare[..count] == Merge(o, all[lo..lo + half], all[lo + half..lo + count])
  {
    hide Merge;
    ghost var left, right := all[lo..lo + half], all[lo + half..lo + count];
    var i, j := MergeHeads(o, lines, spare, lo, half, count, all);
    ghost var merged := spare[..i + (j - half)];
    CopyRun(lines, spare, lo + i, lo + half, i + (j - half), all);
    CopyRun(lines, spare, lo + j, lo + count, j, all);
    TailOf(all, lo, i, half);
    TailOf(all, lo + half, j - half, count - half);
    Joined(o, left, right, i, j - half, merged);
  }

  lemma Joined(o: Options, left: seq<Line>, right: seq<Line>, i: nat, j: nat, merged: seq<Line>)
    requires i <= |left| && j <= |right| && (i == |left| || j == |right|)
    requires merged + Merge(o, left[i..], right[j..]) == Merge(o, left, right)
    ensures (merged + left[i..]) + right[j..] == Merge(o, left, right)
  {
    hide Merge;
    MergeRest(o, left, right, i, j);
    Regroup(merged, left[i..], right[j..]);
  }

  lemma TailOf(s: seq<Line>, lo: nat, i: nat, n: nat)
    requires i <= n && lo + n <= |s|
    ensures s[lo..lo + n][i..] == s[lo + i..lo + n]
  {
  }

  lemma Regroup(a: seq<Line>, b: seq<Line>, c: seq<Line>)
    ensures a + (b + c) == (a + b) + c
  {
  }

  /** As long as both halves have lines left */
  method MergeHeads(o: Options, lines: array<Line>, spare: array<Line>, lo: nat, half: nat, count: nat,
                    ghost all: seq<Line>)
    returns (i: nat, j: nat)
    requires half <= count && lo + count <= lines.Length && count <= spare.Length && lines != spare && lines[..] == all
    modifies spare
    ensures lines[..] == all && i <= half <= j <= count && (i == half || j == count)
    ensures var left, right := all[lo..lo + half], all[lo + half..lo + count];
            spare[..i + (j - half)] + Merge(o, left[i..], right[j - half..]) == Merge(o, left, right)
  {
    hide LineOrder, Merge;
    var k := 0;
    i, j := 0, half;
    ghost var left, right := all[lo..lo + half], all[lo + half..lo + count];
    assert left[0..] == left && right[0..] == right;
    while i < half && j < count
      invariant i <= half <= j <= count && k == i + (j - half) && lines[..] == all
      invariant spare[..k] + Merge(o, left[i..], right[j - half..]) == Merge(o, left, right)
    {
      var c := Compare(o, lines[lo + j], lines[lo + i]);
      MergeStep(o, left, right, i, j - half);
      ghost var before, was := spare[..k], Merge(o, left[i..], right[j - half..]);
      if c < 0 {
        spare[k] := lines[lo + j];
        j := j + 1;
      } else {
        spare[k] := lines[lo + i];
        i := i + 1;
      }
      Moved(before, spare[..k + 1], spare[k], was, Merge(o, left[i..], right[j - half..]));
      k := k + 1;
    }
  }

  lemma Moved(before: seq<Line>, after: seq<Line>, x: Line, was: seq<Line>, rest: seq<Line>)
    requires after == before + [x] && was == [x] + rest
    ensures before + was == after + rest
  {
  }

  /** What is left of one half */
  method CopyRun(lines: array<Line>, spare: array<Line>, from: nat, to: nat, k: nat, ghost all: seq<Line>)
    requires from <= to <= lines.Length && k + (to - from) <= spare.Length && lines != spare && lines[..] == all
    modifies spare
    ensures lines[..] == all && spare[..k + (to - from)] == old(spare[..k]) + all[from..to]
  {
    var i := from;
    while i < to
      invariant from <= i <= to && lines[..] == all && spare[..k + (i - from)] == old(spare[..k]) + all[from..i]
    {
      spare[k + (i - from)] := lines[i];
      i := i + 1;
    }
  }

  lemma MergeStep(o: Options, left: seq<Line>, right: seq<Line>, i: nat, j: nat)
    requires i < |left| && j < |right|
    ensures Merge(o, left[i..], right[j..]) ==
            if LineOrder(o, right[j], left[i]) < 0 then [right[j]] + Merge(o, left[i..], right[j + 1..])
            else [left[i]] + Merge(o, left[i + 1..], right[j..])
  {
    hide LineOrder;
    assert left[i..][1..] == left[i + 1..] && right[j..][1..] == right[j + 1..];
  }

  lemma MergeRest(o: Options, left: seq<Line>, right: seq<Line>, i: nat, j: nat)
    requires i <= |left| && j <= |right| && (i == |left| || j == |right|)
    ensures Merge(o, left[i..], right[j..]) == left[i..] + right[j..]
  {
  }

  /** merge_sort, of the `count` lines from `lo` */
  method MergeSortLines(o: Options, lines: array<Line>, spare: array<Line>, lo: nat, count: nat)
    requires lo + count <= lines.Length && count <= spare.Length && lines != spare
    modifies lines, spare
    ensures lines[lo..lo + count] == Sort(o, old(lines[lo..lo + count]))
    ensures lines[..lo] == old(lines[..lo]) && lines[lo + count..] == old(lines[lo + count..])
    decreases count
  {
    hide Sort, Merge;
    ghost var all := lines[lo..lo + count];
    if count < 2 {
      SortOfOne(o, all);
      return;
    }
    var half := count / 2;
    assert all[..half] == lines[lo..lo + half] && all[half..] == lines[lo + half..lo + count];
    MergeSortLines(o, lines, spare, lo, half);
    Elsewhere(old(lines[..]), lines[..], lo, half, count);
    MergeSortLines(o, lines, spare, lo + half, count - half);
    assert lines[lo..lo + half] == lines[..lo + half][lo..];
    MergeInto(o, lines, spare, lo, half, count, lines[..]);
    SortUnfolds(o, all);
    SortLength(o, all);
    CopyBack(lines, spare, lo, count);
  }

  lemma Elsewhere(before: seq<Line>, after: seq<Line>, lo: nat, half: nat, count: nat)
    requires |before| == |after| && half <= count && lo + count <= |before|
    requires after[lo + half..] == before[lo + half..]
    ensures after[lo + half..lo + count] == before[lo + half..lo + count]
  {
    assert after[lo + half..lo + count] == after[lo + half..][..count - half];
    assert before[lo + half..lo + count] == before[lo + half..][..count - half];
  }

  lemma SortOfOne(o: Options, s: seq<Line>)
    requires |s| < 2
    ensures Sort(o, s) == s
  {
  }

  lemma SortUnfolds(o: Options, s: seq<Line>)
    requires |s| >= 2
    ensures Sort(o, s) == Merge(o, Sort(o, s[..|s| / 2]), Sort(o, s[|s| / 2..]))
  {
    hide Merge;
  }

  method CopyBack(lines: array<Line>, spare: array<Line>, lo: nat, count: nat)
    requires lo + count <= lines.Length && count <= spare.Length && lines != spare
    modifies lines
    ensures lines[lo..lo + count] == spare[..count]
    ensures lines[..lo] == old(lines[..lo]) && lines[lo + count..] == old(lines[lo + count..])
  {
    for i := 0 to count
      invariant lines[lo..lo + i] == spare[..i]
      invariant lines[..lo] == old(lines[..lo]) && lines[lo + i..] == old(lines[lo + i..])
    {
      lines[lo + i] := spare[i];
    }
  }

  // ----- Printing -----

  /** What the last loop of main writes of the first `n` lines */
  function Printed(o: Options, s: seq<Line>, unique: bool, n: nat): seq<Line>
    requires n <= |s|
  {
    if n == 0 then []
    else if unique && n > 1 && KeyOrder(o, s[n - 2], s[n - 1]) == 0 then Printed(o, s, unique, n - 1)
    else Printed(o, s, unique, n - 1) + [s[n - 1]]
  }

  lemma {:induction false} AllPrinted(o: Options, s: seq<Line>, n: nat)
    requires n <= |s|
    ensures Printed(o, s, false, n) == s[..n]
  {
    if n > 0 {
      AllPrinted(o, s, n - 1);
    }
  }

  /** With -u, of sorted lines: one of each class, the first */
  lemma {:induction false} OneOfEach(o: Options, s: seq<Line>, n: nat, k: Line)
    requires n <= |s| && Sorted(o, s)
    ensures Class(o, Printed(o, s, true, n), k) ==
            if Class(o, s[..n], k) == [] then [] else [Class(o, s[..n], k)[0]]
  {
    hide LineOrder, KeyOrder, Class, SameKey, Sorted;
    if n == 0 {
      NoClass(o, k);
    } else {
      OneOfEach(o, s, n - 1, k);
      assert s[..n] == s[..n - 1] + [s[n - 1]];
      ClassOfSum(o, s[..n - 1], [s[n - 1]], k);
      ClassOfOne(o, s[n - 1], k);
      if n > 1 && KeyOrder(o, s[n - 2], s[n - 1]) == 0 {
        SeenBefore(o, s, n, k);
      } else {
        ClassOfSum(o, Printed(o, s, true, n - 1), [s[n - 1]], k);
        NewClass(o, s, n, k);
      }
    }
  }

  lemma NoClass(o: Options, k: Line)
    ensures Class(o, [], k) == []
  {
  }

  lemma ClassOfOne(o: Options, x: Line, k: Line)
    ensures Class(o, [x], k) == if SameKey(o, x, k) then [x] else []
  {
    hide SameKey;
  }

  lemma SeenBefore(o: Options, s: seq<Line>, n: nat, k: Line)
    requires 1 < n <= |s| && KeyOrder(o, s[n - 2], s[n - 1]) == 0
    ensures SameKey(o, s[n - 1], k) ==> Class(o, s[..n - 1], k) != []
  {
    hide KeyOrder, Class;
    if SameKey(o, s[n - 1], k) {
      var x := s[n - 2];
      OrderTurns(o, k, s[n - 1]);
      OrderChains(o, x, s[n - 1], k);
      OrderTurns(o, k, x);
      OrderTurns(o, x, s[n - 1]);
      OrderChains(o, k, s[n - 1], x);
      ClassHas(o, s[..n - 1], k);
      assert s[..n - 1][n - 2] == x;
      assert SameKey(o, x, k);
      assert x in Class(o, s[..n - 1], k);
    }
  }

  lemma NewClass(o: Options, s: seq<Line>, n: nat, k: Line)
    requires 0 < n <= |s| && Sorted(o, s) && (n > 1 ==> KeyOrder(o, s[n - 2], s[n - 1]) != 0)
    ensures SameKey(o, s[n - 1], k) ==> Class(o, s[..n - 1], k) == []
  {
    hide LineOrder, Class;
    ClassHas(o, s[..n - 1], k);
    AllBefore(o, s, n);
    if SameKey(o, s[n - 1], k) && Class(o, s[..n - 1], k) != [] {
      var x := Class(o, s[..n - 1], k)[0];
      assert x in Class(o, s[..n - 1], k);
      var i :| 0 <= i < n - 1 && s[i] == x;
      OrderChains(o, s[i], s[n - 1], k);
    }
  }

  /** A line whose key differs from the last before it comes after all before it */
  lemma AllBefore(o: Options, s: seq<Line>, n: nat)
    requires 0 < n <= |s| && Sorted(o, s) && (n > 1 ==> KeyOrder(o, s[n - 2], s[n - 1]) != 0)
    ensures forall i | 0 <= i < n - 1 :: LineOrder(o, s[i], s[n - 1]) < 0
  {
    hide KeyOrder;
    forall i | 0 <= i < n - 1
      ensures LineOrder(o, s[i], s[n - 1]) < 0
    {
      assert LineOrder(o, s[n - 2], s[n - 1]) < 0;
      OrderTurns(o, s[n - 2], s[n - 2]);
      OrderChains(o, s[i], s[n - 2], s[n - 1]);
    }
  }

  /** main, once everything is read */
  method SortAndPrint(o: Options, unique: bool, lines: array<Line>) returns (out: seq<Line>)
    modifies lines
    ensures IsStableSort(o, old(lines[..]), lines[..])
    ensures out == Printed(o, lines[..], unique, lines.Length)
  {
    hide IsStableSort, KeyOrder, Sort;
    var spare := new Line[lines.Length];
    MergeSortLines(o, lines, spare, 0, lines.Length);
    assert lines[0..0 + lines.Length] == lines[..];
    assert old(lines[0..0 + lines.Length]) == old(lines[..]);
    SortIsStable(o, old(lines[..]));
    out := [];
    for i := 0 to lines.Length
      invariant out == Printed(o, lines[..], unique, i)
      invariant lines[..] == Sort(o, old(lines[..]))
    {
      if unique && i > 0 {
        var c := CompareKeys(o, lines[i - 1], lines[i]);
        if c == 0 {
          continue;
        }
      }
      out := out + [lines[i]];
    }
  }

  /** What is printed of any input: with -u exactly one line of each class, the first
      in input order; without, a stable sort of the input */
  lemma WhatIsPrinted(o: Options, input: seq<Line>, sorted: seq<Line>, k: Line)
    requires IsStableSort(o, input, sorted)
    ensures Printed(o, sorted, false, |sorted|) == sorted
    ensures Class(o, Printed(o, sorted, true, |sorted|), k) ==
            if Class(o, input, k) == [] then [] else [Class(o, input, k)[0]]
  {
    hide Class, Sorted;
    AllPrinted(o, sorted, |sorted|);
    OneOfEach(o, sorted, |sorted|, k);
    assert sorted[..|sorted|] == sorted;
    assert Class(o, sorted, k) == Class(o, input, k);
  }
}
