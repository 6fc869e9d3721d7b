/** The short names of one directory, and when no two are the same: a name that is one
    already is not compared with those taken before it.
 */
module FatShortNames {
  import opened FatNames
  import opened FatEntries
  import opened FatDirectory

  /** The short names that the entries take, in order */
  function Raws(es: seq<Entry>, used: set<Raw>): (r: seq<Raw>)
    requires EncodeAll(es, used).Some?
    ensures |r| == |es|
  {
    if es == [] then []
    else
      var raw := Encode(es[0], used).value.raw;
      [raw] + Raws(es[1..], used + {raw})
  }

  predicate Distinct(rs: seq<Raw>) {
    forall i, j | 0 <= i < j < |rs| :: rs[i] != rs[j]
  }

  lemma {:induction false} ShortAt(es: seq<Entry>, used: set<Raw>, j: nat)
    requires EncodeAll(es, used).Some? && j < |es| && IsShort(es[j].name)
    ensures Raws(es, used)[j] == ShortName(es[j].name).raw
    decreases j
  {
    hide IsShort, ShortName;
    if j > 0 {
      ShortAt(es[1..], used + {Encode(es[0], used).value.raw}, j - 1);
    }
  }

  /** A long name takes none that was there before it */
  lemma {:induction false} LongIsNew(es: seq<Entry>, used: set<Raw>, j: nat)
    requires EncodeAll(es, used).Some? && j < |es| && !IsShort(es[j].name)
    ensures Raws(es, used)[j] !in used
    ensures forall i | 0 <= i < j :: Raws(es, used)[i] != Raws(es, used)[j]
    decreases j
  {
    hide IsShort, ShortName;
    if j > 0 {
      var raw := Encode(es[0], used).value.raw;
      LongIsNew(es[1..], used + {raw}, j - 1);
      forall i | 0 <= i < j
        ensures Raws(es, used)[i] != Raws(es, used)[j]
      {
        if i > 0 {
          assert Raws(es, used)[i] == Raws(es[1..], used + {raw})[i - 1];
        }
      }
    }
  }

  /** They are distinct exactly when no 8.3 name is the short name of an entry before it */
  lemma RawsDistinct(es: seq<Entry>)
    requires EncodeAll(es, {}).Some?
    ensures Distinct(Raws(es, {})) <==>
            forall i, j | 0 <= i < j < |es| && IsShort(es[j].name) :: Raws(es, {})[i] != ShortName(es[j].name).raw
  {
    hide IsShort, ShortName, EncodeAll, Raws;
    forall j | 0 <= j < |es|
      ensures IsShort(es[j].name) ==> Raws(es, {})[j] == ShortName(es[j].name).raw
      ensures !IsShort(es[j].name) ==> forall i | 0 <= i < j :: Raws(es, {})[i] != Raws(es, {})[j]
    {
      if IsShort(es[j].name) {
        ShortAt(es, {}, j);
      } else {
        LongIsNew(es, {}, j);
      }
    }
  }

  // ----- Without tildes -----

  /** The same but for case, and a dot at the end */
  predicate SameButCase(a: Name, b: Name) {
    Upper(Base(a)) == Upper(Base(b)) && Upper(Extension(a)) == Upper(Extension(b))
  }

  lemma SameRaw(a: Name, b: Name)
    requires IsShort(a) && IsShort(b)
    ensures ShortName(a).raw == ShortName(b).raw <==> SameButCase(a, b)
  {
    hide Stripped, AllowedPart, OneCase, AllLower, Upper, Base, Extension, Padded;
    RawParts(Padded(Upper(Base(a)), 8), Padded(Upper(Extension(a)), 3));
    RawParts(Padded(Upper(Base(b)), 8), Padded(Upper(Extension(b)), 3));
    PartStripped(Base(a), 8);
    PartStripped(Base(b), 8);
    PartStripped(Extension(a), 3);
    PartStripped(Extension(b), 3);
  }

  lemma AliasHasTilde(base: Name, ext: Name, n: nat)
    requires base != [] && base[0] != 0 && |ext| <= 3 && n < 100000
    ensures TILDE in Alias(base, ext, n)
  {
    hide Decimal;
    var tail := [TILDE] + Decimal(n);
    var cut := Cut(base, 8 - |tail|);
    assert Alias(base, ext, n)[|cut|] == TILDE;
  }

  lemma LongHasTilde(e: Entry, used: set<Raw>)
    requires !IsShort(e.name) && Encode(e, used).Some?
    ensures TILDE in Encode(e, used).value.raw
  {
    hide IsShort, Alias, FreeAlias;
    var base, ext := AliasBase(e.name), AliasExtension(e.name);
    FirstFree(base, ext, used, 1);
    var k :| 1 <= k < 100000 && FreeAlias(base, ext, used, 1).value == Alias(base, ext, k);
    AliasHasTilde(base, ext, k);
  }

  lemma {:induction false} LongAt(es: seq<Entry>, used: set<Raw>, j: nat)
    requires EncodeAll(es, used).Some? && j < |es| && !IsShort(es[j].name)
    ensures TILDE in Raws(es, used)[j]
    decreases j
  {
    hide IsShort, Encode;
    if j > 0 {
      LongAt(es[1..], used + {Encode(es[0], used).value.raw}, j - 1);
    } else {
      LongHasTilde(es[0], used);
    }
  }

  lemma ShortHasNone(name: Name)
    requires IsShort(name) && TILDE !in name
    ensures TILDE !in ShortName(name).raw
  {
    var raw := ShortName(name).raw;
    forall i | 0 <= i < 11
      ensures raw[i] != TILDE
    {
    }
  }

  /** As long as no 8.3 name has a tilde of its own, they are distinct exactly when no
      two 8.3 names are the same but for case */
  lemma PlainRawsDistinct(es: seq<Entry>)
    requires EncodeAll(es, {}).Some? && forall i | 0 <= i < |es| && IsShort(es[i].name) :: TILDE !in es[i].name
    ensures Distinct(Raws(es, {})) <==>
            forall i, j | 0 <= i < j < |es| && IsShort(es[i].name) && IsShort(es[j].name) ::
              !SameButCase(es[i].name, es[j].name)
  {
    hide IsShort, ShortName, EncodeAll, Raws, SameButCase, Distinct;
    RawsDistinct(es);
    forall i, j | 0 <= i < j < |es| && IsShort(es[j].name)
      ensures Raws(es, {})[i] == ShortName(es[j].name).raw <==>
              IsShort(es[i].name) && SameButCase(es[i].name, es[j].name)
    {
      ShortHasNone(es[j].name);
      if IsShort(es[i].name) {
        ShortAt(es, {}, i);
        SameRaw(es[i].name, es[j].name);
      } else {
        LongAt(es, {}, i);
      }
    }
  }

  /** A.TXT and a.txt are one short name */
  lemma TwoOfOneName()
    ensures var upper, lower := [65, DOT, 84, 88, 84], [97, DOT, 116, 120, 116];
            IsShort(upper) && IsShort(lower) && SameButCase(upper, lower)
  {
    hide Base, Extension, IsShort, Upper;
    var upper: Name, lower: Name := [65, DOT, 84, 88, 84], [97, DOT, 116, 120, 116];
    Partition(upper, [65], [84, 88, 84]);
    Partition(lower, [97], [116, 120, 116]);
    UpperIs([97], [65]);
    UpperIs([65], [65]);
    UpperIs([116, 120, 116], [84, 88, 84]);
    UpperIs([84, 88, 84], [84, 88, 84]);
    LowerIsShort(lower);
    UpperIsShort(upper);
  }

  lemma UpperIsShort(name: Name)
    requires 0 < |Base(name)| <= 8 && |Extension(name)| <= 3 && DOT !in Extension(name)
    requires forall c | c in Base(name) + Extension(name) :: IsUpper(c)
    ensures IsShort(name)
  {
    var base, ext := Base(name), Extension(name);
    assert forall i | 0 <= i < |base| :: base[i] in base + ext;
    assert forall i | 0 <= i < |ext| :: ext[i] in base + ext;
    hide Base, Extension;
    assert Upper(base) == base && Upper(ext) == ext;
  }

  lemma LowerIsShort(name: Name)
    requires 0 < |Base(name)| <= 8 && |Extension(name)| <= 3 && DOT !in Extension(name)
    requires forall c | c in Base(name) + Extension(name) :: IsLower(c)
    ensures IsShort(name)
  {
    var base, ext := Base(name), Extension(name);
    assert forall i | 0 <= i < |base| :: base[i] in base + ext;
    assert forall i | 0 <= i < |ext| :: ext[i] in base + ext;
    hide Base, Extension;
    assert Lower(base) == base && Lower(ext) == ext;
  }

  lemma UpperIs(s: Name, r: Name)
    requires |r| == |s| && forall i | 0 <= i < |s| :: r[i] == UpperChar(s[i])
    ensures Upper(s) == r
  {
  }

  lemma Partition(name: Name, base: Name, ext: Name)
    requires name == base + [DOT] + ext && DOT !in base
    ensures Base(name) == base && Extension(name) == ext
  {
    assert name[|base|] == DOT;
  }
}
