/** A whole directory: short names for long ones, its bytes, and reading them back. */
module FatDirectory {
  import opened Common
  import opened FatNames
  import opened FatChecksum
  import opened FatEntries

  const SECTOR: nat := 512
  const TILDE: Byte := 126
  const UNDERSCORE: Byte := 95

  // ----- A short name for a long one -----

  function LastDot(s: Name): (n: nat)
    ensures n <= |s| && (n < |s| ==> s[n] == DOT)
  {
    if DOT !in s then |s|
    else if s[|s| - 1] == DOT then |s| - 1
    else LastDot(s[..|s| - 1])
  }

  function Kept(s: Name): (r: Name)
    ensures |r| <= |s| && forall c | c in r :: c != 0 && c != SPACE
  {
    if s == [] then []
    else
      var c := UpperChar(s[0]);
      (if Allowed(c) && c != TILDE then [c] else []) + Kept(s[1..])
  }

  function Cut(s: Name, n: nat): (r: Name)
    ensures |r| == if |s| < n then |s| else n
  {
    if |s| < n then s else s[..n]
  }

  /** name.rpartition("."), if something is before the dot */
  predicate HasParts(name: Name) {
    0 < LastDot(name) < |name|
  }

  function AliasBase(name: Name): (r: Name)
    ensures r != [] && r[0] != 0
  {
    var kept := Kept(if HasParts(name) then name[..LastDot(name)] else name);
    if kept == [] then [UNDERSCORE] else assert kept[0] in kept; kept
  }

  function AliasExtension(name: Name): (r: Name)
    ensures |r| <= 3
  {
    Cut(Kept(if HasParts(name) then name[LastDot(name) + 1..] else []), 3)
  }

  function Decimal(n: nat): (s: Name)
    ensures |s| >= 1 && (n < 10 ==> |s| == 1)
    ensures n < 100 ==> |s| <= 2
    ensures n < 1000 ==> |s| <= 3
    ensures n < 10000 ==> |s| <= 4
    ensures n < 100000 ==> |s| <= 5
  {
    if n < 10 then [48 + n] else Decimal(n / 10) + [48 + n % 10]
  }

  function Alias(base: Name, ext: Name, n: nat): (r: Raw)
    requires base != [] && base[0] != 0 && |ext| <= 3 && n < 100000
    ensures r[0] != 0
  {
    var tail := [TILDE] + Decimal(n);
    Padded(Cut(base, 8 - |tail|) + tail, 8) + Padded(ext, 3)
  }

  predicate AllTaken(base: Name, ext: Name, used: set<Raw>, lo: nat, hi: nat)
    requires base != [] && base[0] != 0 && |ext| <= 3 && hi <= 100000
  {
    forall k | lo <= k < hi :: Alias(base, ext, k) in used
  }

  /** The loop of alias_for */
  function FreeAlias(base: Name, ext: Name, used: set<Raw>, n: nat): (r: Option<Raw>)
    requires base != [] && base[0] != 0 && |ext| <= 3 && n <= 100000
    ensures r.Some? ==> r.value !in used && r.value[0] != 0
    decreases 100000 - n
  {
    if n == 100000 then None
    else if Alias(base, ext, n) !in used then Some(Alias(base, ext, n))
    else FreeAlias(base, ext, used, n + 1)
  }

  /** It is the first that is not taken, and none exactly if all are */
  lemma {:induction false} FirstFree(base: Name, ext: Name, used: set<Raw>, n: nat)
    requires base != [] && base[0] != 0 && |ext| <= 3 && n <= 100000
    ensures var r := FreeAlias(base, ext, used, n);
            && (r.None? <==> AllTaken(base, ext, used, n, 100000))
            && (r.Some? ==>
                exists k :: n <= k < 100000 && r.value == Alias(base, ext, k) && AllTaken(base, ext, used, n, k))
    decreases 100000 - n
  {
    hide Alias;
    if n < 100000 {
      if Alias(base, ext, n) in used {
        FirstFree(base, ext, used, n + 1);
        if FreeAlias(base, ext, used, n + 1).Some? {
          var k :| n + 1 <= k < 100000 && FreeAlias(base, ext, used, n + 1).value == Alias(base, ext, k)
            && AllTaken(base, ext, used, n + 1, k);
          assert AllTaken(base, ext, used, n, k);
        }
      } else {
        assert AllTaken(base, ext, used, n, n);
      }
    }
  }

  // ----- One name -----

  /** A name's entries, and the short name it takes */
  datatype Encoded = Encoded(bytes: seq<Byte>, raw: Raw)

  /** dir_entries: none if the name cannot be written */
  function Encode(e: Entry, used: set<Raw>): Option<Encoded> {
    if IsShort(e.name) then
      Some(Encoded(ShortEntry(ShortName(e.name), e.attr, e.cluster, e.size), ShortName(e.name).raw))
    else if !IsLong(e.name) then None
    else
      match FreeAlias(AliasBase(e.name), AliasExtension(e.name), used, 1)
      case None => None
      case Some(raw) =>
        Some(Encoded(LongBytes(e.name, raw) + ShortEntry(Short(raw, false, false), e.attr, e.cluster, e.size), raw))
  }

  function LongBytes(name: Name, raw: Raw): seq<Byte>
    requires IsLong(name)
  {
    LongEntries(Units(name), Pieces(name), Pieces(name), Checksum(raw))
  }

  /** What the reader shows for a name */
  function Shown(name: Name): seq<nat> {
    if IsShort(name) then ShownName(ShortName(name)) else name
  }

  function FoundOf(e: Entry): Found {
    Found(Shown(e.name), e.attr, e.cluster, e.size)
  }

  /** What the fields of an entry have room for */
  predicate Writable(e: Entry) {
    e.name != [] && e.attr != ATTR_LONG && e.cluster < 0x1_0000_0000 && e.size < 0x1_0000_0000
  }

  lemma ShortRead(s: Short, attr: Byte, cluster: nat, size: nat, rest: seq<Byte>, p: Pending)
    requires s.raw[0] != 0 && attr != ATTR_LONG && cluster < 0x1_0000_0000 && size < 0x1_0000_0000
    ensures ReadEntries(ShortEntry(s, attr, cluster, size) + rest, p)
            == [Found(ReadName(p, s), attr, cluster, size)] + ReadEntries(rest, Nothing)
  {
    hide ShortEntry, SlotOf, ReadName;
    ShortSlotRead(s, attr, cluster, size);
    FirstSlot(ShortEntry(s, attr, cluster, size), rest);
  }

  /** Each name is read back, whatever follows it */
  lemma EncodedIsRead(e: Entry, used: set<Raw>, rest: seq<Byte>)
    requires Writable(e) && Encode(e, used).Some?
    ensures ReadEntries(Encode(e, used).value.bytes + rest, Nothing) == [FoundOf(e)] + ReadEntries(rest, Nothing)
  {
    hide ShortEntry, ReadEntries, LongEntries, IsShort, IsLong, ShownName, ShortName, Units, Pieces, Checksum;
    if IsShort(e.name) {
      FirstOfShort(e.name);
      ShortRead(ShortName(e.name), e.attr, e.cluster, e.size, rest, Nothing);
    } else {
      LongRead(e, Encode(e, used).value.raw, rest);
    }
  }

  lemma FirstOfShort(name: Name)
    requires IsShort(name)
    ensures ShortName(name).raw[0] != 0
  {
    var base := Base(name);
    assert Allowed(UpperChar(base[0]));
    assert ShortName(name).raw[0] == Upper(base)[0];
  }

  lemma LongRead(e: Entry, raw: Raw, rest: seq<Byte>)
    requires Writable(e) && !IsShort(e.name) && IsLong(e.name) && raw[0] != 0
    ensures ReadEntries(LongBytes(e.name, raw) + ShortEntry(Short(raw, false, false), e.attr, e.cluster, e.size) + rest,
                        Nothing)
            == [FoundOf(e)] + ReadEntries(rest, Nothing)
  {
    hide ShortEntry, ReadEntries, LongEntries, IsShort, Units, Checksum, KernelSum, Number, UnitsName;
    var units, count := Units(e.name), Pieces(e.name);
    var short := Short(raw, false, false);
    var entry := ShortEntry(short, e.attr, e.cluster, e.size);
    assert LongBytes(e.name, raw) + entry + rest == LongBytes(e.name, raw) + (entry + rest);
    LongEntriesRead(units, count, count, Checksum(raw), entry + rest, Nothing);
    ShortRead(short, e.attr, e.cluster, e.size, rest, Piece(1, Checksum(raw), units));
    SumsAgree(raw);
    UnitsNameIs(units, e.name, 0);
    assert units[0..] == units && e.name[0..] == e.name;
  }

  // ----- All names -----

  function EncodeAll(es: seq<Entry>, used: set<Raw>): Option<seq<Byte>> {
    if es == [] then Some([])
    else
      match Encode(es[0], used)
      case None => None
      case Some(first) =>
        match EncodeAll(es[1..], used + {first.raw})
        case None => None
        case Some(rest) => Some(first.bytes + rest)
  }

  function AllFound(es: seq<Entry>): seq<Found> {
    seq(|es|, i requires 0 <= i < |es| => FoundOf(es[i]))
  }

  lemma {:induction false} AllAreRead(es: seq<Entry>, used: set<Raw>, rest: seq<Byte>)
    requires EncodeAll(es, used).Some? && forall i | 0 <= i < |es| :: Writable(es[i])
    requires |rest| > 0 ==> rest[0] == 0
    ensures ReadEntries(EncodeAll(es, used).value + rest, Nothing) == AllFound(es)
    decreases es
  {
    hide ReadEntries, Encode, FoundOf, Writable;
    if es == [] {
      assert [] + rest == rest;
      ReadZeros(rest);
    } else {
      var first := Encode(es[0], used).value;
      var more := EncodeAll(es[1..], used + {first.raw}).value;
      AllAreRead(es[1..], used + {first.raw}, rest);
      assert first.bytes + more + rest == first.bytes + (more + rest);
      EncodedIsRead(es[0], used, more + rest);
      assert AllFound(es) == [FoundOf(es[0])] + AllFound(es[1..]);
    }
  }

  // ----- A directory -----

  const DotName: Name := [DOT]
  const DotDotName: Name := [DOT, DOT]

  function DotShort(name: Name): Short
    requires |name| <= 11
  {
    Short(Padded(name, 11), false, false)
  }

  function Dots(own: nat, parent: nat): seq<Byte> {
    ShortEntry(DotShort(DotName), ATTR_DIRECTORY, own, 0) + ShortEntry(DotShort(DotDotName), ATTR_DIRECTORY, parent, 0)
  }

  function Zeros(n: nat): (s: seq<Byte>)
    ensures |s| == n && forall i | 0 <= i < n :: s[i] == 0
  {
    seq(n, i => 0)
  }

  /** add_directory's bytes */
  function DirectoryBytes(own: nat, parent: nat, isRoot: bool, es: seq<Entry>): Option<seq<Byte>> {
    match EncodeAll(es, {})
    case None => None
    case Some(names) =>
      var body := if isRoot then names else Dots(own, parent) + names;
      Some(if body == [] then Zeros(SECTOR) else body)
  }

  function DirectoryFound(own: nat, parent: nat, isRoot: bool, es: seq<Entry>): seq<Found> {
    (if isRoot then [] else [Found(DotName, ATTR_DIRECTORY, own, 0), Found(DotDotName, ATTR_DIRECTORY, parent, 0)])
      + AllFound(es)
  }

  lemma DotsShown()
    ensures ShownName(DotShort(DotName)) == DotName && ShownName(DotShort(DotDotName)) == DotDotName
    ensures DotShort(DotName).raw[0] != 0 && DotShort(DotDotName).raw[0] != 0
  {
    DotShown(DotName);
    DotShown(DotDotName);
  }

  lemma DotShown(name: Name)
    requires 0 < |name| <= 8 && forall i | 0 <= i < |name| :: name[i] == DOT
    ensures ShownName(DotShort(name)) == name && DotShort(name).raw[0] != 0
  {
    var raw := DotShort(name).raw;
    assert raw[..8] == name + Spaces(8 - |name|) && raw[8..] == [] + Spaces(3);
    StrippedPadding(name, 8 - |name|);
    StrippedPadding([], 3);
  }

  /** A directory, padded to whole sectors, is read as what was put in it */
  lemma DirectoryIsRead(own: nat, parent: nat, isRoot: bool, es: seq<Entry>, padding: nat)
    requires DirectoryBytes(own, parent, isRoot, es).Some? && forall i | 0 <= i < |es| :: Writable(es[i])
    requires own < 0x1_0000_0000 && parent < 0x1_0000_0000
    ensures ReadEntries(DirectoryBytes(own, parent, isRoot, es).value + Zeros(padding), Nothing)
            == DirectoryFound(own, parent, isRoot, es)
  {
    hide ReadEntries, EncodeAll, ShortEntry, Writable, FoundOf, ShownName;
    var names, zeros := EncodeAll(es, {}).value, Zeros(padding);
    AllAreRead(es, {}, zeros);
    if !isRoot {
      DotsShown();
      var dot, dotdot := ShortEntry(DotShort(DotName), ATTR_DIRECTORY, own, 0),
        ShortEntry(DotShort(DotDotName), ATTR_DIRECTORY, parent, 0);
      assert dot + dotdot + names + zeros == dot + (dotdot + (names + zeros));
      ShortRead(DotShort(DotName), ATTR_DIRECTORY, own, 0, dotdot + (names + zeros), Nothing);
      ShortRead(DotShort(DotDotName), ATTR_DIRECTORY, parent, 0, names + zeros, Nothing);
    } else if names == [] {
      ReadZeros(Zeros(SECTOR) + zeros);
      NoNames(es, zeros);
    }
  }

  lemma NoNames(es: seq<Entry>, zeros: seq<Byte>)
    requires EncodeAll(es, {}) == Some([]) && (|zeros| > 0 ==> zeros[0] == 0)
    requires ReadEntries([] + zeros, Nothing) == AllFound(es)
    ensures AllFound(es) == []
  {
    hide EncodeAll;
    assert [] + zeros == zeros;
    ReadZeros(zeros);
  }
}
