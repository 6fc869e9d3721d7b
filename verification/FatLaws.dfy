/** What the names and entries of a FAT directory are, said without the functions that make
    them: the characters, the 8.3 names, the short name invented for a long one, and where
    each field is in an entry.
 */
module FatLaws {
  import opened Common
  import opened FatNames
  import opened FatChecksum
  import opened FatEntries
  import opened FatDirectory
  import opened FatTree

  // ----- Characters -----

  const SMALL: string := "abcdefghijklmnopqrstuvwxyz"
  const CAPITALS: string := "ABCDEFGHIJKLMNOPQRSTUVWXYZ"
  const DIGITS: string := "0123456789"
  const MARKS: string := "_-~!#$%&'()@^`{}"
  const IN_PATHS: string := "\"*/:<>?\\|"

  /** What an 8.3 name may have in it, and what no long name may */
  lemma CharactersAre(c: Byte)
    ensures Allowed(c) <==> c as char in CAPITALS || c as char in DIGITS || c as char in MARKS
    ensures Forbidden(c) <==> c as char in IN_PATHS
  {
    CapitalIs(c);
    DigitIs(c);
    MarkIs(c);
    PathMarkIs(c);
  }

  /** Characters that follow each other */
  lemma InRun(s: string, first: nat, c: Byte)
    requires forall i | 0 <= i < |s| :: s[i] as int == first + i
    ensures c as char in s <==> first <= c < first + |s|
  {
    if first <= c < first + |s| {
      assert s[c - first] == c as char;
    }
  }

  lemma Letter(i: nat)
    requires i < 26
    ensures SMALL[i] as int == 97 + i && CAPITALS[i] as int == 65 + i
  {
  }

  lemma CapitalIs(c: Byte)
    ensures IsUpper(c) <==> c as char in CAPITALS
  {
    forall i | 0 <= i < |CAPITALS|
      ensures CAPITALS[i] as int == 65 + i
    {
      Letter(i);
    }
    InRun(CAPITALS, 65, c);
  }

  lemma SmallIs(c: Byte)
    ensures IsLower(c) <==> c as char in SMALL
  {
    forall i | 0 <= i < |SMALL|
      ensures SMALL[i] as int == 97 + i
    {
      Letter(i);
    }
    InRun(SMALL, 97, c);
  }

  lemma DigitIs(c: Byte)
    ensures 48 <= c <= 57 <==> c as char in DIGITS
  {
    InRun(DIGITS, 48, c);
  }

  lemma MarkIs(c: Byte)
    ensures c as char in MARKS <==>
            || 35 <= c <= 41 || 94 <= c <= 96 || c == 45 || c == 126 || c == 33 || c == 64 || c == 123 || c == 125
  {
    assert MARKS == ['_', '-', '~', '!', '#', '$', '%', '&', '\'', '(', ')', '@', '^', '`', '{', '}'];
  }

  lemma PathMarkIs(c: Byte)
    ensures c as char in IN_PATHS <==>
            || c == 34 || c == 42 || c == 47 || c == 58 || c == 60 || c == 62 || c == 63 || c == 92 || c == 124
  {
    assert IN_PATHS == ['"', '*', '/', ':', '<', '>', '?', '\\', '|'];
  }

  /** Letters change case, each into its own */
  lemma CaseIs(c: Byte, i: nat)
    requires i < 26
    ensures c as char == SMALL[i] ==> UpperChar(c) as char == CAPITALS[i]
    ensures c as char == CAPITALS[i] ==> LowerChar(c) as char == SMALL[i]
  {
    Letter(i);
  }

  /** And nothing else does */
  lemma OthersHaveNone(c: Byte)
    ensures c as char !in SMALL ==> UpperChar(c) == c
    ensures c as char !in CAPITALS ==> LowerChar(c) == c
  {
    SmallIs(c);
    CapitalIs(c);
  }

  // ----- 8.3 names -----

  /** One to eight characters, or these, a dot and up to three */
  predicate InParts(name: Name, base: Name, ext: Name) {
    && (name == base + [DOT] + ext || (name == base && ext == []))
    && 1 <= |base| <= 8 && |ext| <= 3
  }

  /** Of allowed characters, and not a small and a capital letter both */
  predicate FitsPart(s: Name) {
    && (forall i | 0 <= i < |s| :: s[i] as char in SMALL + CAPITALS + DIGITS + MARKS)
    && (forall i, j | 0 <= i < |s| && 0 <= j < |s| :: !(s[i] as char in SMALL && s[j] as char in CAPITALS))
  }

  lemma ShortNamesAre(name: Name)
    ensures IsShort(name) <==> exists base, ext :: InParts(name, base, ext) && FitsPart(base) && FitsPart(ext)
  {
    hide AllowedPart, OneCase, FitsPart;
    if IsShort(name) {
      var base, ext := Base(name), Extension(name);
      PartFits(base);
      PartFits(ext);
      assert InParts(name, base, ext);
    }
    if base, ext :| InParts(name, base, ext) && FitsPart(base) && FitsPart(ext) {
      PartFits(base);
      PartFits(ext);
      NoDots(base);
      NoDots(ext);
      SplitAt(name, base, ext);
    }
  }

  lemma PartFits(s: Name)
    ensures FitsPart(s) <==> AllowedPart(s) && OneCase(s)
  {
    hide OneCase;
    forall i | 0 <= i < |s|
      ensures s[i] as char in SMALL + CAPITALS + DIGITS + MARKS <==> Allowed(UpperChar(s[i]))
      ensures s[i] as char in SMALL <==> IsLower(s[i])
      ensures s[i] as char in CAPITALS <==> IsUpper(s[i])
    {
      hide *;
      CharacterFits(s[i]);
    }
    OneCaseIs(s);
    hide Allowed, IsUpper, IsLower, UpperChar;
  }

  lemma CharacterFits(c: Byte)
    ensures c as char in SMALL + CAPITALS + DIGITS + MARKS <==> Allowed(UpperChar(c))
    ensures c as char in SMALL <==> IsLower(c)
    ensures c as char in CAPITALS <==> IsUpper(c)
  {
    CharactersAre(c);
    SmallIs(c);
    CapitalIs(c);
  }

  lemma OneCaseIs(s: Name)
    ensures OneCase(s) <==> forall i, j | 0 <= i < |s| && 0 <= j < |s| :: !(IsLower(s[i]) && IsUpper(s[j]))
  {
    if s != Lower(s) && s != Upper(s) {
      var j :| 0 <= j < |s| && Lower(s)[j] != s[j];
      var i :| 0 <= i < |s| && Upper(s)[i] != s[i];
      assert IsUpper(s[j]) && IsLower(s[i]);
    }
  }

  lemma NoDots(s: Name)
    requires AllowedPart(s)
    ensures DOT !in s
  {
  }

  lemma SplitAt(name: Name, base: Name, ext: Name)
    requires InParts(name, base, ext) && DOT !in base
    ensures Base(name) == base && Extension(name) == ext
  {
    var n := FirstDot(name);
    if name == base + [DOT] + ext {
      assert name[|base|] == DOT;
      assert n == |base|;
    }
  }

  /** A name that needs long entries can have them exactly if it is at most 127 characters,
      from the space to the tilde, and none that means something in a path */
  lemma LongNamesMayBe(name: Name)
    ensures IsLong(name) <==>
            && |name| <= 127
            && forall i | 0 <= i < |name| :: ' ' <= name[i] as char <= '~' && name[i] as char !in IN_PATHS
  {
    hide Forbidden;
    forall i | 0 <= i < |name|
      ensures Forbidden(name[i]) <==> name[i] as char in IN_PATHS
    {
      hide *;
      CharactersAre(name[i]);
    }
  }

  // ----- Short names for long ones -----

  /** A name's characters are kept one by one: upper case, and only those that are allowed,
      but no tilde */
  lemma {:induction false} KeptInOrder(s: Name, t: Name)
    ensures Kept(s + t) == Kept(s) + Kept(t)
  {
    if s == [] {
      assert s + t == t;
    } else {
      assert (s + t)[1..] == s[1..] + t;
      KeptInOrder(s[1..], t);
    }
  }

  lemma KeptOfOne(c: Byte)
    ensures Kept([c]) ==
            if c as char in SMALL + CAPITALS + DIGITS + MARKS && c as char != '~' then [UpperChar(c)] else []
  {
    CharacterFits(c);
    hide *;
    KeptUnfolds(c);
  }

  lemma KeptUnfolds(c: Byte)
    ensures Kept([c]) == if Allowed(UpperChar(c)) && c as char != '~' then [UpperChar(c)] else []
  {
    assert [c][1..] == [];
  }

  lemma {:induction false} LastDotIs(base: Name, ext: Name)
    requires DOT !in ext
    ensures LastDot(base + [DOT] + ext) == |base|
    decreases |ext|
  {
    var name := base + [DOT] + ext;
    assert name[|base|] == DOT;
    if ext != [] {
      assert name[|name| - 1] == ext[|ext| - 1];
      assert name[..|name| - 1] == base + [DOT] + ext[..|ext| - 1];
      LastDotIs(base, ext[..|ext| - 1]);
    }
  }

  function OrUnderscore(s: Name): Name {
    if s == [] then ['_' as int] else s
  }

  /** What is before the last dot and what is after it, cut at three characters */
  lemma AliasParts(base: Name, ext: Name)
    requires base != [] && DOT !in ext
    ensures var name := base + [DOT] + ext;
            && AliasBase(name) == OrUnderscore(Kept(base))
            && AliasExtension(name) == if |Kept(ext)| <= 3 then Kept(ext) else Kept(ext)[..3]
  {
    hide Kept, LastDot;
    var name := base + [DOT] + ext;
    LastDotIs(base, ext);
    assert name[..|base|] == base && name[|base| + 1..] == ext;
  }

  lemma DotIsDropped(rest: Name)
    ensures Kept([DOT] + rest) == Kept(rest)
  {
    KeptInOrder([DOT], rest);
    assert Kept([DOT]) == [];
  }

  /** Without a dot, or with nothing before the last one, the whole name and no extension */
  lemma AliasWhole(rest: Name, name: Name)
    requires DOT !in rest && (name == rest || name == [DOT] + rest)
    ensures AliasBase(name) == OrUnderscore(Kept(rest)) && AliasExtension(name) == []
  {
    NothingKept();
    hide Kept;
    if name != rest {
      LastDotIs([], rest);
      assert [] + [DOT] + rest == name;
      DotIsDropped(rest);
    }
  }

  lemma NothingKept()
    ensures Kept([]) == []
  {
  }

  /** The number that a text of digits is */
  function Value(s: Name): int {
    if s == [] then 0 else 10 * Value(s[..|s| - 1]) + (s[|s| - 1] - '0' as int)
  }

  /** Digits only, no zero before others, and the number itself */
  lemma {:induction false} DecimalIs(n: nat)
    ensures Value(Decimal(n)) == n && (n > 0 ==> Decimal(n)[0] != '0' as int)
    ensures forall i | 0 <= i < |Decimal(n)| :: '0' as int <= Decimal(n)[i] <= '9' as int
  {
    if n < 10 {
      assert Decimal(n)[..0] == [];
    } else {
      DecimalIs(n / 10);
      assert Decimal(n)[..|Decimal(n)| - 1] == Decimal(n / 10);
    }
  }

  /** As much of the base as there is room for, a tilde and the number, then spaces, and the
      extension, then spaces */
  lemma AliasIs(base: Name, ext: Name, n: nat, cut: nat)
    requires base != [] && base[0] != 0 && |ext| <= 3 && n < 100000
    requires cut <= |base| && cut + 1 + |Decimal(n)| <= 8 && (cut == |base| || cut + 1 + |Decimal(n)| == 8)
    ensures Alias(base, ext, n) ==
            base[..cut] + ['~' as int] + Decimal(n) + Spaces(7 - cut - |Decimal(n)|) + ext + Spaces(3 - |ext|)
  {
    hide Decimal;
    assert base[..|base|] == base;
  }

  // ----- Entries -----

  /** 1 January 2026: years since 1980, the month and the day */
  lemma DateIs()
    ensures FAT_DATE == (2026 - 1980) * 512 + 1 * 32 + 1 && Two(FAT_DATE) == [0x21, 0x5C] && Two(FAT_TIME) == [0, 0]
  {
  }

  /** Four bytes as a number, the first the least */
  function Little(b: seq<Byte>): (v: nat)
    requires |b| == 4
  {
    (b[0] as int) + 256 * (b[1] as int) + 0x1_0000 * (b[2] as int) + 0x100_0000 * (b[3] as int)
  }

  /** Where each field of a short entry is: the cluster in two halves */
  lemma ShortEntryIs(s: Short, attr: Byte, cluster: seq<Byte>, size: seq<Byte>)
    requires |cluster| == 4 && |size| == 4
    ensures var b := ShortEntry(s, attr, Little(cluster), Little(size));
            && b[..11] == s.raw && b[11] == attr
            && b[12] == (if s.lowerBase then 8 else 0) + (if s.lowerExtension then 16 else 0)
            && b[13..20] == [0, 0, 0, 0x21, 0x5C, 0x21, 0x5C]
            && b[20..22] == cluster[2..] && b[22..26] == [0, 0, 0x21, 0x5C] && b[26..28] == cluster[..2]
            && b[28..32] == size
  {
    DateIs();
    hide Two, Four, ShortEntry, Little;
    ShortEntryParts(s, attr, Little(cluster), Little(size));
    HalvesAre(cluster);
    HalvesAre(size);
    assert size[..2] + size[2..] == size;
  }

  lemma HalvesAre(b: seq<Byte>)
    requires |b| == 4
    ensures Two(Little(b) / 65536) == b[2..] && Two(Little(b) % 65536) == b[..2]
    ensures Four(Little(b)) == b[..2] + b[2..]
  {
    var low: int, high: int := (b[0] as int) + 256 * (b[1] as int), (b[2] as int) + 256 * (b[3] as int);
    assert Little(b) == 65536 * high + low;
    assert Little(b) / 65536 == high && Little(b) % 65536 == low;
  }

  lemma ShortEntryParts(s: Short, attr: Byte, cluster: nat, size: nat)
    ensures var b := ShortEntry(s, attr, cluster, size);
            && b[..11] == s.raw && b[11] == attr && b[12] == FlagsOf(s)
            && b[13..20] == [0] + Two(FAT_TIME) + Two(FAT_DATE) + Two(FAT_DATE)
            && b[20..22] == Two(cluster / 65536) && b[22..26] == Two(FAT_TIME) + Two(FAT_DATE)
            && b[26..28] == Two(cluster % 65536) && b[28..32] == Four(size)
  {
    hide Two, Four, FlagsOf;
  }

  lemma TwoAre(v: nat)
    requires v < 65536
    ensures Two(v) == [v % 256, v / 256]
  {
  }

  /** Where the `k`th character of a piece of a long name is */
  function UnitPlace(k: nat): nat
    requires k < 13
  {
    if k < 5 then 1 + 2 * k else if k < 11 then 14 + 2 * (k - 5) else 28 + 2 * (k - 11)
  }

  lemma LongEntryIs(ordinal: Byte, u: seq<nat>, checksum: Byte, k: nat)
    requires |u| == 13 && k < 13 && u[k] < 65536
    ensures var b := LongEntry(ordinal, u, checksum);
            && b[0] == ordinal && b[11..14] == [0x0F, 0, checksum] && b[26..28] == [0, 0]
            && b[UnitPlace(k)] == u[k] % 256 && b[UnitPlace(k) + 1] == u[k] / 256
  {
    hide UnitBytes;
    LongEntryParts(ordinal, u, checksum);
    var b := LongEntry(ordinal, u, checksum);
    if k < 5 {
      UnitIs(u[..5], k);
      assert b[1 + 2 * k] == b[1..11][2 * k] && b[2 + 2 * k] == b[1..11][2 * k + 1];
    } else if k < 11 {
      UnitIs(u[5..11], k - 5);
      assert b[14 + 2 * (k - 5)] == b[14..26][2 * (k - 5)] && b[15 + 2 * (k - 5)] == b[14..26][2 * (k - 5) + 1];
    } else {
      UnitIs(u[11..], k - 11);
      assert b[28 + 2 * (k - 11)] == b[28..32][2 * (k - 11)] && b[29 + 2 * (k - 11)] == b[28..32][2 * (k - 11) + 1];
    }
  }

  lemma LongEntryParts(ordinal: Byte, u: seq<nat>, checksum: Byte)
    requires |u| == 13
    ensures var b := LongEntry(ordinal, u, checksum);
            && b[0] == ordinal && b[1..11] == UnitBytes(u[..5]) && b[11..14] == [0x0F, 0, checksum]
            && b[14..26] == UnitBytes(u[5..11]) && b[26..28] == [0, 0] && b[28..32] == UnitBytes(u[11..])
  {
    hide UnitBytes;
    LongParts([ordinal], UnitBytes(u[..5]), [ATTR_LONG, 0, checksum], UnitBytes(u[5..11]), [0, 0], UnitBytes(u[11..]));
  }

  lemma {:induction false} UnitIs(u: seq<nat>, k: nat)
    requires k < |u| && u[k] < 65536
    ensures UnitBytes(u)[2 * k] == u[k] % 256 && UnitBytes(u)[2 * k + 1] == u[k] / 256
  {
    hide Two;
    if k == 0 {
      TwoAre(u[0]);
    } else {
      UnitIs(u[1..], k - 1);
    }
  }

  /** A directory starts with "." and "..", padded with spaces, without case flags */
  lemma DotsAre(own: nat, parent: nat)
    ensures var b := Dots(own, parent);
            && |b| == 64 && b[..11] == ['.' as int] + Spaces(10) && b[11..13] == [0x10, 0]
            && b[32..43] == ['.' as int, '.' as int] + Spaces(9) && b[43..45] == [0x10, 0]
  {
    hide ShortEntry;
    ShortEntryParts(DotShort(DotName), ATTR_DIRECTORY, own, 0);
    ShortEntryParts(DotShort(DotDotName), ATTR_DIRECTORY, parent, 0);
  }

  /** What a directory says of a file, and of a directory in it */
  lemma EntriesAre(name: Name, node: Node, start: nat)
    ensures var e := EntryOf(name, node, start);
            match node
            case File(data) =>
              && e.name == name && e.attr == 0x20 && e.size == |data|
              && e.cluster == if data == [] then 0 else start
            case Dir(children) =>
              && e.name == name && e.attr == 0x10 && e.size == 0
              && e.cluster == start + ListSize(children, start)
  {
  }

  // ----- One name, whole -----

  const LONG_NAMES: Name := [76, 111, 110, 103, 32, 78, 97, 109, 101, 115]

  /** Its letters, in capitals */
  lemma LettersOfLongNames(s: Name)
    requires s == LONG_NAMES
    ensures Kept(s) == [76, 79, 78, 71, 78, 65, 77, 69, 83]
  {
    hide Kept;
    NothingKept();
    assert s[10..] == [];
    Keeps(s, 9, 115, []);
    Keeps(s, 8, 101, [83]);
    Keeps(s, 7, 109, [69, 83]);
    Keeps(s, 6, 97, [77, 69, 83]);
    Keeps(s, 5, 78, [65, 77, 69, 83]);
    Drops(s, 4, 32, [78, 65, 77, 69, 83]);
    Keeps(s, 3, 103, [78, 65, 77, 69, 83]);
    Keeps(s, 2, 110, [71, 78, 65, 77, 69, 83]);
    Keeps(s, 1, 111, [78, 71, 78, 65, 77, 69, 83]);
    Keeps(s, 0, 76, [79, 78, 71, 78, 65, 77, 69, 83]);
    assert s[0..] == s;
  }

  lemma Keeps(s: Name, i: nat, c: Byte, rest: Name)
    requires i < |s| && s[i] == c && (IsUpper(c) || IsLower(c)) && Kept(s[i + 1..]) == rest
    ensures Kept(s[i..]) == [if IsLower(c) then c - 32 else c] + rest
  {
    assert s[i..][1..] == s[i + 1..];
  }

  lemma Drops(s: Name, i: nat, c: Byte, rest: Name)
    requires i < |s| && s[i] == c == SPACE && Kept(s[i + 1..]) == rest
    ensures Kept(s[i..]) == rest
  {
    assert s[i..][1..] == s[i + 1..];
  }

  lemma SpaceIsNotShort(name: Name, i: nat)
    requires i < |name| && name[i] == SPACE && DOT !in name
    ensures !IsShort(name)
  {
    assert !Allowed(UpperChar(name[i]));
    assert Base(name) == name;
  }

  /** "Long Names" is written as two entries, the one with the name first, and has the short
      name LONGNA~1 */
  lemma LongNamesAre(e: Entry)
    requires e.name == LONG_NAMES
    ensures var r := Encode(e, {});
            && r.Some? && |r.value.bytes| == 64 && r.value.raw == [76, 79, 78, 71, 78, 65, 126, 49, 32, 32, 32]
            && r.value.bytes[0] == 0x41 && r.value.bytes[1] == 76 && r.value.bytes[13] == 0x17
  {
    hide Alias, AliasBase, AliasExtension, ShortEntry, LongBytes, Checksum, IsShort, IsLong, FreeAlias;
    SpaceIsNotShort(e.name, 4);
    LettersAndSpaces(e.name);
    FirstIsFree(AliasBase(e.name), AliasExtension(e.name));
    var raw := Alias(AliasBase(e.name), AliasExtension(e.name), 1);
    AliasOfLongNames(e.name);
    ChecksumOfLongNames(raw);
    OnePiece(e.name, raw);
  }

  lemma LettersAndSpaces(name: Name)
    requires |name| <= 127 && forall i | 0 <= i < |name| :: IsUpper(name[i]) || IsLower(name[i]) || name[i] == SPACE
    ensures IsLong(name)
  {
  }

  lemma FirstIsFree(base: Name, ext: Name)
    requires base != [] && base[0] != 0 && |ext| <= 3
    ensures FreeAlias(base, ext, {}, 1) == Some(Alias(base, ext, 1))
  {
  }

  lemma AliasOfLongNames(name: Name)
    requires name == LONG_NAMES
    ensures Alias(AliasBase(name), AliasExtension(name), 1) == [76, 79, 78, 71, 78, 65, 126, 49, 32, 32, 32]
  {
    hide Kept, Alias, AliasBase, AliasExtension;
    AliasWhole(name, name);
    LettersOfLongNames(name);
    AliasIs(AliasBase(name), [], 1, 6);
  }

  lemma OnePiece(name: Name, raw: Raw)
    requires 0 < |name| <= 13 && IsLong(name)
    ensures var b := LongBytes(name, raw);
            |b| == 32 && b[0] == 0x41 && b[1] == name[0] && b[13] == Checksum(raw)
  {
    hide LongEntry, Checksum, IsLong;
    var u := Units(name);
    assert Pieces(name) == 1 && u[0..13] == u;
    LongEntryIs(0x41, u, Checksum(raw), 0);
    var b := LongEntry(0x41, u, Checksum(raw));
    assert LongEntries(u, 1, 1, Checksum(raw)) == b + LongEntries(u, 1, 0, Checksum(raw)) == b;
    assert b[13] == b[11..14][2];
  }
}
