/** Four-part version numbers (`major.major.minor.minor`) and the comparators
    the version tables are searched with. */
module ShortVersions {
  import opened Bytes
  import opened CLib
  import opened GameVersions
  import opened Wrappers
  import BinarySearch

  datatype ShortVersion = ShortVersion(
    majorLeft: u32, majorRight: u32, minorLeft: u32, minorRight: u32)

  datatype ShortVersionString = ShortVersionString(versionStr: seq<char>)

  datatype VersionEntry = VersionEntry(shortVersion: ShortVersion, gameVersion: GameVersion)

  datatype VersionStringEntry = VersionStringEntry(
    shortVersionStr: ShortVersionString, gameVersion: GameVersion)

  /** The difference of two DWORD fields as the C code computes it: unsigned
      subtraction, wrapping modulo 2^32, then returned as a signed `int`. */
  function FieldDiff(a: u32, b: u32): (d: int)
    ensures d == 0 <==> a == b
  {
    Signed32(Sub32(a, b))
  }

  /** `ShortVersion_CompareAll`: the first field (major_left, major_right,
      minor_left, minor_right) whose difference is non-zero decides. */
  function CompareAll(v1: ShortVersion, v2: ShortVersion): (r: int)
    ensures r == 0 <==> v1 == v2
  {
    var dMajorLeft := FieldDiff(v1.majorLeft, v2.majorLeft);
    if dMajorLeft != 0 then dMajorLeft
    else
      var dMajorRight := FieldDiff(v1.majorRight, v2.majorRight);
      if dMajorRight != 0 then dMajorRight
      else
        var dMinorLeft := FieldDiff(v1.minorLeft, v2.minorLeft);
        if dMinorLeft != 0 then dMinorLeft
        else FieldDiff(v1.minorRight, v2.minorRight)
  }

  /** Lexicographic order on the four fields, the order the tables are meant
      to be sorted in. */
  predicate Less(v1: ShortVersion, v2: ShortVersion)
  {
    || v1.majorLeft < v2.majorLeft
    || (v1.majorLeft == v2.majorLeft && v1.majorRight < v2.majorRight)
    || (v1.majorLeft == v2.majorLeft && v1.majorRight == v2.majorRight
        && v1.minorLeft < v2.minorLeft)
    || (v1.majorLeft == v2.majorLeft && v1.majorRight == v2.majorRight
        && v1.minorLeft == v2.minorLeft && v1.minorRight < v2.minorRight)
  }

  /** Every field fits in 16 bits, as the keys split from version words do. */
  predicate Bounded(v: ShortVersion)
  {
    v.majorLeft < 0x1_0000 && v.majorRight < 0x1_0000
    && v.minorLeft < 0x1_0000 && v.minorRight < 0x1_0000
  }

  lemma FieldDiffSign(a: u32, b: u32)
    requires a < 0x1_0000 && b < 0x1_0000
    ensures FieldDiff(a, b) == a - b
  {
  }

  /** For fields below 2^16 the sign of `CompareAll` is the lexicographic
      order, in both directions. */
  lemma CompareAllIsLexicographic(v1: ShortVersion, v2: ShortVersion)
    requires Bounded(v1) && Bounded(v2)
    ensures CompareAll(v1, v2) < 0 <==> Less(v1, v2)
    ensures CompareAll(v1, v2) > 0 <==> Less(v2, v1)
  {
    FieldDiffSign(v1.majorLeft, v2.majorLeft);
    FieldDiffSign(v1.majorRight, v2.majorRight);
    FieldDiffSign(v1.minorLeft, v2.minorLeft);
    FieldDiffSign(v1.minorRight, v2.minorRight);
  }

  /** For fields below 2^16 the comparison is antisymmetric. */
  lemma CompareAllAntisymmetric(v1: ShortVersion, v2: ShortVersion)
    requires Bounded(v1) && Bounded(v2)
    ensures CompareAll(v1, v2) < 0 <==> CompareAll(v2, v1) > 0
  {
    CompareAllIsLexicographic(v1, v2);
    CompareAllIsLexicographic(v2, v1);
  }

  lemma LessTransitive(a: ShortVersion, b: ShortVersion, c: ShortVersion)
    requires Less(a, b) && Less(b, c)
    ensures Less(a, c)
  {
  }

  /** Without the 16-bit bound the wrapped difference can have the wrong
      sign: 0x80000000.0.0.0 compares below 0.0.0.0. */
  lemma UnboundedFieldsMisorder()
    ensures var big := ShortVersion(0x8000_0000, 0, 0, 0);
            var zero := ShortVersion(0, 0, 0, 0);
            Less(zero, big) && CompareAll(big, zero) < 0
  {
  }

  /** `ShortVersionString_CompareAll`: `wcscmp` over the whole string. */
  function StringCompareAll(s1: ShortVersionString, s2: ShortVersionString): (r: int)
    ensures r == 0 <==> s1 == s2
  {
    WideCompare(s1.versionStr, s2.versionStr)
  }

  /** `ShortVersionAndGameVersionEntry_CompareKey`: compares the version key
      only; the game version of either entry plays no part. */
  function EntryCompareKey(e1: VersionEntry, e2: VersionEntry): (r: int)
    ensures r == 0 <==> e1.shortVersion == e2.shortVersion
  {
    CompareAll(e1.shortVersion, e2.shortVersion)
  }

  /** `ShortVersionStringAndGameVersionEntry_CompareKey`: compares the version
      string only. */
  function StringEntryCompareKey(e1: VersionStringEntry, e2: VersionStringEntry): (r: int)
    ensures r == 0 <==> e1.shortVersionStr == e2.shortVersionStr
  {
    StringCompareAll(e1.shortVersionStr, e2.shortVersionStr)
  }

  /** Both entry comparators ignore the `game_version` field. */
  lemma EntryComparatorsIgnoreGameVersion(
    e1: VersionEntry, e2: VersionEntry, s1: VersionStringEntry, s2: VersionStringEntry,
    g1: GameVersion, g2: GameVersion)
    ensures EntryCompareKey(e1.(gameVersion := g1), e2.(gameVersion := g2)) == EntryCompareKey(e1, e2)
    ensures StringEntryCompareKey(s1.(gameVersion := g1), s2.(gameVersion := g2))
            == StringEntryCompareKey(s1, s2)
  {
  }

  predicate LessEq(v1: ShortVersion, v2: ShortVersion)
  {
    Less(v1, v2) || v1 == v2
  }

  /** The version words of a `VS_FIXEDFILEINFO` record that the detectors
      read. */
  datatype FixedFileInfo = FixedFileInfo(
    fileVersionMS: u32, fileVersionLS: u32,
    productVersionMS: u32, productVersionLS: u32)

  /** `(w >> 16) & 0xFFFF` and `(w >> 0) & 0xFFFF` on a 32-bit word. */
  function High16(w: u32): u32 { (w / 0x1_0000) % 0x1_0000 }
  function Low16(w: u32): u32 { w % 0x1_0000 }

  /** The search key built from a pair of version words: each word split
      into its high and low 16-bit halves. */
  function SplitKey(ms: u32, ls: u32): (v: ShortVersion)
    ensures Bounded(v)
  {
    ShortVersion(High16(ms), Low16(ms), High16(ls), Low16(ls))
  }

  /** The two words packed back from a key of 16-bit fields. */
  function JoinKey(v: ShortVersion): (u32, u32)
    requires Bounded(v)
  {
    (v.majorLeft * 0x1_0000 + v.majorRight, v.minorLeft * 0x1_0000 + v.minorRight)
  }

  /** Splitting loses nothing: the halves put back together give the words,
      and a key of 16-bit fields is the split of its packed words. */
  lemma SplitKeyRoundTrip(ms: u32, ls: u32, v: ShortVersion)
    ensures JoinKey(SplitKey(ms, ls)) == (ms, ls)
    ensures Bounded(v) ==> SplitKey(JoinKey(v).0, JoinKey(v).1) == v
  {
  }

  /** Every entry's key fits in 16-bit fields. */
  predicate AllBounded(t: seq<VersionEntry>)
  {
    forall i :: 0 <= i < |t| ==> Bounded(t[i].shortVersion)
  }

  /** Each entry's key is at most the next one's. */
  predicate AdjacentSorted(t: seq<VersionEntry>)
  {
    forall k :: 0 <= k < |t| - 1 ==> LessEq(t[k].shortVersion, t[k + 1].shortVersion)
  }

  /** The table is in non-decreasing key order, as `bsearch` requires. */
  predicate Sorted(t: seq<VersionEntry>)
  {
    forall i, j :: 0 <= i < j < |t| ==> LessEq(t[i].shortVersion, t[j].shortVersion)
  }

  lemma {:induction false} AdjacentSortedIsSorted(t: seq<VersionEntry>)
    requires AdjacentSorted(t)
    ensures Sorted(t)
  {
    if |t| > 1 {
      AdjacentSortedIsSorted(t[1..]);
      forall j | 1 < j < |t|
        ensures LessEq(t[0].shortVersion, t[j].shortVersion)
      {
        assert LessEq(t[1..][0].shortVersion, t[1..][j - 1].shortVersion);
        assert LessEq(t[0].shortVersion, t[1].shortVersion);
      }
    }
  }

  /** A sorted table of 16-bit keys is ordered for every 16-bit search key,
      so `bsearch` over it is well defined. */
  lemma SortedIsPartitioned(t: seq<VersionEntry>, key: ShortVersion)
    requires Sorted(t) && AllBounded(t) && Bounded(key)
    ensures BinarySearch.Partitioned(t, (e: VersionEntry) => CompareAll(key, e.shortVersion))
  {
    forall i, j | 0 <= i < j < |t|
      ensures CompareAll(key, t[i].shortVersion) <= 0 ==> CompareAll(key, t[j].shortVersion) <= 0
      ensures CompareAll(key, t[i].shortVersion) < 0 ==> CompareAll(key, t[j].shortVersion) < 0
    {
      CompareAllIsLexicographic(key, t[i].shortVersion);
      CompareAllIsLexicographic(key, t[j].shortVersion);
      if Less(key, t[i].shortVersion) && Less(t[i].shortVersion, t[j].shortVersion) {
        LessTransitive(key, t[i].shortVersion, t[j].shortVersion);
      }
    }
  }

  /** The entry `bsearch` finds for a key with `EntryCompareKey`, if any. */
  function FindEntry(t: seq<VersionEntry>, key: ShortVersion): (r: Option<VersionEntry>)
    requires Sorted(t) && AllBounded(t) && Bounded(key)
    ensures r.Some? <==> exists i :: 0 <= i < |t| && t[i].shortVersion == key
    ensures r.Some? ==> r.value in t && r.value.shortVersion == key
  {
    var c := (e: VersionEntry) => EntryCompareKey(VersionEntry(key, VersionUnknown), e);
    assert forall e :: c(e) == CompareAll(key, e.shortVersion);
    SortedIsPartitioned(t, key);
    assert BinarySearch.Partitioned(t, c);
    var found := BinarySearch.BSearch(t, c);
    if found.Some? then Some(t[found.value]) else None
  }

  /** Equal keys in the table always carry the same game version. */
  predicate KeysDetermineVersions(t: seq<VersionEntry>)
  {
    forall i, j :: 0 <= i < |t| && 0 <= j < |t| && t[i].shortVersion == t[j].shortVersion
      ==> t[i].gameVersion == t[j].gameVersion
  }

  /** Neighbouring entries with equal keys carry the same game version. */
  predicate AdjacentKeysDetermineVersions(t: seq<VersionEntry>)
  {
    forall k :: 0 <= k < |t| - 1 && t[k].shortVersion == t[k + 1].shortVersion
      ==> t[k].gameVersion == t[k + 1].gameVersion
  }

  lemma LessIrreflexive(a: ShortVersion, b: ShortVersion)
    ensures Less(a, b) ==> !Less(b, a) && a != b
  {
  }

  /** In a sorted table the entries with one key are contiguous, so checking
      neighbours suffices for the whole table. */
  lemma {:induction false} AdjacentKeysSuffice(t: seq<VersionEntry>)
    requires Sorted(t) && AdjacentKeysDetermineVersions(t)
    ensures KeysDetermineVersions(t)
  {
    if |t| > 1 {
      AdjacentKeysSuffice(t[1..]);
      forall j | 0 < j < |t| && t[0].shortVersion == t[j].shortVersion
        ensures t[0].gameVersion == t[j].gameVersion
      {
        assert LessEq(t[0].shortVersion, t[1].shortVersion);
        assert LessEq(t[1].shortVersion, t[j].shortVersion);
        assert t[0].shortVersion == t[1].shortVersion;
        assert t[1..][0] == t[1] && t[1..][j - 1] == t[j];
      }
    }
  }

  /** The version a table assigns to a key, `VERSION_UNKNOWN` when `bsearch`
      finds no entry: the lookup every detector performs. */
  function LookupVersion(t: seq<VersionEntry>, key: ShortVersion): (r: GameVersion)
    requires Sorted(t) && AllBounded(t) && Bounded(key)
    requires forall i :: 0 <= i < |t| ==> t[i].gameVersion != VersionUnknown
    ensures r != VersionUnknown <==> exists i :: 0 <= i < |t| && t[i].shortVersion == key
    ensures r != VersionUnknown ==>
              exists i :: 0 <= i < |t| && t[i].shortVersion == key && t[i].gameVersion == r
    ensures KeysDetermineVersions(t) ==>
              forall i :: 0 <= i < |t| && t[i].shortVersion == key ==> r == t[i].gameVersion
  {
    var found := FindEntry(t, key);
    if found.Some? then found.value.gameVersion else VersionUnknown
  }

  /** From position `k` on, every key has 16-bit fields and names a known
      release, each key is at most the next one's, and equal neighbouring
      keys carry the same game version. Checked one entry at a time on
      constant tables. */
  predicate CheckedFrom(t: seq<VersionEntry>, k: nat)
    decreases |t| - k
  {
    k >= |t|
    || (&& Bounded(t[k].shortVersion)
        && t[k].gameVersion != VersionUnknown
        && (k + 1 < |t| ==>
              && LessEq(t[k].shortVersion, t[k + 1].shortVersion)
              && (t[k].shortVersion == t[k + 1].shortVersion ==> t[k].gameVersion == t[k + 1].gameVersion))
        && CheckedFrom(t, k + 1))
  }

  /** Extends a checked suffix of a table by one entry. */
  lemma CheckStep(t: seq<VersionEntry>, k: nat)
    requires k < |t| && Bounded(t[k].shortVersion) && t[k].gameVersion != VersionUnknown
    requires k + 1 < |t| ==> LessEq(t[k].shortVersion, t[k + 1].shortVersion)
    requires k + 1 < |t| && t[k].shortVersion == t[k + 1].shortVersion ==> t[k].gameVersion == t[k + 1].gameVersion
    requires CheckedFrom(t, k + 1)
    ensures CheckedFrom(t, k)
  {
  }

  lemma {:induction false} CheckedFromSound(t: seq<VersionEntry>, k: nat)
    requires CheckedFrom(t, k)
    ensures forall i :: k <= i < |t| ==> Bounded(t[i].shortVersion) && t[i].gameVersion != VersionUnknown
    ensures forall i :: k <= i < |t| - 1 ==> LessEq(t[i].shortVersion, t[i + 1].shortVersion)
    ensures forall i :: k <= i < |t| - 1 && t[i].shortVersion == t[i + 1].shortVersion
              ==> t[i].gameVersion == t[i + 1].gameVersion
    decreases |t| - k
  {
    if k < |t| {
      CheckedFromSound(t, k + 1);
    }
  }

  /** The last key of `a` is at most the first key of `b`, with the same
      version when they are equal. */
  predicate Joins(a: seq<VersionEntry>, b: seq<VersionEntry>)
  {
    0 < |a| && 0 < |b| ==>
      && LessEq(a[|a| - 1].shortVersion, b[0].shortVersion)
      && (a[|a| - 1].shortVersion == b[0].shortVersion ==> a[|a| - 1].gameVersion == b[0].gameVersion)
  }

  lemma {:induction false} CheckedSuffixOfConcat(a: seq<VersionEntry>, b: seq<VersionEntry>, j: nat)
    requires CheckedFrom(b, j)
    ensures CheckedFrom(a + b, |a| + j)
    decreases |b| - j
  {
    if j < |b| {
      CheckedSuffixOfConcat(a, b, j + 1);
      assert (a + b)[|a| + j] == b[j];
      if j + 1 < |b| {
        assert (a + b)[|a| + j + 1] == b[j + 1];
      }
    }
  }

  lemma {:induction false} CheckedPrefixOfConcat(a: seq<VersionEntry>, b: seq<VersionEntry>, k: nat)
    requires k <= |a| && CheckedFrom(a, k) && CheckedFrom(b, 0)
    requires Joins(a, b)
    ensures CheckedFrom(a + b, k)
    decreases |a| - k
  {
    if k == |a| {
      CheckedSuffixOfConcat(a, b, 0);
    } else {
      CheckedPrefixOfConcat(a, b, k + 1);
      assert (a + b)[k] == a[k];
      if k + 1 < |a| {
        assert (a + b)[k + 1] == a[k + 1];
      } else if 0 < |b| {
        assert (a + b)[k + 1] == b[0];
      }
    }
  }

  /** Two checked tables joined where the first one's last key is at most
      the second one's first key form a checked table. */
  lemma CheckedConcat(a: seq<VersionEntry>, b: seq<VersionEntry>)
    requires CheckedFrom(a, 0) && CheckedFrom(b, 0)
    requires Joins(a, b)
    ensures CheckedFrom(a + b, 0)
  {
    CheckedPrefixOfConcat(a, b, 0);
  }

  /** Four checked stretches joined in order form a checked table. */
  lemma CheckedConcat4(a: seq<VersionEntry>, b: seq<VersionEntry>, c: seq<VersionEntry>, d: seq<VersionEntry>)
    requires CheckedFrom(a, 0) && CheckedFrom(b, 0) && CheckedFrom(c, 0) && CheckedFrom(d, 0)
    requires 0 < |b| && 0 < |c|
    requires Joins(a, b) && Joins(b, c) && Joins(c, d)
    ensures CheckedFrom(a + b + c + d, 0)
  {
    CheckedConcat(a, b);
    assert (a + b)[|a + b| - 1] == b[|b| - 1];
    CheckedConcat(a + b, c);
    assert (a + b + c)[|a + b + c| - 1] == c[|c| - 1];
    CheckedConcat(a + b + c, d);
  }

  /** A table checked entry by entry is sorted, bounded, free of unknown
      releases, and its keys determine the versions. */
  lemma CheckedTable(t: seq<VersionEntry>)
    requires CheckedFrom(t, 0)
    ensures Sorted(t) && AllBounded(t) && KeysDetermineVersions(t)
    ensures forall i :: 0 <= i < |t| ==> t[i].gameVersion != VersionUnknown
  {
    CheckedFromSound(t, 0);
    AdjacentSortedIsSorted(t);
    AdjacentKeysSuffice(t);
  }
}
