/** Diablo (1) release detection: the game executable's product version is
    looked up first; when it is not listed, the file version of `storm.dll`
    is looked up instead. Reading the two version resources is not part of
    this model: both arrive as `FixedFileInfo` values. */
module DiabloGameVersion {
  import opened GameVersions
  import opened ShortVersions

  /** Product version to release, as the source lists it: the entry for
      1.09B carries the key 1.0.9.1 under a note reading 1, 0, 9, 2. */
  const ProductVersions: seq<VersionEntry> := [
    VersionEntry(ShortVersion(1, 0, 8, 1), Diablo_1_08),
    VersionEntry(ShortVersion(1, 0, 9, 1), Diablo_1_09),
    VersionEntry(ShortVersion(1, 0, 9, 1), Diablo_1_09B),
    VersionEntry(ShortVersion(96, 12, 26, 3), Diablo_1_00),
    VersionEntry(ShortVersion(97, 4, 1, 1), Diablo_1_03),
    VersionEntry(ShortVersion(97, 5, 23, 1), Diablo_1_04)
  ]

  /** The product table with the 1.09B key its note gives, 1.0.9.2. */
  const CorrectedProductVersions: seq<VersionEntry> := [
    VersionEntry(ShortVersion(1, 0, 8, 1), Diablo_1_08),
    VersionEntry(ShortVersion(1, 0, 9, 1), Diablo_1_09),
    VersionEntry(ShortVersion(1, 0, 9, 2), Diablo_1_09B),
    VersionEntry(ShortVersion(96, 12, 26, 3), Diablo_1_00),
    VersionEntry(ShortVersion(97, 4, 1, 1), Diablo_1_03),
    VersionEntry(ShortVersion(97, 5, 23, 1), Diablo_1_04)
  ]

  /** `storm.dll` file version to release. */
  const StormVersions: seq<VersionEntry> := [
    VersionEntry(ShortVersion(1998, 4, 15, 1), Diablo_1_05),
    VersionEntry(ShortVersion(1998, 8, 11, 1), Diablo_1_07)
  ]

  /** What a table must be for the lookup: sorted for `bsearch`, with
      16-bit key fields and no unknown release. */
  predicate Searchable(t: seq<VersionEntry>)
  {
    && Sorted(t) && AllBounded(t)
    && forall i :: 0 <= i < |t| ==> t[i].gameVersion != VersionUnknown
  }

  /** The product table as written is sorted, but its key 1.0.9.1 names two
      releases. */
  lemma ProductVersionsSearchable()
    ensures Searchable(ProductVersions)
    ensures !KeysDetermineVersions(ProductVersions)
  {
    var t := ProductVersions;
    assert AdjacentSorted(t);
    AdjacentSortedIsSorted(t);
    assert t[1].shortVersion == t[2].shortVersion && t[1].gameVersion != t[2].gameVersion;
  }

  /** The last three entries of the corrected product table, checked. */
  lemma CorrectedProductTailChecked()
    ensures CheckedFrom(CorrectedProductVersions, 3)
  {
    var t := CorrectedProductVersions;
    CheckStep(t, 5);
    CheckStep(t, 4);
    CheckStep(t, 3);
  }

  lemma CorrectedProductChecked()
    ensures CheckedFrom(CorrectedProductVersions, 0)
  {
    var t := CorrectedProductVersions;
    CorrectedProductTailChecked();
    CheckStep(t, 2);
    CheckStep(t, 1);
    CheckStep(t, 0);
  }

  /** The corrected product table is sorted and each key names one release. */
  lemma CorrectedProductVersionsSearchable()
    ensures Searchable(CorrectedProductVersions) && KeysDetermineVersions(CorrectedProductVersions)
  {
    CorrectedProductChecked();
    CheckedTable(CorrectedProductVersions);
  }

  lemma StormVersionsSearchable()
    ensures Searchable(StormVersions) && KeysDetermineVersions(StormVersions)
  {
    CheckStep(StormVersions, 1);
    CheckStep(StormVersions, 0);
    CheckedTable(StormVersions);
  }

  /** `SearchGameVersionTable` over given tables: the product key (the two
      product-version words split into 16-bit halves) is looked up first,
      and the `storm.dll` file-version key only when that finds nothing. */
  function SearchTables(
    product: seq<VersionEntry>, storm: seq<VersionEntry>,
    diabloInfo: FixedFileInfo, stormInfo: FixedFileInfo): (r: GameVersion)
    requires Searchable(product) && Searchable(storm)
    ensures var p := SplitKey(diabloInfo.productVersionMS, diabloInfo.productVersionLS);
            var s := SplitKey(stormInfo.fileVersionMS, stormInfo.fileVersionLS);
            && ((exists i :: 0 <= i < |product| && product[i].shortVersion == p) ==>
                  exists i :: 0 <= i < |product| && product[i].shortVersion == p && product[i].gameVersion == r)
            && ((forall i :: 0 <= i < |product| ==> product[i].shortVersion != p) ==>
                  && (r != VersionUnknown <==> exists i :: 0 <= i < |storm| && storm[i].shortVersion == s)
                  && (r != VersionUnknown ==>
                        exists i :: 0 <= i < |storm| && storm[i].shortVersion == s && storm[i].gameVersion == r))
  {
    var fromProduct := LookupVersion(product, SplitKey(diabloInfo.productVersionMS, diabloInfo.productVersionLS));
    if fromProduct != VersionUnknown then fromProduct
    else LookupVersion(storm, SplitKey(stormInfo.fileVersionMS, stormInfo.fileVersionLS))
  }

  /** `SearchGameVersionTable` over the source's tables. */
  function SearchGameVersionTable(diabloInfo: FixedFileInfo, stormInfo: FixedFileInfo): (r: GameVersion)
    ensures var p := SplitKey(diabloInfo.productVersionMS, diabloInfo.productVersionLS);
            var s := SplitKey(stormInfo.fileVersionMS, stormInfo.fileVersionLS);
            && ((exists i :: 0 <= i < |ProductVersions| && ProductVersions[i].shortVersion == p) ==>
                  exists i :: 0 <= i < |ProductVersions| && ProductVersions[i].shortVersion == p
                                && ProductVersions[i].gameVersion == r)
            && ((forall i :: 0 <= i < |ProductVersions| ==> ProductVersions[i].shortVersion != p) ==>
                  && (r != VersionUnknown <==> exists i :: 0 <= i < |StormVersions| && StormVersions[i].shortVersion == s)
                  && (r != VersionUnknown ==>
                        exists i :: 0 <= i < |StormVersions| && StormVersions[i].shortVersion == s
                                      && StormVersions[i].gameVersion == r))
  {
    ProductVersionsSearchable();
    StormVersionsSearchable();
    SearchTables(ProductVersions, StormVersions, diabloInfo, stormInfo)
  }

  /** When the product version is not listed, the `storm.dll` version
      decides: 1998.4.15.1 is 1.05, 1998.8.11.1 is 1.07, anything else is
      unknown. */
  lemma StormDecides(diabloInfo: FixedFileInfo, stormInfo: FixedFileInfo)
    requires forall i :: 0 <= i < |ProductVersions| ==>
               ProductVersions[i].shortVersion != SplitKey(diabloInfo.productVersionMS, diabloInfo.productVersionLS)
    ensures var s := SplitKey(stormInfo.fileVersionMS, stormInfo.fileVersionLS);
            var r := SearchGameVersionTable(diabloInfo, stormInfo);
            && (s == ShortVersion(1998, 4, 15, 1) ==> r == Diablo_1_05)
            && (s == ShortVersion(1998, 8, 11, 1) ==> r == Diablo_1_07)
            && (s != ShortVersion(1998, 4, 15, 1) && s != ShortVersion(1998, 8, 11, 1) ==> r == VersionUnknown)
  {
    StormLookup(SplitKey(stormInfo.fileVersionMS, stormInfo.fileVersionLS));
  }

  /** The `storm.dll` table's answer for each key. */
  lemma StormLookup(s: ShortVersion)
    requires Bounded(s)
    ensures Searchable(StormVersions)
    ensures s == ShortVersion(1998, 4, 15, 1) ==> LookupVersion(StormVersions, s) == Diablo_1_05
    ensures s == ShortVersion(1998, 8, 11, 1) ==> LookupVersion(StormVersions, s) == Diablo_1_07
    ensures s != ShortVersion(1998, 4, 15, 1) && s != ShortVersion(1998, 8, 11, 1) ==>
              LookupVersion(StormVersions, s) == VersionUnknown
  {
    StormVersionsSearchable();
    var t := StormVersions;
    assert |t| == 2;
    assert t[0] == VersionEntry(ShortVersion(1998, 4, 15, 1), Diablo_1_05);
    assert t[1] == VersionEntry(ShortVersion(1998, 8, 11, 1), Diablo_1_07);
  }

  /** The lookup with the corrected product table: every listed product
      version names exactly its own release. */
  function SearchGameVersionTableCorrected(diabloInfo: FixedFileInfo, stormInfo: FixedFileInfo): (r: GameVersion)
    ensures var p := SplitKey(diabloInfo.productVersionMS, diabloInfo.productVersionLS);
            forall i :: 0 <= i < |CorrectedProductVersions| && CorrectedProductVersions[i].shortVersion == p
              ==> r == CorrectedProductVersions[i].gameVersion
  {
    CorrectedProductVersionsSearchable();
    StormVersionsSearchable();
    SearchTables(CorrectedProductVersions, StormVersions, diabloInfo, stormInfo)
  }

  /** In a sorted table, a key that lies strictly between the neighbours
      of the stretch `lo..hi` occurs nowhere outside that stretch. */
  lemma KeyOnlyWithin(t: seq<VersionEntry>, key: ShortVersion, lo: nat, hi: nat)
    requires Sorted(t) && lo <= hi < |t|
    requires lo > 0 ==> Less(t[lo - 1].shortVersion, key)
    requires hi + 1 < |t| ==> Less(key, t[hi + 1].shortVersion)
    ensures forall i :: 0 <= i < |t| && t[i].shortVersion == key ==> lo <= i <= hi
  {
    forall i | 0 <= i < |t| && t[i].shortVersion == key
      ensures lo <= i <= hi
    {
      if i < lo {
        assert LessEq(t[i].shortVersion, t[lo - 1].shortVersion);
        LessIrreflexive(key, t[lo - 1].shortVersion);
        assert false;
      } else if hi < i {
        assert LessEq(t[hi + 1].shortVersion, t[i].shortVersion);
        LessIrreflexive(key, t[hi + 1].shortVersion);
        assert false;
      }
    }
  }

  /** The product table's lookup of 1.0.9.1 lands on one of its two
      entries. */
  lemma DuplicateKeyLookup(p: ShortVersion)
    requires p == ShortVersion(1, 0, 9, 1)
    ensures Searchable(ProductVersions) && LookupVersion(ProductVersions, p) in {Diablo_1_09, Diablo_1_09B}
  {
    var t := ProductVersions;
    ProductVersionsSearchable();
    assert t[1].shortVersion == p;
    KeyOnlyWithin(t, p, 1, 2);
    var r := LookupVersion(t, p);
    var i :| 0 <= i < |t| && t[i].shortVersion == p && t[i].gameVersion == r;
    if i == 1 {
      assert r == Diablo_1_09;
    } else {
      assert i == 2;
      assert r == Diablo_1_09B;
    }
  }

  /** Product version 1.0.9.1 gives 1.09 or 1.09B: which of the two equal
      entries `bsearch` returns is not specified. */
  lemma DuplicateProductKey(diabloInfo: FixedFileInfo, stormInfo: FixedFileInfo)
    requires SplitKey(diabloInfo.productVersionMS, diabloInfo.productVersionLS) == ShortVersion(1, 0, 9, 1)
    ensures SearchGameVersionTable(diabloInfo, stormInfo) in {Diablo_1_09, Diablo_1_09B}
  {
    DuplicateKeyLookup(SplitKey(diabloInfo.productVersionMS, diabloInfo.productVersionLS));
  }

  /** A product version the table lists decides the release whatever the
      `storm.dll` version is. */
  lemma ProductHitIgnoresStorm(diabloInfo: FixedFileInfo, stormA: FixedFileInfo, stormB: FixedFileInfo)
    requires exists i :: 0 <= i < |ProductVersions|
               && ProductVersions[i].shortVersion == SplitKey(diabloInfo.productVersionMS, diabloInfo.productVersionLS)
    ensures SearchGameVersionTable(diabloInfo, stormA) == SearchGameVersionTable(diabloInfo, stormB)
  {
    ProductVersionsSearchable();
    var p := SplitKey(diabloInfo.productVersionMS, diabloInfo.productVersionLS);
    assert LookupVersion(ProductVersions, p) != VersionUnknown;
  }

  /** As written, product version 1.0.9.2, the one the note gives for 1.09B,
      is not recognised: with an unlisted `storm.dll` version the result is
      unknown. */
  lemma Release109BUnrecognised(diabloInfo: FixedFileInfo, stormInfo: FixedFileInfo)
    requires SplitKey(diabloInfo.productVersionMS, diabloInfo.productVersionLS) == ShortVersion(1, 0, 9, 2)
    requires SplitKey(stormInfo.fileVersionMS, stormInfo.fileVersionLS) == ShortVersion(1, 0, 9, 2)
    ensures SearchGameVersionTable(diabloInfo, stormInfo) == VersionUnknown
    ensures SearchGameVersionTableCorrected(diabloInfo, stormInfo) == Diablo_1_09B
  {
    assert CorrectedProductVersions[2].shortVersion == ShortVersion(1, 0, 9, 2);
  }
}
