/** Hellfire release detection: the executable's "FileVersion" string, as
    the version resource holds it, looked up by exact `wcscmp` equality.
    Reading the resource is not part of this model: the string is an input. */
module HellfireGameVersion {
  import opened CLib
  import opened GameVersions
  import opened ShortVersions
  import BinarySearch

  /** Version string to release, in ascending `wcscmp` order. */
  const HellfireVersions: seq<VersionStringEntry> := [
    VersionStringEntry(ShortVersionString("1, 0, 0, 0"), Hellfire_1_00),
    VersionStringEntry(ShortVersionString("1, 0, 1, 0"), Hellfire_1_01)
  ]

  /** Strictly ascending in `wcscmp` order. */
  predicate StringSorted(t: seq<VersionStringEntry>)
  {
    forall i, j :: 0 <= i < j < |t| ==>
      WideCompare(t[i].shortVersionStr.versionStr, t[j].shortVersionStr.versionStr) < 0
  }

  lemma HellfireKeysOrdered(a: seq<char>, b: seq<char>)
    requires a == "1, 0, 0, 0" && b == "1, 0, 1, 0"
    ensures WideCompare(a, b) < 0
  {
    assert a[..6] == b[..6];
    WideCompareFirstDifference(a, b, 6);
  }

  lemma HellfireVersionsSorted()
    ensures StringSorted(HellfireVersions)
  {
    var t := HellfireVersions;
    HellfireKeysOrdered(t[0].shortVersionStr.versionStr, t[1].shortVersionStr.versionStr);
  }

  /** Every key of a strictly ascending table finds the table in order. */
  lemma StringSortedIsPartitioned(t: seq<VersionStringEntry>, key: VersionStringEntry, c: VersionStringEntry -> int)
    requires StringSorted(t)
    requires forall e :: c(e) == StringEntryCompareKey(key, e)
    ensures BinarySearch.Partitioned(t, c)
  {
    forall i, j | 0 <= i < j < |t|
      ensures c(t[i]) <= 0 ==> c(t[j]) < 0
    {
      var k, a, b := key.shortVersionStr.versionStr, t[i].shortVersionStr.versionStr, t[j].shortVersionStr.versionStr;
      if WideCompare(k, a) < 0 {
        WideCompareTransitive(k, a, b);
      }
    }
  }

  /** `SearchGameVersionTable`: `bsearch` with
      `ShortVersionStringAndGameVersionEntry_CompareKey`; the release of the
      entry whose string equals the input exactly, `VERSION_UNKNOWN` when no
      entry's does. */
  function SearchGameVersionTable(fileVersion: seq<char>): (r: GameVersion)
    ensures r == Hellfire_1_00 <==> fileVersion == "1, 0, 0, 0"
    ensures r == Hellfire_1_01 <==> fileVersion == "1, 0, 1, 0"
    ensures r == VersionUnknown <==> fileVersion !in {"1, 0, 0, 0", "1, 0, 1, 0"}
  {
    var t := HellfireVersions;
    var key := VersionStringEntry(ShortVersionString(fileVersion), VersionUnknown);
    var c := (e: VersionStringEntry) => StringEntryCompareKey(key, e);
    HellfireVersionsSorted();
    StringSortedIsPartitioned(t, key, c);
    var found := BinarySearch.BSearch(t, c);
    assert c(t[0]) == 0 <==> fileVersion == "1, 0, 0, 0";
    assert c(t[1]) == 0 <==> fileVersion == "1, 0, 1, 0";
    if found.Some? then t[found.value].gameVersion else VersionUnknown
  }
}
