/** Diablo II release detection: a lookup of the game executable's file
    version, corrected by a four-byte signature of `storm.dll` where file
    versions are shared between releases. The files next to the executable
    are an input (name to contents); opening them is not modelled. */
module DiabloIIGameVersion {
  import opened Bytes
  import opened Wrappers
  import opened CLib
  import opened GameVersions
  import opened ShortVersions
  import opened FileSignatures
  import BinarySearch

  /** File version to release, in ascending version order, written as four
      consecutive stretches. 1.0.8.28 is listed twice. */
  const GameFileVersions: seq<VersionEntry> :=
    GameFileVersions1_01To1_05B + GameFileVersions1_06BTo1_09D + GameFileVersions1_10To1_13A + GameFileVersions1_13CTo1_14D

  const GameFileVersions1_01To1_05B: seq<VersionEntry> := [
    VersionEntry(ShortVersion(1, 0, 0, 1), DiabloII_1_01),
    VersionEntry(ShortVersion(1, 0, 2, 0), DiabloII_1_02),
    VersionEntry(ShortVersion(1, 0, 3, 0), DiabloII_1_03),
    VersionEntry(ShortVersion(1, 0, 4, 0), DiabloII_1_04),
    VersionEntry(ShortVersion(1, 0, 4, 1), DiabloII_1_04B),
    VersionEntry(ShortVersion(1, 0, 4, 2), DiabloII_1_04C),
    VersionEntry(ShortVersion(1, 0, 5, 0), DiabloII_1_05),
    VersionEntry(ShortVersion(1, 0, 5, 1), DiabloII_1_05B)
  ]

  const GameFileVersions1_06BTo1_09D: seq<VersionEntry> := [
    VersionEntry(ShortVersion(1, 0, 6, 0), DiabloII_1_06B),
    VersionEntry(ShortVersion(1, 0, 7, 0), DiabloII_1_07),
    VersionEntry(ShortVersion(1, 0, 8, 28), DiabloII_1_08),
    VersionEntry(ShortVersion(1, 0, 8, 28), DiabloII_1_08),
    VersionEntry(ShortVersion(1, 0, 9, 19), DiabloII_1_09),
    VersionEntry(ShortVersion(1, 0, 9, 20), DiabloII_1_09B),
    VersionEntry(ShortVersion(1, 0, 9, 21), DiabloII_1_09C),
    VersionEntry(ShortVersion(1, 0, 9, 22), DiabloII_1_09D)
  ]

  const GameFileVersions1_10To1_13A: seq<VersionEntry> := [
    VersionEntry(ShortVersion(1, 0, 10, 9), DiabloII_1_10_Beta),
    VersionEntry(ShortVersion(1, 0, 10, 10), DiabloII_1_10S_Beta),
    VersionEntry(ShortVersion(1, 0, 10, 39), DiabloII_1_10),
    VersionEntry(ShortVersion(1, 0, 11, 45), DiabloII_1_11),
    VersionEntry(ShortVersion(1, 0, 11, 46), DiabloII_1_11B),
    VersionEntry(ShortVersion(1, 0, 12, 49), DiabloII_1_12A),
    VersionEntry(ShortVersion(1, 0, 13, 55), DiabloII_1_13A_Ptr)
  ]

  const GameFileVersions1_13CTo1_14D: seq<VersionEntry> := [
    VersionEntry(ShortVersion(1, 0, 13, 60), DiabloII_1_13C),
    VersionEntry(ShortVersion(1, 0, 13, 64), DiabloII_1_13D),
    VersionEntry(ShortVersion(1, 14, 0, 64), DiabloII_1_14A),
    VersionEntry(ShortVersion(1, 14, 1, 68), DiabloII_1_14B),
    VersionEntry(ShortVersion(1, 14, 2, 70), DiabloII_1_14C),
    VersionEntry(ShortVersion(1, 14, 3, 71), DiabloII_1_14D)
  ]

  lemma GameFileVersions1_01To1_05BChecked()
    ensures CheckedFrom(GameFileVersions1_01To1_05B, 0)
  {
    CheckStep(GameFileVersions1_01To1_05B, 7);
    CheckStep(GameFileVersions1_01To1_05B, 6);
    CheckStep(GameFileVersions1_01To1_05B, 5);
    CheckStep(GameFileVersions1_01To1_05B, 4);
    CheckStep(GameFileVersions1_01To1_05B, 3);
    CheckStep(GameFileVersions1_01To1_05B, 2);
    CheckStep(GameFileVersions1_01To1_05B, 1);
    CheckStep(GameFileVersions1_01To1_05B, 0);
  }

  lemma GameFileVersions1_06BTo1_09DChecked()
    ensures CheckedFrom(GameFileVersions1_06BTo1_09D, 0)
  {
    CheckStep(GameFileVersions1_06BTo1_09D, 7);
    CheckStep(GameFileVersions1_06BTo1_09D, 6);
    CheckStep(GameFileVersions1_06BTo1_09D, 5);
    CheckStep(GameFileVersions1_06BTo1_09D, 4);
    CheckStep(GameFileVersions1_06BTo1_09D, 3);
    CheckStep(GameFileVersions1_06BTo1_09D, 2);
    CheckStep(GameFileVersions1_06BTo1_09D, 1);
    CheckStep(GameFileVersions1_06BTo1_09D, 0);
  }

  lemma GameFileVersions1_10To1_13AChecked()
    ensures CheckedFrom(GameFileVersions1_10To1_13A, 0)
  {
    CheckStep(GameFileVersions1_10To1_13A, 6);
    CheckStep(GameFileVersions1_10To1_13A, 5);
    CheckStep(GameFileVersions1_10To1_13A, 4);
    CheckStep(GameFileVersions1_10To1_13A, 3);
    CheckStep(GameFileVersions1_10To1_13A, 2);
    CheckStep(GameFileVersions1_10To1_13A, 1);
    CheckStep(GameFileVersions1_10To1_13A, 0);
  }

  lemma GameFileVersions1_13CTo1_14DChecked()
    ensures CheckedFrom(GameFileVersions1_13CTo1_14D, 0)
  {
    CheckStep(GameFileVersions1_13CTo1_14D, 5);
    CheckStep(GameFileVersions1_13CTo1_14D, 4);
    CheckStep(GameFileVersions1_13CTo1_14D, 3);
    CheckStep(GameFileVersions1_13CTo1_14D, 2);
    CheckStep(GameFileVersions1_13CTo1_14D, 1);
    CheckStep(GameFileVersions1_13CTo1_14D, 0);
  }

  /** The table is checked stretch by stretch, one entry per step. */
  lemma GameFileVersionsChecked()
    ensures CheckedFrom(GameFileVersions, 0)
  {
    GameFileVersions1_01To1_05BChecked();
    GameFileVersions1_06BTo1_09DChecked();
    GameFileVersions1_10To1_13AChecked();
    GameFileVersions1_13CTo1_14DChecked();
    CheckedConcat4(GameFileVersions1_01To1_05B, GameFileVersions1_06BTo1_09D,
                   GameFileVersions1_10To1_13A, GameFileVersions1_13CTo1_14D);
  }

  lemma GameFileVersionsWellFormed()
    ensures Sorted(GameFileVersions) && AllBounded(GameFileVersions)
    ensures KeysDetermineVersions(GameFileVersions)
    ensures forall i :: 0 <= i < |GameFileVersions| ==>
              GameFileVersions[i].gameVersion != VersionUnknown
  {
    GameFileVersionsChecked();
    CheckedTable(GameFileVersions);
  }

  /** The version a Diablo II executable's file version suggests: the key is
      the two file-version words split into 16-bit halves. */
  function SearchGameFileInfoTable(info: FixedFileInfo): (r: GameVersion)
    ensures var key := SplitKey(info.fileVersionMS, info.fileVersionLS);
            && (r != VersionUnknown <==>
                  exists i :: 0 <= i < |GameFileVersions| && GameFileVersions[i].shortVersion == key)
            && forall i :: 0 <= i < |GameFileVersions| && GameFileVersions[i].shortVersion == key
                 ==> r == GameFileVersions[i].gameVersion
  {
    GameFileVersionsWellFormed();
    LookupVersion(GameFileVersions, SplitKey(info.fileVersionMS, info.fileVersionLS))
  }

  const StormFileName: seq<char> := "storm.dll"

  /** Releases whose file version is shared with an earlier one: the guess,
      and the file signature that marks the other release. Ordered by guess. */
  const GuessCorrections: seq<GuessCorrectionSignature> := [
    GuessCorrectionSignature(
      DiabloII_1_06B,
      GameVersionSignature(FileSignature(StormFileName, 0xF0, [0x43, 0x0C, 0xD6, 0x3A]), DiabloII_1_06)),
    GuessCorrectionSignature(
      DiabloII_1_07,
      GameVersionSignature(FileSignature(StormFileName, 0xF8, [0x32, 0xA6, 0xDC, 0x3A]), DiabloII_1_07_Beta))
  ]

  /** The releases that share file version 1.0.0.1, told apart by the four
      bytes of `storm.dll` at 0xF0. Ordered by path, offset, then signature. */
  const Signatures1001: seq<GameVersionSignature> := [
    GameVersionSignature(FileSignature(StormFileName, 0xF0, [0x25, 0x47, 0x52, 0x39]), DiabloII_1_01),
    GameVersionSignature(FileSignature(StormFileName, 0xF0, [0x79, 0xBD, 0x20, 0x39]), DiabloII_StressTestBeta_1_02),
    GameVersionSignature(FileSignature(StormFileName, 0xF0, [0xB7, 0x70, 0xD0, 0x38]), DiabloII_Beta_1_02),
    GameVersionSignature(FileSignature(StormFileName, 0xF0, [0xBC, 0xC7, 0x2E, 0x39]), DiabloII_1_00)
  ]

  /** The four bytes at `offset` of a file next to the executable: opening a
      missing file, seeking to a negative offset or reading fewer than four
      bytes ends the process. */
  function ReadCheckBytes(files: map<seq<char>, seq<byte>>, name: seq<char>, offset: int)
    : (r: Result<Signature>)
    ensures r.Ok? <==> name in files && 0 <= offset && offset + 4 <= |files[name]|
    ensures r.Ok? ==> r.value == files[name][offset..offset + 4]
    ensures name !in files ==> r == Err(CannotOpenFile)
  {
    if name !in files then Err(CannotOpenFile)
    else if offset < 0 then Err(CannotSeek)
    else if offset + 4 > |files[name]| then Err(ShortRead)
    else Ok(files[name][offset..offset + 4])
  }

  /** `bsearch` over the correction table with `GuessCorrectionSignature_CompareGuess`. */
  function FindCorrection(guess: GameVersion): (r: Option<GuessCorrectionSignature>)
    ensures r.Some? <==> guess in {DiabloII_1_06B, DiabloII_1_07}
    ensures r.Some? ==> r.value in GuessCorrections && r.value.guessedVersion == guess
  {
    // The key's other fields are never read by the comparator.
    var key := GuessCorrectionSignature(guess, GuessCorrections[0].gameVersionSignature);
    var c := (e: GuessCorrectionSignature) => CompareGuess(key, e);
    assert BinarySearch.Partitioned(GuessCorrections, c);
    var found := BinarySearch.BSearch(GuessCorrections, c);
    if found.Some? then Some(GuessCorrections[found.value]) else None
  }

  /** `DetermineGameVersionByData`: a guess without a correction entry stands;
      otherwise the entry's release is returned exactly when the file holds
      its signature. */
  function DetermineGameVersionByData(files: map<seq<char>, seq<byte>>, guess: GameVersion)
    : (r: Result<GameVersion>)
    ensures guess !in {DiabloII_1_06B, DiabloII_1_07} ==> r == Ok(guess)
    ensures guess == DiabloII_1_06B ==>
              r == match ReadCheckBytes(files, StormFileName, 0xF0)
                   case Err(e) => Err(e)
                   case Ok(b) => Ok(if b == [0x43, 0x0C, 0xD6, 0x3A] then DiabloII_1_06 else guess)
    ensures guess == DiabloII_1_07 ==>
              r == match ReadCheckBytes(files, StormFileName, 0xF8)
                   case Err(e) => Err(e)
                   case Ok(b) => Ok(if b == [0x32, 0xA6, 0xDC, 0x3A] then DiabloII_1_07_Beta else guess)
  {
    var entry := FindCorrection(guess);
    if entry.None? then Ok(guess)
    else
      var signature := entry.value.gameVersionSignature;
      var check := ReadCheckBytes(files, signature.fileSignature.filePath, signature.fileSignature.offset);
      if check.Err? then Err(check.error)
      else if MemCompare(check.value, signature.fileSignature.signature) == 0 then Ok(signature.gameVersion)
      else Ok(guess)
  }

  lemma Signatures1001Sorted()
    ensures forall i, j :: 0 <= i < j < |Signatures1001| ==>
              FileSignatures.Less(Signatures1001[i].fileSignature, Signatures1001[j].fileSignature)
  {
    var t := Signatures1001;
    assert FileSignatures.Less(t[0].fileSignature, t[1].fileSignature);
    assert FileSignatures.Less(t[1].fileSignature, t[2].fileSignature);
    assert FileSignatures.Less(t[2].fileSignature, t[3].fileSignature);
    FileSignatures.LessTransitive(t[0].fileSignature, t[1].fileSignature, t[2].fileSignature);
    FileSignatures.LessTransitive(t[1].fileSignature, t[2].fileSignature, t[3].fileSignature);
    FileSignatures.LessTransitive(t[0].fileSignature, t[2].fileSignature, t[3].fileSignature);
  }

  /** Every entry of the 1.0.0.1 table is about `storm.dll` at 0xF0. */
  lemma Signatures1001Location()
    ensures forall i :: 0 <= i < |Signatures1001| ==>
              && Signatures1001[i].fileSignature.filePath == StormFileName
              && Signatures1001[i].fileSignature.offset == 0xF0
              && Signatures1001[i].gameVersion != VersionUnknown
  {
  }

  /** A signature table for one file and offset, strictly ordered, naming
      only known releases. */
  predicate SignatureTable(t: seq<GameVersionSignature>, path: seq<char>, offset: i32)
  {
    && (forall i, j :: 0 <= i < j < |t| ==> FileSignatures.Less(t[i].fileSignature, t[j].fileSignature))
    && (forall i :: 0 <= i < |t| ==> t[i].fileSignature.filePath == path && t[i].fileSignature.offset == offset)
    && (forall i :: 0 <= i < |t| ==> t[i].gameVersion != VersionUnknown)
  }

  /** No two entries of such a table share their four bytes. */
  lemma SignatureTableDistinct(t: seq<GameVersionSignature>, path: seq<char>, offset: i32)
    requires SignatureTable(t, path, offset)
    ensures forall i, j :: 0 <= i < |t| && 0 <= j < |t|
              && t[i].fileSignature.signature == t[j].fileSignature.signature
              ==> i == j
  {
    forall i, j | 0 <= i < |t| && 0 <= j < |t| && i != j
      ensures t[i].fileSignature.signature != t[j].fileSignature.signature
    {
      var (lo, hi) := if i < j then (i, j) else (j, i);
      FileSignatures.CompareAllIsLexicographic(t[lo].fileSignature, t[hi].fileSignature);
    }
  }

  /** `bsearch` with `GameVersionSignature_CompareSignature` for the bytes
      `b` read at `offset` of `path`: the release whose signature they are,
      `VERSION_UNKNOWN` when there is none. */
  function LookupSignature(t: seq<GameVersionSignature>, path: seq<char>, offset: i32, b: Signature)
    : (r: GameVersion)
    requires SignatureTable(t, path, offset)
    ensures r != VersionUnknown <==> exists i :: 0 <= i < |t| && t[i].fileSignature.signature == b
    ensures forall i :: 0 <= i < |t| && t[i].fileSignature.signature == b ==> r == t[i].gameVersion
  {
    var key := GameVersionSignature(FileSignature(path, offset, b), VersionUnknown);
    var c := (e: GameVersionSignature) => CompareSignature(key, e);
    SignatureTableDistinct(t, path, offset);
    SignaturesPartitioned(t, key, c);
    var found := BinarySearch.BSearch(t, c);
    if found.None? then VersionUnknown else t[found.value].gameVersion
  }

  /** The release the 1.0.0.1 table gives to the bytes read at 0xF0 of
      `storm.dll`, `VERSION_UNKNOWN` when it lists none. */
  function Lookup1001Signature(b: Signature): (r: GameVersion)
    ensures r != VersionUnknown <==>
              exists i :: 0 <= i < |Signatures1001| && Signatures1001[i].fileSignature.signature == b
    ensures forall i :: 0 <= i < |Signatures1001| && Signatures1001[i].fileSignature.signature == b
              ==> r == Signatures1001[i].gameVersion
  {
    Signatures1001Sorted();
    Signatures1001Location();
    LookupSignature(Signatures1001, StormFileName, 0xF0, b)
  }

  /** `Determine1001GameVersionByData`: reads four bytes of `storm.dll` at 0xF0
      (a failed read ends the process) and looks them up. */
  function Determine1001GameVersionByData(files: map<seq<char>, seq<byte>>): (r: Result<GameVersion>)
    ensures r.Err? <==> ReadCheckBytes(files, StormFileName, 0xF0).Err?
    ensures r.Err? ==> r.error == ReadCheckBytes(files, StormFileName, 0xF0).error
    ensures r.Ok? ==> r.value == Lookup1001Signature(ReadCheckBytes(files, StormFileName, 0xF0).value)
  {
    var check := ReadCheckBytes(files, StormFileName, 0xF0);
    if check.Err? then Err(check.error) else Ok(Lookup1001Signature(check.value))
  }

  /** A table strictly ordered by file signature is ordered for every key. */
  lemma SignaturesPartitioned(t: seq<GameVersionSignature>, key: GameVersionSignature, c: GameVersionSignature -> int)
    requires forall i, j :: 0 <= i < j < |t| ==> FileSignatures.Less(t[i].fileSignature, t[j].fileSignature)
    requires forall i :: 0 <= i < |t| ==> OffsetsComparable(key.fileSignature, t[i].fileSignature)
    requires forall e :: c(e) == CompareSignature(key, e)
    ensures BinarySearch.Partitioned(t, c)
  {
    forall i, j | 0 <= i < j < |t|
      ensures c(t[i]) <= 0 ==> c(t[j]) < 0
    {
      FileSignatures.CompareAllIsLexicographic(key.fileSignature, t[i].fileSignature);
      FileSignatures.CompareAllIsLexicographic(key.fileSignature, t[j].fileSignature);
      if FileSignatures.Less(key.fileSignature, t[i].fileSignature) {
        FileSignatures.LessTransitive(key.fileSignature, t[i].fileSignature, t[j].fileSignature);
      }
    }
  }

  /** The entries of the three file versions shared between releases. */
  lemma SharedFileVersionEntries()
    ensures GameFileVersions[0] == VersionEntry(ShortVersion(1, 0, 0, 1), DiabloII_1_01)
    ensures GameFileVersions[8] == VersionEntry(ShortVersion(1, 0, 6, 0), DiabloII_1_06B)
    ensures GameFileVersions[9] == VersionEntry(ShortVersion(1, 0, 7, 0), DiabloII_1_07)
  {
    assert GameFileVersions[8] == GameFileVersions1_06BTo1_09D[0];
    assert GameFileVersions[9] == GameFileVersions1_06BTo1_09D[1];
  }

  /** `Diablo_II_FindGameVersion`: the file-version guess, settled by the
      `storm.dll` signature table when the file version is 1.0.0.1 and by the
      correction table otherwise. */
  function FindGameVersion(info: FixedFileInfo, files: map<seq<char>, seq<byte>>): (r: Result<GameVersion>)
    ensures var key := SplitKey(info.fileVersionMS, info.fileVersionLS);
            && (key == ShortVersion(1, 0, 0, 1) ==> r == Determine1001GameVersionByData(files))
            && (key == ShortVersion(1, 0, 6, 0) ==> r == DetermineGameVersionByData(files, DiabloII_1_06B))
            && (key == ShortVersion(1, 0, 7, 0) ==> r == DetermineGameVersionByData(files, DiabloII_1_07))
            && ((forall i :: 0 <= i < |GameFileVersions| ==> GameFileVersions[i].shortVersion != key)
                  ==> r == Ok(VersionUnknown))
  {
    SharedFileVersionEntries();
    var guess := SearchGameFileInfoTable(info);
    if guess == DiabloII_1_01 then Determine1001GameVersionByData(files)
    else DetermineGameVersionByData(files, guess)
  }

  /** Apart from 1.0.0.1, 1.0.6.0 and 1.0.7.0, a listed file version decides
      the release without reading any file. */
  lemma FileVersionDecides(info: FixedFileInfo, files: map<seq<char>, seq<byte>>, i: nat)
    requires i < |GameFileVersions|
    requires GameFileVersions[i].shortVersion == SplitKey(info.fileVersionMS, info.fileVersionLS)
    requires GameFileVersions[i].gameVersion !in {DiabloII_1_01, DiabloII_1_06B, DiabloII_1_07}
    ensures FindGameVersion(info, files) == Ok(GameFileVersions[i].gameVersion)
  {
  }
}
