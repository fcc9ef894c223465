/** Four-byte signatures at a fixed offset of a file next to the game
    executable, used to tell apart releases that share a file version. */
module FileSignatures {
  import opened Bytes
  import opened CLib
  import opened GameVersions

  type Signature = s: seq<byte> | |s| == 4 witness [0, 0, 0, 0]

  /** A C `int`. */
  type i32 = x: int | -0x8000_0000 <= x < 0x8000_0000

  datatype FileSignature = FileSignature(filePath: seq<char>, offset: i32, signature: Signature)

  datatype GameVersionSignature = GameVersionSignature(
    fileSignature: FileSignature, gameVersion: GameVersion)

  datatype GuessCorrectionSignature = GuessCorrectionSignature(
    guessedVersion: GameVersion, gameVersionSignature: GameVersionSignature)

  /** `signature1->offset - signature2->offset`: a subtraction of two C
      `int`s. Where the exact difference does not fit in an `int` it wraps
      (two's complement), as a 32-bit build computes it. */
  function OffsetDiff(a: i32, b: i32): (d: i32)
    ensures d == 0 <==> a == b
    ensures -0x8000_0000 <= a - b < 0x8000_0000 ==> d == a - b
    ensures a - b >= 0x8000_0000 ==> d == a - b - Modulus32
    ensures a - b < -0x8000_0000 ==> d == a - b + Modulus32
  {
    var x := a - b;
    var d := Signed32(Sub32(a, b));
    if x >= 0 then
      DivideExactly(x, 0, x, Modulus32);
      d
    else
      DivideExactly(x, -1, x + Modulus32, Modulus32);
      d
  }

  /** `FileSignature_CompareAll`: by file path (`wcscmp`), then by offset,
      then by the signature bytes (`memcmp`). */
  function CompareAll(f1: FileSignature, f2: FileSignature): (r: int)
    ensures r == 0 <==> f1 == f2
  {
    var pathDiff := WideCompare(f1.filePath, f2.filePath);
    if pathDiff != 0 then pathDiff
    else
      var offsetDiff := OffsetDiff(f1.offset, f2.offset);
      if offsetDiff != 0 then offsetDiff
      else MemCompare(f1.signature, f2.signature)
  }

  /** The offsets are less than 2^31 apart, so their difference is an
      `int` in either order. */
  predicate OffsetsComparable(f1: FileSignature, f2: FileSignature)
  {
    -0x8000_0000 < f1.offset - f2.offset < 0x8000_0000
  }

  /** The lexicographic order on (path, offset, signature). */
  predicate Less(f1: FileSignature, f2: FileSignature)
  {
    || WideCompare(f1.filePath, f2.filePath) < 0
    || (f1.filePath == f2.filePath && f1.offset < f2.offset)
    || (f1.filePath == f2.filePath && f1.offset == f2.offset
        && MemCompare(f1.signature, f2.signature) < 0)
  }

  /** For offsets whose difference does not overflow, the sign of
      `CompareAll` is that lexicographic order, both ways. */
  lemma CompareAllIsLexicographic(f1: FileSignature, f2: FileSignature)
    requires OffsetsComparable(f1, f2)
    ensures CompareAll(f1, f2) < 0 <==> Less(f1, f2)
    ensures CompareAll(f1, f2) > 0 <==> Less(f2, f1)
  {
    WideCompareAntisymmetric(f1.filePath, f2.filePath);
    MemCompareAntisymmetric(f1.signature, f2.signature);
  }

  /** Offsets 2^31 or more apart wrap: offset -2^31 lies below offset 1,
      yet compares above it. */
  lemma OffsetOverflowMisorder(path: seq<char>, b: Signature)
    ensures var low := FileSignature(path, -0x8000_0000, b);
            var high := FileSignature(path, 1, b);
            Less(low, high) && CompareAll(low, high) > 0
  {
  }

  lemma LessTransitive(a: FileSignature, b: FileSignature, c: FileSignature)
    requires Less(a, b) && Less(b, c)
    ensures Less(a, c)
  {
    if WideCompare(a.filePath, b.filePath) < 0 && WideCompare(b.filePath, c.filePath) < 0 {
      WideCompareTransitive(a.filePath, b.filePath, c.filePath);
    }
    if a.filePath == b.filePath == c.filePath && a.offset == b.offset == c.offset
       && MemCompare(a.signature, b.signature) < 0 && MemCompare(b.signature, c.signature) < 0 {
      MemCompareTransitive(a.signature, b.signature, c.signature);
    }
  }

  /** `GameVersionSignature_CompareSignature`: compares the file signatures
      only. */
  function CompareSignature(e1: GameVersionSignature, e2: GameVersionSignature): (r: int)
    ensures r == 0 <==> e1.fileSignature == e2.fileSignature
  {
    CompareAll(e1.fileSignature, e2.fileSignature)
  }

  /** `GuessCorrectionSignature_CompareGuess`: the difference of the guessed
      versions' enumeration values. */
  function CompareGuess(e1: GuessCorrectionSignature, e2: GuessCorrectionSignature): (r: int)
    ensures r == 0 <==> e1.guessedVersion == e2.guessedVersion
    ensures r < 0 <==> Ordinal(e1.guessedVersion) < Ordinal(e2.guessedVersion)
  {
    OrdinalInjective(e1.guessedVersion, e2.guessedVersion);
    Ordinal(e1.guessedVersion) - Ordinal(e2.guessedVersion)
  }

  /** The entry comparators look at their key only. */
  lemma ComparatorsIgnorePayload(
    a: GameVersionSignature, b: GameVersionSignature,
    c: GuessCorrectionSignature, d: GuessCorrectionSignature,
    g: GameVersion, s: GameVersionSignature)
    ensures CompareSignature(a.(gameVersion := g), b) == CompareSignature(a, b)
    ensures CompareGuess(c.(gameVersionSignature := s), d) == CompareGuess(c, d)
  {
  }
}
