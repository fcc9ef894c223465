/** The `GameVersion` enumeration: every identified release of Diablo,
    Hellfire and Diablo II, with the numeric values the C enumeration gives
    them. Range tests elsewhere (`>= DIABLO_II_1_14A`, the name ranges of the
    printer) rely on those values. */
module GameVersions {
  import opened Wrappers

  datatype GameVersion =
    | VersionUnknown
    | Diablo_1_00 | Diablo_1_02 | Diablo_1_03 | Diablo_1_04 | Diablo_1_05
    | Diablo_1_07 | Diablo_1_08 | Diablo_1_09 | Diablo_1_09B
    | Hellfire_1_00 | Hellfire_1_01
    | DiabloII_Beta_1_02 | DiabloII_StressTestBeta_1_02
    | DiabloII_1_00 | DiabloII_1_01 | DiabloII_1_02 | DiabloII_1_03
    | DiabloII_1_04 | DiabloII_1_04B | DiabloII_1_04C | DiabloII_1_05
    | DiabloII_1_05B | DiabloII_1_06 | DiabloII_1_06B
    | DiabloII_1_07_Beta | DiabloII_1_07 | DiabloII_1_08 | DiabloII_1_09
    | DiabloII_1_09B | DiabloII_1_09C | DiabloII_1_09D | DiabloII_1_10_Beta
    | DiabloII_1_10S_Beta | DiabloII_1_10 | DiabloII_1_11 | DiabloII_1_11B
    | DiabloII_1_12A | DiabloII_1_13A_Ptr | DiabloII_1_13C | DiabloII_1_13D
    | DiabloII_1_14A | DiabloII_1_14B | DiabloII_1_14C | DiabloII_1_14D

  /** The numeric value of an enumerator: `VERSION_UNKNOWN` is -1 and the
      others count up from `DIABLO_1_00 = 1`. */
  function Ordinal(v: GameVersion): (r: int)
    ensures r == -1 <==> v == VersionUnknown
    ensures v != VersionUnknown ==> 1 <= r <= 44
  {
    match v
    case VersionUnknown => -1
    case Diablo_1_00 => 1
    case Diablo_1_02 => 2
    case Diablo_1_03 => 3
    case Diablo_1_04 => 4
    case Diablo_1_05 => 5
    case Diablo_1_07 => 6
    case Diablo_1_08 => 7
    case Diablo_1_09 => 8
    case Diablo_1_09B => 9
    case Hellfire_1_00 => 10
    case Hellfire_1_01 => 11
    case DiabloII_Beta_1_02 => 12
    case DiabloII_StressTestBeta_1_02 => 13
    case DiabloII_1_00 => 14
    case DiabloII_1_01 => 15
    case DiabloII_1_02 => 16
    case DiabloII_1_03 => 17
    case DiabloII_1_04 => 18
    case DiabloII_1_04B => 19
    case DiabloII_1_04C => 20
    case DiabloII_1_05 => 21
    case DiabloII_1_05B => 22
    case DiabloII_1_06 => 23
    case DiabloII_1_06B => 24
    case DiabloII_1_07_Beta => 25
    case DiabloII_1_07 => 26
    case DiabloII_1_08 => 27
    case DiabloII_1_09 => 28
    case DiabloII_1_09B => 29
    case DiabloII_1_09C => 30
    case DiabloII_1_09D => 31
    case DiabloII_1_10_Beta => 32
    case DiabloII_1_10S_Beta => 33
    case DiabloII_1_10 => 34
    case DiabloII_1_11 => 35
    case DiabloII_1_11B => 36
    case DiabloII_1_12A => 37
    case DiabloII_1_13A_Ptr => 38
    case DiabloII_1_13C => 39
    case DiabloII_1_13D => 40
    case DiabloII_1_14A => 41
    case DiabloII_1_14B => 42
    case DiabloII_1_14C => 43
    case DiabloII_1_14D => 44
  }

  /** The enumerator with a given numeric value, if there is one. */
  function FromOrdinal(n: int): (r: Option<GameVersion>)
    ensures r.Some? <==> n == -1 || 1 <= n <= 44
  {
    match n
    case -1 => Some(VersionUnknown)
    case 1 => Some(Diablo_1_00)
    case 2 => Some(Diablo_1_02)
    case 3 => Some(Diablo_1_03)
    case 4 => Some(Diablo_1_04)
    case 5 => Some(Diablo_1_05)
    case 6 => Some(Diablo_1_07)
    case 7 => Some(Diablo_1_08)
    case 8 => Some(Diablo_1_09)
    case 9 => Some(Diablo_1_09B)
    case 10 => Some(Hellfire_1_00)
    case 11 => Some(Hellfire_1_01)
    case 12 => Some(DiabloII_Beta_1_02)
    case 13 => Some(DiabloII_StressTestBeta_1_02)
    case 14 => Some(DiabloII_1_00)
    case 15 => Some(DiabloII_1_01)
    case 16 => Some(DiabloII_1_02)
    case 17 => Some(DiabloII_1_03)
    case 18 => Some(DiabloII_1_04)
    case 19 => Some(DiabloII_1_04B)
    case 20 => Some(DiabloII_1_04C)
    case 21 => Some(DiabloII_1_05)
    case 22 => Some(DiabloII_1_05B)
    case 23 => Some(DiabloII_1_06)
    case 24 => Some(DiabloII_1_06B)
    case 25 => Some(DiabloII_1_07_Beta)
    case 26 => Some(DiabloII_1_07)
    case 27 => Some(DiabloII_1_08)
    case 28 => Some(DiabloII_1_09)
    case 29 => Some(DiabloII_1_09B)
    case 30 => Some(DiabloII_1_09C)
    case 31 => Some(DiabloII_1_09D)
    case 32 => Some(DiabloII_1_10_Beta)
    case 33 => Some(DiabloII_1_10S_Beta)
    case 34 => Some(DiabloII_1_10)
    case 35 => Some(DiabloII_1_11)
    case 36 => Some(DiabloII_1_11B)
    case 37 => Some(DiabloII_1_12A)
    case 38 => Some(DiabloII_1_13A_Ptr)
    case 39 => Some(DiabloII_1_13C)
    case 40 => Some(DiabloII_1_13D)
    case 41 => Some(DiabloII_1_14A)
    case 42 => Some(DiabloII_1_14B)
    case 43 => Some(DiabloII_1_14C)
    case 44 => Some(DiabloII_1_14D)
    case _ => None
  }

  /** `VERSION_UNKNOWN` is -1, `DIABLO_1_00` is 1, the values are consecutive
      in declaration order and `DIABLO_II_1_14D` is 44. */
  lemma OrdinalRange(v: GameVersion)
    ensures Ordinal(v) == -1 <==> v == VersionUnknown
    ensures v != VersionUnknown ==> 1 <= Ordinal(v) <= 44
    ensures Ordinal(Diablo_1_00) == 1 && Ordinal(DiabloII_1_14D) == 44
  {
  }

  /** Distinct enumerators have distinct values, and the value determines the
      enumerator: `FromOrdinal` inverts `Ordinal`. */
  lemma OrdinalRoundTrip(v: GameVersion)
    ensures FromOrdinal(Ordinal(v)) == Some(v)
  {
    if Ordinal(v) <= 11 {
      RoundTripUpTo11(v);
    } else if Ordinal(v) <= 22 {
      RoundTripUpTo22(v);
    } else if Ordinal(v) <= 33 {
      RoundTripUpTo33(v);
    } else {
      RoundTripFrom34(v);
    }
  }

  lemma RoundTripUpTo11(v: GameVersion)
    requires Ordinal(v) <= 11
    ensures FromOrdinal(Ordinal(v)) == Some(v)
  {
  }

  lemma RoundTripUpTo22(v: GameVersion)
    requires 12 <= Ordinal(v) <= 22
    ensures FromOrdinal(Ordinal(v)) == Some(v)
  {
  }

  lemma RoundTripUpTo33(v: GameVersion)
    requires 23 <= Ordinal(v) <= 33
    ensures FromOrdinal(Ordinal(v)) == Some(v)
  {
  }

  lemma RoundTripFrom34(v: GameVersion)
    requires 34 <= Ordinal(v)
    ensures FromOrdinal(Ordinal(v)) == Some(v)
  {
  }

  lemma FromOrdinalRoundTrip(n: int)
    ensures FromOrdinal(n).Some? ==> Ordinal(FromOrdinal(n).value) == n
  {
    if n <= 22 {
      BackUpTo22(n);
    } else {
      BackFrom23(n);
    }
  }

  lemma BackUpTo22(n: int)
    requires n <= 22
    ensures FromOrdinal(n).Some? ==> Ordinal(FromOrdinal(n).value) == n
  {
  }

  lemma BackFrom23(n: int)
    requires 23 <= n
    ensures FromOrdinal(n).Some? ==> Ordinal(FromOrdinal(n).value) == n
  {
  }

  lemma OrdinalInjective(a: GameVersion, b: GameVersion)
    ensures Ordinal(a) == Ordinal(b) <==> a == b
  {
    if Ordinal(a) == Ordinal(b) {
      OrdinalRoundTrip(a);
      OrdinalRoundTrip(b);
    }
  }

  predicate IsDiablo(v: GameVersion) { 1 <= Ordinal(v) <= 9 }
  predicate IsHellfire(v: GameVersion) { 10 <= Ordinal(v) <= 11 }
  predicate IsDiabloII(v: GameVersion) { 12 <= Ordinal(v) <= 44 }

  /** Every Diablo value lies below every Hellfire value, which lies below
      every Diablo II value. */
  lemma FamiliesOrdered(a: GameVersion, b: GameVersion)
    ensures IsDiablo(a) && IsHellfire(b) ==> Ordinal(a) < Ordinal(b)
    ensures IsHellfire(a) && IsDiabloII(b) ==> Ordinal(a) < Ordinal(b)
  {
  }

  /** The four 1.14 releases are exactly the values from 1.14A on. */
  lemma LatestReleases(a: GameVersion)
    ensures Ordinal(a) >= Ordinal(DiabloII_1_14A) <==>
              a in {DiabloII_1_14A, DiabloII_1_14B, DiabloII_1_14C, DiabloII_1_14D}
  {
    OrdinalRange(a);
    OrdinalRoundTrip(a);
  }
}
