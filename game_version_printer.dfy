/** The text a game version is printed as: a game name chosen by numeric
    range and a version label chosen by enumerator. Both take the raw
    numeric value, since a C enumeration variable can hold any `int`. The
    `printf` itself is not modelled. */
module GameVersionPrinter {
  import opened Wrappers
  import opened GameVersions

  /** `GetGameName`: "Diablo" for `DIABLO_1_00`..`DIABLO_1_09B`, "Hellfire"
      for the two Hellfire values, "Diablo II" for `DIABLO_II_BETA_1_02`..
      `DIABLO_II_1_14D`, "Unknown game" for `VERSION_UNKNOWN`; any other
      value ends the process. */
  function GetGameName(v: int): (r: Result<string>)
    ensures r == Ok("Diablo") <==> Ordinal(Diablo_1_00) <= v <= Ordinal(Diablo_1_09B)
    ensures r == Ok("Hellfire") <==> Ordinal(Hellfire_1_00) <= v <= Ordinal(Hellfire_1_01)
    ensures r == Ok("Diablo II") <==> Ordinal(DiabloII_Beta_1_02) <= v <= Ordinal(DiabloII_1_14D)
    ensures r == Ok("Unknown game") <==> v == Ordinal(VersionUnknown)
    ensures r.Err? <==> FromOrdinal(v).None?
    ensures r.Err? ==> r.error == InvalidGameVersion
  {
    if Ordinal(Diablo_1_00) <= v <= Ordinal(Diablo_1_09B) then Ok("Diablo")
    else if Ordinal(Hellfire_1_00) <= v <= Ordinal(Hellfire_1_01) then Ok("Hellfire")
    else if Ordinal(DiabloII_Beta_1_02) <= v <= Ordinal(DiabloII_1_14D) then Ok("Diablo II")
    else if v == Ordinal(VersionUnknown) then Ok("Unknown game")
    else Err(InvalidGameVersion)
  }

  /** The three name ranges hold exactly the enumerators of each game, so
      every enumerator other than `VERSION_UNKNOWN` gets one game name. */
  lemma GameNameByEnumerator(g: GameVersion)
    ensures GetGameName(Ordinal(g)) == Ok("Diablo") <==>
              g in {Diablo_1_00, Diablo_1_02, Diablo_1_03, Diablo_1_04, Diablo_1_05,
                    Diablo_1_07, Diablo_1_08, Diablo_1_09, Diablo_1_09B}
    ensures GetGameName(Ordinal(g)) == Ok("Hellfire") <==> g in {Hellfire_1_00, Hellfire_1_01}
    ensures GetGameName(Ordinal(g)) == Ok("Diablo II") <==>
              g !in {VersionUnknown, Diablo_1_00, Diablo_1_02, Diablo_1_03, Diablo_1_04, Diablo_1_05,
                     Diablo_1_07, Diablo_1_08, Diablo_1_09, Diablo_1_09B, Hellfire_1_00, Hellfire_1_01}
    ensures GetGameName(Ordinal(g)).Ok?
  {
    OrdinalRange(g);
  }

  /** The label of each enumerator; `VERSION_UNKNOWN` falls to the default. */
  function Label(g: GameVersion): (r: string)
    ensures r == "Invalid" <==> g == VersionUnknown
    ensures |r| >= 4
  {
    match g
    case Diablo_1_00 => "1.00"
    case Diablo_1_02 => "1.02"
    case Diablo_1_03 => "1.03"
    case Diablo_1_04 => "1.04"
    case Diablo_1_05 => "1.05"
    case Diablo_1_07 => "1.07"
    case Diablo_1_08 => "1.08"
    case Diablo_1_09 => "1.09"
    case Diablo_1_09B => "1.09B"
    case Hellfire_1_00 => "1.00"
    case Hellfire_1_01 => "1.01"
    case DiabloII_Beta_1_02 => "Beta 1.02"
    case DiabloII_StressTestBeta_1_02 => "Beta Stress Test 1.02"
    case DiabloII_1_00 => "1.00"
    case DiabloII_1_01 => "1.01"
    case DiabloII_1_02 => "1.02"
    case DiabloII_1_03 => "1.03"
    case DiabloII_1_04 => "1.04"
    case DiabloII_1_04B => "1.04B"
    case DiabloII_1_04C => "1.04C"
    case DiabloII_1_05 => "1.05"
    case DiabloII_1_05B => "1.05B"
    case DiabloII_1_06 => "1.06"
    case DiabloII_1_06B => "1.06B"
    case DiabloII_1_07_Beta => "1.07 Beta"
    case DiabloII_1_07 => "1.07"
    case DiabloII_1_08 => "1.08"
    case DiabloII_1_09 => "1.09"
    case DiabloII_1_09B => "1.09B"
    case DiabloII_1_09C => "1.09C"
    case DiabloII_1_09D => "1.09D"
    case DiabloII_1_10_Beta => "1.10 Beta"
    case DiabloII_1_10S_Beta => "1.10S Beta"
    case DiabloII_1_10 => "1.10"
    case DiabloII_1_11 => "1.11"
    case DiabloII_1_11B => "1.11B"
    case DiabloII_1_12A => "1.12A"
    case DiabloII_1_13A_Ptr => "1.13A"
    case DiabloII_1_13C => "1.13C"
    case DiabloII_1_13D => "1.13D"
    case DiabloII_1_14A => "1.14A"
    case DiabloII_1_14B => "1.14B"
    case DiabloII_1_14C => "1.14C"
    case DiabloII_1_14D => "1.14D"
    case VersionUnknown => "Invalid"
  }

  /** `GetVersionText`: the label of the enumerator with value `v`, and
      "Invalid" for `VERSION_UNKNOWN` and for values that name none. */
  function GetVersionText(v: int): (r: string)
    ensures r == "Invalid" <==> !(Ordinal(Diablo_1_00) <= v <= Ordinal(DiabloII_1_14D))
    ensures Ordinal(Diablo_1_00) <= v <= Ordinal(DiabloII_1_14D) ==> r == Label(FromOrdinal(v).value)
  {
    match FromOrdinal(v)
    case Some(g) =>
      LabelIsInvalidOnlyForUnknown(g);
      FromOrdinalRoundTrip(v);
      Label(g)
    case None => "Invalid"
  }

  lemma LabelIsInvalidOnlyForUnknown(g: GameVersion)
    ensures Label(g) == "Invalid" <==> g == VersionUnknown
  {
  }

  /** Labels do not identify a release on their own: "1.00" is the label of
      three releases, one of each game. */
  lemma LabelsShared()
    ensures GetVersionText(Ordinal(Diablo_1_00)) == "1.00"
    ensures GetVersionText(Ordinal(Hellfire_1_00)) == "1.00"
    ensures GetVersionText(Ordinal(DiabloII_1_00)) == "1.00"
  {
  }
}
