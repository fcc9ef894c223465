/** The choice of where the entry hijack goes: one address function per
    supported release, applied to the game's PE header. Those functions are
    not part of this model, so the family of them is a parameter. */
module GameAddresses {
  import opened Bytes
  import opened GameVersions
  import opened PeHeaders

  /** The per-release `*_GetEntryHijackPatchAddress` functions. */
  type HijackAddressTable = (GameVersion, PeFields) -> u32

  /** `GetEntryHijackPatchAddress`: 0 for every release from 1.14A on, which
      does not run on Windows 9x; the release's own function for each
      release the switch lists; 0 for the rest. */
  function GetEntryHijackPatchAddress(pe: PeFields, v: GameVersion, perVersion: HijackAddressTable): (r: u32)
    ensures HasHijackAddress(v) ==> r == perVersion(v, pe)
    ensures !HasHijackAddress(v) ==> r == 0
  {
    OrdinalRange(v);
    if Ordinal(v) >= Ordinal(DiabloII_1_14A) then 0
    else ListedHijackAddress(pe, v, perVersion)
  }

  /** The `switch` over the releases that predate 1.14A. */
  function ListedHijackAddress(pe: PeFields, v: GameVersion, perVersion: HijackAddressTable): (r: u32)
  {
    match v
    case Diablo_1_00 => perVersion(v, pe)
    case Diablo_1_02 => perVersion(v, pe)
    case Diablo_1_03 => perVersion(v, pe)
    case Diablo_1_04 => perVersion(v, pe)
    case Diablo_1_05 => perVersion(v, pe)
    case Diablo_1_07 => perVersion(v, pe)
    case Diablo_1_08 => perVersion(v, pe)
    case Diablo_1_09 => perVersion(v, pe)
    case Diablo_1_09B => perVersion(v, pe)
    case Hellfire_1_00 => perVersion(v, pe)
    case Hellfire_1_01 => perVersion(v, pe)
    case DiabloII_Beta_1_02 => perVersion(v, pe)
    case DiabloII_StressTestBeta_1_02 => perVersion(v, pe)
    case DiabloII_1_00 => perVersion(v, pe)
    case DiabloII_1_01 => perVersion(v, pe)
    case DiabloII_1_02 => perVersion(v, pe)
    case DiabloII_1_03 => perVersion(v, pe)
    case DiabloII_1_04B => perVersion(v, pe)
    case DiabloII_1_04C => perVersion(v, pe)
    case DiabloII_1_05 => perVersion(v, pe)
    case DiabloII_1_05B => perVersion(v, pe)
    case DiabloII_1_06 => perVersion(v, pe)
    case DiabloII_1_06B => perVersion(v, pe)
    case DiabloII_1_07_Beta => perVersion(v, pe)
    case DiabloII_1_07 => perVersion(v, pe)
    case DiabloII_1_08 => perVersion(v, pe)
    case DiabloII_1_09 => perVersion(v, pe)
    case DiabloII_1_09B => perVersion(v, pe)
    case DiabloII_1_09D => perVersion(v, pe)
    case DiabloII_1_10_Beta => perVersion(v, pe)
    case DiabloII_1_10S_Beta => perVersion(v, pe)
    case DiabloII_1_10 => perVersion(v, pe)
    case DiabloII_1_11 => perVersion(v, pe)
    case DiabloII_1_11B => perVersion(v, pe)
    case DiabloII_1_12A => perVersion(v, pe)
    case DiabloII_1_13A_Ptr => perVersion(v, pe)
    case DiabloII_1_13C => perVersion(v, pe)
    case DiabloII_1_13D => perVersion(v, pe)
    case _ => 0
  }

  /** The releases with an address function: every identified release
      before 1.14A except Diablo II 1.04 and 1.09C, which have none. */
  predicate HasHijackAddress(v: GameVersion)
  {
    1 <= Ordinal(v) < Ordinal(DiabloII_1_14A) && v != DiabloII_1_04 && v != DiabloII_1_09C
  }

  /** The dispatch calls the release's own function for every release
      that has one, whatever the header and the functions are. */
  lemma DispatchCallsRelease(pe: PeFields, v: GameVersion, perVersion: HijackAddressTable)
    requires HasHijackAddress(v)
    ensures GetEntryHijackPatchAddress(pe, v, perVersion) == perVersion(v, pe)
  {
  }

  /** Every release without an address function gets 0, whatever the
      functions would answer for it. */
  lemma DispatchOthersGetNull(pe: PeFields, v: GameVersion, perVersion: HijackAddressTable)
    requires !HasHijackAddress(v)
    ensures GetEntryHijackPatchAddress(pe, v, perVersion) == 0
  {
    OrdinalRange(v);
  }

  /** An unknown release and every 1.14 release get no hijack address. */
  lemma UnsupportedGetNull(pe: PeFields, v: GameVersion, perVersion: HijackAddressTable)
    requires v == VersionUnknown || Ordinal(DiabloII_1_14A) <= Ordinal(v)
    ensures GetEntryHijackPatchAddress(pe, v, perVersion) == 0
  {
  }
}
