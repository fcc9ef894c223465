# SGGL Diablo Knowledge Library, modelled in Dafny

The library has two halves.

The first half identifies which release of Diablo, Hellfire or Diablo II an
executable is:

- It splits the file's version words into a four-part `ShortVersion` key.
- It looks the key up in sorted tables with `bsearch`.
- Where several releases share a file version, it settles the question by
  four signature bytes read from `storm.dll` at a fixed offset.

The second half builds the patches that make a suspended game process load
extra libraries:

- A `BufferPatch` snapshots a region of the target's memory. It can then
  write its replacement bytes, or write the snapshot back.
- The entry-hijack patch is a 20-byte trampoline that pushes its own
  address and a free-space slot.
- The payload patch is the injected routine. Its tail is rewritten into a
  `jmp rel32` to the cleanup patch at the game's entry point.
- The cleanup patch sits at the game's entry point.
- The free-space patch clears one word.
- `InjectorPatches` places the three trampoline patches relative to each
  other, from the PE header's `ImageBase` and `AddressOfEntryPoint`.
- The packed `StackData` record must line up with the routine's
  `[ebp - k]` stack slots.

How the model is built:

- Each core source file is one Dafny module.
- Target memory is an `array<byte>` owned by a `Process` object. A buffer
  patch is a class whose methods update its fields and that array.
- Addresses are 32-bit words with explicit wrap-around (`Bytes.Add32`,
  `Bytes.Sub32`), stored little-endian.
- A fatal exit (`ExitOn...`) is an `Outcome.Fail` or a `Result.Err` carrying
  the reason.
- Files, version resources and the per-release hijack-address functions are
  inputs.
- The small x86 subset the trampolines use has a decoder and an
  interpreter (`X86`). Lemmas evaluate, through that interpreter, where
  each jump lands.

## Model

| member | source | states |
|---|---|---|
| BinarySearch.Search | SGGL-Diablo-Knowledge-Library/src/diablo_ii/diablo_ii_game_version.c:433-446 | On a table partitioned by the comparator, the search finds an index whose element compares equal, or none exists in the range |
| BinarySearch.BSearch | SGGL-Diablo-Knowledge-Library/src/diablo_ii/diablo_ii_game_version.c:433-446 | `bsearch` returns an element iff some element compares equal to the key, and what it returns does compare equal |
| CLib.WideCompare | SGGL-Diablo-Knowledge-Library/src/helper/short_version.c:71-76 | `wcscmp` returns 0 exactly on equal strings; its sign is in -1..1 |
| CLib.WideCompareAntisymmetric | SGGL-Diablo-Knowledge-Library/src/helper/short_version.c:71-76 | Swapping the arguments of `wcscmp` negates the result |
| CLib.WideCompareTransitive | SGGL-Diablo-Knowledge-Library/src/hellfire/hellfire_game_version.c:39-51 | The string order is transitive, so a sorted string table can be binary-searched |
| CLib.WideCompareFirstDifference | SGGL-Diablo-Knowledge-Library/src/hellfire/hellfire_game_version.c:44-51 | Equal prefixes followed by a smaller character make a string compare smaller |
| CLib.MemCompare | SGGL-Diablo-Knowledge-Library/src/helper/file_signature.c:59-64 | `memcmp` returns 0 exactly on equal byte strings |
| CLib.MemCompareAntisymmetric | SGGL-Diablo-Knowledge-Library/src/helper/file_signature.c:59-64 | Swapping the arguments of `memcmp` negates the result |
| CLib.MemCompareTransitive | SGGL-Diablo-Knowledge-Library/src/helper/file_signature.c:59-64 | The byte order is transitive |
| Bytes.Add32 | SGGL-Diablo-Knowledge-Library/src/patch_helper/pe_header.c:199-211 | A 32-bit sum is congruent to the exact sum modulo 2^32 |
| Bytes.Sub32 | SGGL-Diablo-Knowledge-Library/src/patch_helper/payload_patch.c:210-218 | A 32-bit difference is congruent to the exact difference modulo 2^32 |
| Bytes.Signed32 | SGGL-Diablo-Knowledge-Library/src/patch_helper/pe_header.c:107-111 | A word read as a signed `long` lies in the 32-bit signed range and is congruent to the word |
| Bytes.Signed8 | SGGL-Diablo-Knowledge-Library/src/patch_helper/entry_hijack_patch.c:51-52 | A byte displacement read as signed lies in -128..127 and is congruent to the byte |
| Bytes.LE32 | SGGL-Diablo-Knowledge-Library/src/patch_helper/entry_hijack_patch.c:74-82 | A word's little-endian encoding is four bytes |
| Bytes.DecodeEncode | SGGL-Diablo-Knowledge-Library/src/patch_helper/pe_header.c:92-97 | Decoding the little-endian bytes of a word gives the word back |
| Bytes.EncodeDecode | SGGL-Diablo-Knowledge-Library/src/patch_helper/pe_header.c:92-97 | Encoding the word read from four bytes gives the bytes back |
| Bytes.LE32Injective | SGGL-Diablo-Knowledge-Library/src/patch_helper/entry_hijack_patch.c:74-82 | Two words have the same encoding iff they are equal |
| Bytes.AddSub32 | SGGL-Diablo-Knowledge-Library/src/patch_helper/entry_hijack_patch.c:91-96 | Adding an offset and then subtracting the base gives the offset, and the other way round |
| Bytes.AddAdd32 | SGGL-Diablo-Knowledge-Library/src/patch_helper/injector_patches.c:76-85 | Two 32-bit additions equal one addition of the sum |
| Bytes.RelativeTarget | SGGL-Diablo-Knowledge-Library/src/patch_helper/payload_patch.c:210-218 | A displacement of `target - from - n`, added to `from + n`, reaches the target |
| X86.Decode | SGGL-Diablo-Knowledge-Library/src/patch_helper/entry_hijack_patch.c:36-56 | A decoded instruction's encoding is exactly the bytes it was decoded from |
| X86.DecodeEncoded | SGGL-Diablo-Knowledge-Library/src/patch_helper/entry_hijack_patch.c:36-56 | Decoding an encoded instruction gives it back, with its length, whatever follows it |
| X86.Execute | SGGL-Diablo-Knowledge-Library/src/patch_helper/entry_hijack_patch.c:40-55 | Execution fails only for `sub [esp], imm8` on an empty stack |
| X86.StepEncoded | SGGL-Diablo-Knowledge-Library/src/patch_helper/entry_hijack_patch.c:36-56 | An encoded instruction at the instruction pointer executes as itself |
| X86.RunStep | SGGL-Diablo-Knowledge-Library/src/patch_helper/entry_hijack_patch.c:36-56 | A run that starts with a successful step continues from the step's result |
| GameVersions.FromOrdinal | SGGL-Diablo-Knowledge-Library/src/game_version.h:36-54 | Exactly -1 and 1..44 name an enumerator |
| GameVersions.OrdinalRange | SGGL-Diablo-Knowledge-Library/src/game_version.h:36-54 | `VERSION_UNKNOWN` is -1 and is the only negative value. Every other enumerator is in 1..44, from `DIABLO_1_00` = 1 to `DIABLO_II_1_14D` = 44 |
| GameVersions.Ordinal | SGGL-Diablo-Knowledge-Library/src/game_version.h:36-54 | An enumerator's value is -1 exactly for `VERSION_UNKNOWN`, and in 1..44 for every other enumerator |
| GameVersions.OrdinalRoundTrip | SGGL-Diablo-Knowledge-Library/src/game_version.h:39-53 | Every enumerator's value maps back to the enumerator |
| GameVersions.FromOrdinalRoundTrip | SGGL-Diablo-Knowledge-Library/src/game_version.h:39-53 | Every value that names an enumerator is that enumerator's value, so the values are consecutive in declaration order |
| GameVersions.OrdinalInjective | SGGL-Diablo-Knowledge-Library/src/game_version.h:36-54 | Two enumerators have the same value iff they are the same |
| GameVersions.FamiliesOrdered | SGGL-Diablo-Knowledge-Library/src/game_version.h:39-53 | Every Diablo value is below every Hellfire value, which is below every Diablo II value |
| GameVersions.LatestReleases | SGGL-Diablo-Knowledge-Library/src/game_version.h:53 | The values at or above `DIABLO_II_1_14A` are exactly 1.14A to 1.14D |
| ShortVersions.FieldDiff | SGGL-Diablo-Knowledge-Library/src/helper/short_version.c:36-56 | The field difference is 0 iff the fields are equal |
| ShortVersions.FieldDiffSign | SGGL-Diablo-Knowledge-Library/src/helper/short_version.c:36-56 | For fields below 2^16 the DWORD difference, read as `int`, is the numeric difference |
| ShortVersions.CompareAll | SGGL-Diablo-Knowledge-Library/src/helper/short_version.c:32-59 | `ShortVersion_CompareAll` is 0 iff all four fields are equal |
| ShortVersions.CompareAllIsLexicographic | SGGL-Diablo-Knowledge-Library/src/helper/short_version.c:38-56 | For 16-bit fields the sign of the result is the lexicographic order of (major left, major right, minor left, minor right), in both directions |
| ShortVersions.CompareAllAntisymmetric | SGGL-Diablo-Knowledge-Library/src/helper/short_version.c:32-59 | For 16-bit fields, swapping the arguments flips the sign |
| ShortVersions.LessTransitive | SGGL-Diablo-Knowledge-Library/src/helper/short_version.c:38-56 | The lexicographic order is transitive |
| ShortVersions.LessIrreflexive | SGGL-Diablo-Knowledge-Library/src/helper/short_version.c:38-56 | The lexicographic order is strict |
| ShortVersions.UnboundedFieldsMisorder | SGGL-Diablo-Knowledge-Library/src/helper/short_version.c:36-56 | Without the 16-bit bound, a field of 2^31 compares below 0, so the bound is needed |
| ShortVersions.StringCompareAll | SGGL-Diablo-Knowledge-Library/src/helper/short_version.c:71-76 | The string comparator is 0 iff the whole strings are equal |
| ShortVersions.EntryCompareKey | SGGL-Diablo-Knowledge-Library/src/helper/short_version.c:88-96 | The entry comparator is 0 iff the version keys are equal |
| ShortVersions.StringEntryCompareKey | SGGL-Diablo-Knowledge-Library/src/helper/short_version.c:108-116 | The string-entry comparator is 0 iff the version strings are equal |
| ShortVersions.EntryComparatorsIgnoreGameVersion | SGGL-Diablo-Knowledge-Library/src/helper/short_version.c:88-126 | Changing the entries' `game_version` never changes either entry comparator |
| ShortVersions.SplitKey | SGGL-Diablo-Knowledge-Library/src/diablo_ii/diablo_ii_game_version.c:422-429 | The key split from two words has four 16-bit fields |
| ShortVersions.SplitKeyRoundTrip | SGGL-Diablo-Knowledge-Library/src/diablo_ii/diablo_ii_game_version.c:422-429 | Splitting and re-joining gives back the two words, and every 16-bit key is the split of its joined words |
| ShortVersions.AdjacentSortedIsSorted | SGGL-Diablo-Knowledge-Library/src/diablo_ii/diablo_ii_game_version.c:44-137 | A table whose neighbours are in order is in order throughout |
| ShortVersions.SortedIsPartitioned | SGGL-Diablo-Knowledge-Library/src/diablo_ii/diablo_ii_game_version.c:433-446 | A sorted table is partitioned by comparison with any key, which is what `bsearch` needs |
| ShortVersions.AdjacentKeysSuffice | SGGL-Diablo-Knowledge-Library/src/diablo_ii/diablo_ii_game_version.c:44-137 | In a sorted table where equal neighbours agree on the release, all entries with one key agree |
| ShortVersions.FindEntry | SGGL-Diablo-Knowledge-Library/src/diablo_ii/diablo_ii_game_version.c:433-446 | The sorted-table search finds an entry iff one has the key, and the entry it finds has that key |
| ShortVersions.LookupVersion | SGGL-Diablo-Knowledge-Library/src/diablo_ii/diablo_ii_game_version.c:433-446 | The result is not `VERSION_UNKNOWN` iff some entry has the key. A found release belongs to an entry with the key, and when keys determine releases it is that release |
| ShortVersions.CheckedFromSound | SGGL-Diablo-Knowledge-Library/src/diablo_ii/diablo_ii_game_version.c:44-137 | The table check means: keys are 16-bit, releases known, neighbours in order, and equal neighbours agree |
| ShortVersions.CheckedConcat | SGGL-Diablo-Knowledge-Library/src/diablo_ii/diablo_ii_game_version.c:44-137 | Two checked tables joined in order form a checked table |
| ShortVersions.CheckedTable | SGGL-Diablo-Knowledge-Library/src/diablo_ii/diablo_ii_game_version.c:44-137 | A checked table is sorted and 16-bit, its keys determine its releases, and no entry is `VERSION_UNKNOWN` |
| FileSignatures.CompareAll | SGGL-Diablo-Knowledge-Library/src/helper/file_signature.c:35-65 | `FileSignature_CompareAll` is 0 iff path, offset and all four bytes are equal. The offset difference is the wrapping 32-bit `int` subtraction |
| FileSignatures.CompareAllIsLexicographic | SGGL-Diablo-Knowledge-Library/src/helper/file_signature.c:43-64 | For offsets less than 2^31 apart, the sign of the result is the order by path, then offset, then signature bytes, in both directions |
| FileSignatures.OffsetDiff | SGGL-Diablo-Knowledge-Library/src/helper/file_signature.c:52 | `signature1->offset - signature2->offset` is 0 iff the offsets are equal. It is the exact difference when that fits in an `int`, and otherwise that difference wrapped by 2^32 |
| FileSignatures.OffsetOverflowMisorder | SGGL-Diablo-Knowledge-Library/src/helper/file_signature.c:52-56 | Offsets -2^31 and 1 are in order, yet the comparator ranks them the other way round, because their difference wraps |
| FileSignatures.LessTransitive | SGGL-Diablo-Knowledge-Library/src/helper/file_signature.c:35-65 | The signature order is transitive |
| FileSignatures.CompareSignature | SGGL-Diablo-Knowledge-Library/src/helper/file_signature.c:67-75 | Two signature entries compare equal iff their file signatures are equal |
| FileSignatures.CompareGuess | SGGL-Diablo-Knowledge-Library/src/helper/file_signature.c:77-82 | Guess corrections compare by the guessed release's enumerator value only, in both directions |
| FileSignatures.ComparatorsIgnorePayload | SGGL-Diablo-Knowledge-Library/src/helper/file_signature.c:67-82 | The signature comparison ignores `game_version`, and the guess comparison ignores the signature |
| DiabloIIGameVersion.GameFileVersionsChecked | SGGL-Diablo-Knowledge-Library/src/diablo_ii/diablo_ii_game_version.c:49-137 | The file-version table passes the table check |
| DiabloIIGameVersion.GameFileVersionsWellFormed | SGGL-Diablo-Knowledge-Library/src/diablo_ii/diablo_ii_game_version.c:49-137 | The table is in non-decreasing order with 16-bit keys, and its duplicate key names one release |
| DiabloIIGameVersion.SearchGameFileInfoTable | SGGL-Diablo-Knowledge-Library/src/diablo_ii/diablo_ii_game_version.c:419-447 | The 16-bit split of the file version finds a release iff the table lists that key, and then it is the entry's release |
| DiabloIIGameVersion.ReadCheckBytes | SGGL-Diablo-Knowledge-Library/src/diablo_ii/diablo_ii_game_version.c:251-295 | The four bytes at the offset are read iff the file exists and holds them. A missing file is fatal |
| DiabloIIGameVersion.FindCorrection | SGGL-Diablo-Knowledge-Library/src/diablo_ii/diablo_ii_game_version.c:139-162 | The correction table has an entry iff the guess is 1.06B or 1.07, and the entry found is for that guess |
| DiabloIIGameVersion.DetermineGameVersionByData | SGGL-Diablo-Knowledge-Library/src/diablo_ii/diablo_ii_game_version.c:200-310 | A guess without a correction stands. For 1.06B and 1.07 the corrected release comes back iff the signature bytes match, else the guess. A read failure is fatal |
| DiabloIIGameVersion.Signatures1001Sorted | SGGL-Diablo-Knowledge-Library/src/diablo_ii/diablo_ii_game_version.c:165-198 | The 1.0.0.1 signature table is strictly ordered by the signature comparator |
| DiabloIIGameVersion.Signatures1001Location | SGGL-Diablo-Knowledge-Library/src/diablo_ii/diablo_ii_game_version.c:165-198 | Every 1.0.0.1 signature is at `storm.dll` offset 0xF0 |
| DiabloIIGameVersion.SignatureTableDistinct | SGGL-Diablo-Knowledge-Library/src/diablo_ii/diablo_ii_game_version.c:165-198 | In a sorted table sharing one path and offset, distinct entries have distinct signatures |
| DiabloIIGameVersion.SignaturesPartitioned | SGGL-Diablo-Knowledge-Library/src/diablo_ii/diablo_ii_game_version.c:397-416 | A sorted signature table is partitioned by comparison with any key |
| DiabloIIGameVersion.LookupSignature | SGGL-Diablo-Knowledge-Library/src/diablo_ii/diablo_ii_game_version.c:397-416 | A release is found iff some entry has the bytes, and it is that entry's release |
| DiabloIIGameVersion.Lookup1001Signature | SGGL-Diablo-Knowledge-Library/src/diablo_ii/diablo_ii_game_version.c:397-416 | As above, for the 1.0.0.1 table |
| DiabloIIGameVersion.Determine1001GameVersionByData | SGGL-Diablo-Knowledge-Library/src/diablo_ii/diablo_ii_game_version.c:312-417 | Fails exactly when reading `storm.dll` at 0xF0 fails. Otherwise it is the signature table's answer for those bytes |
| DiabloIIGameVersion.SharedFileVersionEntries | SGGL-Diablo-Knowledge-Library/src/diablo_ii/diablo_ii_game_version.c:49-137 | The keys 1.0.0.1, 1.0.6.0 and 1.0.7.0 name 1.01, 1.06B and 1.07 |
| DiabloIIGameVersion.FindGameVersion | SGGL-Diablo-Knowledge-Library/src/diablo_ii/diablo_ii_game_version.c:449-481 | Key 1.0.0.1 takes the signature path. Keys 1.0.6.0 and 1.0.7.0 take the correction path. An unlisted key gives `VERSION_UNKNOWN` |
| DiabloIIGameVersion.FileVersionDecides | SGGL-Diablo-Knowledge-Library/src/diablo_ii/diablo_ii_game_version.c:449-481 | Any other listed key gives its entry's release without reading a file |
| DiabloGameVersion.ProductVersionsSearchable | SGGL-Diablo-Knowledge-Library/src/diablo/diablo_game_version.c:45-64 | The product table is sorted and 16-bit, but one key names two releases |
| DiabloGameVersion.StormVersionsSearchable | SGGL-Diablo-Knowledge-Library/src/diablo/diablo_game_version.c:66-73 | The Storm table is sorted and 16-bit, and its keys determine its releases |
| DiabloGameVersion.SearchTables | SGGL-Diablo-Knowledge-Library/src/diablo/diablo_game_version.c:100-155 | A product-key hit returns a release listed for that key. On a miss, the result is known iff the Storm key is listed, and is then that entry's release |
| DiabloGameVersion.SearchGameVersionTable | SGGL-Diablo-Knowledge-Library/src/diablo/diablo_game_version.c:100-155 | Over the Diablo product and Storm tables: a product-key hit returns a release listed for that key. On a miss, the result is known iff the Storm key is listed, and is then that entry's release |
| DiabloGameVersion.StormLookup | SGGL-Diablo-Knowledge-Library/src/diablo/diablo_game_version.c:66-73 | 1998.4.15.1 maps to 1.05, 1998.8.11.1 maps to 1.07, and every other key is unknown |
| DiabloGameVersion.StormDecides | SGGL-Diablo-Knowledge-Library/src/diablo/diablo_game_version.c:141-154 | With an unlisted product key, the Storm key decides as above |
| DiabloGameVersion.ProductHitIgnoresStorm | SGGL-Diablo-Knowledge-Library/src/diablo/diablo_game_version.c:127-138 | With a listed product key, the Storm version does not affect the result |
| DiabloGameVersion.KeyOnlyWithin | SGGL-Diablo-Knowledge-Library/src/diablo/diablo_game_version.c:45-64 | In a sorted table, a key strictly between a stretch's neighbours occurs only inside that stretch |
| DiabloGameVersion.DuplicateKeyLookup | SGGL-Diablo-Knowledge-Library/src/diablo/diablo_game_version.c:53-54 | Key 1.0.9.1 gives 1.09 or 1.09B, and which one is not determined |
| DiabloGameVersion.DuplicateProductKey | SGGL-Diablo-Knowledge-Library/src/diablo/diablo_game_version.c:53-54 | The whole lookup, given product version 1.0.9.1, answers 1.09 or 1.09B |
| DiabloGameVersion.Release109BUnrecognised | SGGL-Diablo-Knowledge-Library/src/diablo/diablo_game_version.c:53-54 | Product version 1.0.9.2 with an unlisted Storm version is unknown as written, but 1.09B with the corrected table |
| DiabloGameVersion.CorrectedProductVersionsSearchable | SGGL-Diablo-Knowledge-Library/src/diablo/diablo_game_version.c:45-64 | The corrected product table is sorted and 16-bit, and its keys determine its releases |
| DiabloGameVersion.SearchGameVersionTableCorrected | SGGL-Diablo-Knowledge-Library/src/diablo/diablo_game_version.c:100-155 | With the corrected table, every listed product key gives exactly its own release |
| HellfireGameVersion.HellfireKeysOrdered | SGGL-Diablo-Knowledge-Library/src/hellfire/hellfire_game_version.c:44-51 | "1, 0, 0, 0" sorts before "1, 0, 1, 0" under `wcscmp` |
| HellfireGameVersion.HellfireVersionsSorted | SGGL-Diablo-Knowledge-Library/src/hellfire/hellfire_game_version.c:39-51 | The Hellfire table is in ascending `wcscmp` order |
| HellfireGameVersion.StringSortedIsPartitioned | SGGL-Diablo-Knowledge-Library/src/hellfire/hellfire_game_version.c:63-71 | A string-sorted table is partitioned by comparison with any key |
| HellfireGameVersion.SearchGameVersionTable | SGGL-Diablo-Knowledge-Library/src/hellfire/hellfire_game_version.c:53-78 | "1, 0, 0, 0" gives 1.00 and "1, 0, 1, 0" gives 1.01, by exact whole-string match. Every other string is unknown |
| GameVersionPrinter.GetGameName | SGGL-Diablo-Knowledge-Library/src/game_version_printer.c:37-56 | Each value range gets its own name, in both directions. `VERSION_UNKNOWN` gives "Unknown game". A value naming no enumerator is a fatal error |
| GameVersionPrinter.GameNameByEnumerator | SGGL-Diablo-Knowledge-Library/src/game_version_printer.c:37-56 | The three name ranges are disjoint and together cover every enumerator |
| GameVersionPrinter.GetVersionText | SGGL-Diablo-Knowledge-Library/src/game_version_printer.c:58-240 | A value outside `DIABLO_1_00`..`DIABLO_II_1_14D` gives "Invalid". Every value inside gives its enumerator's label |
| GameVersionPrinter.LabelIsInvalidOnlyForUnknown | SGGL-Diablo-Knowledge-Library/src/game_version_printer.c:58-240 | Only `VERSION_UNKNOWN` is labelled "Invalid" |
| GameVersionPrinter.LabelsShared | SGGL-Diablo-Knowledge-Library/src/game_version_printer.c:58-240 | Labels are not injective: "1.00" is the label of Diablo, Hellfire and Diablo II 1.00 |
| GameVersionPrinter.Label | SGGL-Diablo-Knowledge-Library/src/game_version_printer.c:58-240 | The version text is "Invalid" exactly for `VERSION_UNKNOWN`, and is never shorter than four characters |
| BufferPatches.Process.constructor | SGGL-Diablo-Knowledge-Library/src/patch_helper/buffer_patch.h:41 | The target process holds its memory and the addresses it allows reading and writing |
| BufferPatches.Splice | SGGL-Diablo-Knowledge-Library/src/helper/buffer_patch.c:106-112 | A write puts its bytes in the region and changes nothing outside it |
| BufferPatches.SpliceRestores | SGGL-Diablo-Knowledge-Library/src/helper/buffer_patch.c:124-147 | Writing back a region's old bytes undoes a write of the same length |
| BufferPatches.SpliceSame | SGGL-Diablo-Knowledge-Library/src/helper/buffer_patch.c:99-147 | Writing the bytes a region holds changes nothing, and a repeated write changes nothing |
| BufferPatches.Step | SGGL-Diablo-Knowledge-Library/src/helper/buffer_patch.c:99-147 | After Apply the flag is set and after Remove it is clear. A call matching the flag changes nothing. Otherwise the region gets the patch or the original bytes, and the rest of memory is unchanged |
| BufferPatches.RunKeepsConsistent | SGGL-Diablo-Knowledge-Library/src/helper/buffer_patch.c:99-147 | Any sequence of Apply and Remove keeps the region holding the patch exactly when the flag is set, and never writes outside the region |
| BufferPatches.RoundTrip | SGGL-Diablo-Knowledge-Library/src/helper/buffer_patch.c:36-147 | After Create, any sequence ending in Remove leaves memory as it was at Create, with the flag clear |
| BufferPatches.RunAppend | SGGL-Diablo-Knowledge-Library/src/helper/buffer_patch.c:99-147 | A run with one more operation is one more step |
| BufferPatches.StepIdempotent | SGGL-Diablo-Knowledge-Library/src/helper/buffer_patch.c:102-104 | Apply then Apply is Apply, and Remove then Remove is Remove |
| BufferPatches.BufferPatch.State | SGGL-Diablo-Knowledge-Library/src/patch_helper/buffer_patch.h:36-43 | The patch's state is its flag and the target's memory |
| BufferPatches.BufferPatch.constructor | SGGL-Diablo-Knowledge-Library/src/patch_helper/buffer_patch.h:36-43 | A new record is zeroed |
| BufferPatches.BufferPatch.Create | SGGL-Diablo-Knowledge-Library/src/helper/buffer_patch.c:36-82 | Records position, size and process, copies the patch bytes and clears the flag. Succeeds iff the region is readable, and then the original buffer is the region's bytes, with memory unchanged. Otherwise it fails with a read error |
| BufferPatches.BufferPatch.Write | SGGL-Diablo-Knowledge-Library/src/helper/buffer_patch.c:106-119 | Succeeds iff the region is writable, and then the region holds the source bytes. On failure memory is unchanged |
| BufferPatches.BufferPatch.Apply | SGGL-Diablo-Knowledge-Library/src/helper/buffer_patch.c:99-122 | Succeeds iff the patch is already applied or the region is writable. Then the new state is `Step(ApplyOp)` of the old one. On failure the flag stays clear and memory is unchanged |
| BufferPatches.BufferPatch.Remove | SGGL-Diablo-Knowledge-Library/src/helper/buffer_patch.c:124-147 | Succeeds iff the patch is already removed or the region is writable. Then the new state is `Step(RemoveOp)` of the old one. On failure the flag stays set and memory is unchanged |
| BufferPatches.BufferPatch.Destroy | SGGL-Diablo-Knowledge-Library/src/helper/buffer_patch.c:84-97 | Removes the patch, then zeroes the record. On success the memory is the removal's result |
| PeHeaders.WordAt | SGGL-Diablo-Knowledge-Library/src/patch_helper/pe_header.c:92-104 | A word is read iff four bytes remain, and its little-endian encoding is those bytes |
| PeHeaders.ParsePe | SGGL-Diablo-Knowledge-Library/src/patch_helper/pe_header.c:81-178 | Parsing succeeds iff the file exists, holds the word at 0x3C, and holds 16 bytes at that word plus 0x28. The start address is the word at 0x3C. A missing file is the open error. A short first read, or too few bytes at the second position, is the short-read error. A second position that is negative is the seek error |
| PeHeaders.ParseImage | SGGL-Diablo-Knowledge-Library/src/patch_helper/pe_header.c:106-178 | An image that puts the four fields at 0x28 past the start address parses back to exactly those fields |
| PeHeaders.ImageLayout | SGGL-Diablo-Knowledge-Library/src/patch_helper/pe_header.c:106-178 | The image holds the start address at 0x3C and `entry_point`, `code_base`, `data_base`, `image_base` in four consecutive words |
| PeHeaders.NegativeStartCannotSeek | SGGL-Diablo-Knowledge-Library/src/patch_helper/pe_header.c:107-117 | A start address that is negative as a `long` makes the second seek fail |
| PeHeaders.PeHeader.constructor | SGGL-Diablo-Knowledge-Library/src/patch_helper/pe_header.h:36-46 | A new header is zeroed |
| PeHeaders.PeHeader.Read | SGGL-Diablo-Knowledge-Library/src/patch_helper/pe_header.c:92-104 | `fread` of one word returns the word at the position and advances past it |
| PeHeaders.PeHeader.Init | SGGL-Diablo-Knowledge-Library/src/patch_helper/pe_header.c:43-184 | Stores the path and its length. Succeeds iff the parse does, and then the fields are the parse's. Otherwise it fails with the parse's error |
| PeHeaders.PeHeader.Deinit | SGGL-Diablo-Knowledge-Library/src/patch_helper/pe_header.c:186-197 | Every address field and the length become 0 |
| PeHeaders.GetHardDataAddress | SGGL-Diablo-Knowledge-Library/src/patch_helper/pe_header.c:199-204 | The result lies `data_base` past `image_base`, in 32-bit arithmetic |
| PeHeaders.GetHardEntryPointAddress | SGGL-Diablo-Knowledge-Library/src/patch_helper/pe_header.c:206-211 | The result lies `entry_point` past `image_base`, in 32-bit arithmetic |
| FuncSizes.FirstEnd | SGGL-Diablo-Knowledge-Library/src/patch_helper/payload_patch.c:169-186 | The least index from the start at which eight 0x90 bytes begin |
| FuncSizes.InitFuncSize | SGGL-Diablo-Knowledge-Library/src/patch_helper/payload_patch.c:169-186 | The do-while scan stops at a sentinel, and at the first one at or after its start |
| FuncSizes.ScanFindsFirstEnd | SGGL-Diablo-Knowledge-Library/src/patch_helper/payload_patch.c:169-186 | A scan from 0 that stops at the first sentinel gives `FirstEnd` |
| FuncSizes.FuncSizeCache.constructor | SGGL-Diablo-Knowledge-Library/src/patch_helper/payload_patch.c:227-235 | The static size starts at 0 |
| FuncSizes.FuncSizeCache.GetSize | SGGL-Diablo-Knowledge-Library/src/patch_helper/payload_patch.c:227-235 | Returns the first sentinel's index and caches it. A nonzero cache is never recomputed |
| EntryHijackPatches.TemplateLayout | SGGL-Diablo-Knowledge-Library/src/patch_helper/entry_hijack_patch.c:36-56 | The template is `push 0`, `call +0`, `sub [esp], 10`, `jmp +4` and a zero slot |
| EntryHijackPatches.GetSize | SGGL-Diablo-Knowledge-Library/src/patch_helper/entry_hijack_patch.c:98-100 | The template is 20 bytes long |
| EntryHijackPatches.GetFreeSpaceOffset | SGGL-Diablo-Knowledge-Library/src/patch_helper/entry_hijack_patch.c:102-104 | The slot is the last pointer-sized word, and it starts as zero |
| EntryHijackPatches.GetFreeSpaceAddress | SGGL-Diablo-Knowledge-Library/src/patch_helper/entry_hijack_patch.c:91-96 | The slot's address lies the slot's offset past the patch's position |
| EntryHijackPatches.HijackBytes | SGGL-Diablo-Knowledge-Library/src/patch_helper/entry_hijack_patch.c:74-82 | Bytes 1..4 hold the address plus 16, little-endian. Every other byte is the template's |
| EntryHijackPatches.Init | SGGL-Diablo-Knowledge-Library/src/patch_helper/entry_hijack_patch.c:58-85 | Creates a 20-byte patch at the address with those bytes. Succeeds iff the region is readable |
| EntryHijackPatches.Deinit | SGGL-Diablo-Knowledge-Library/src/patch_helper/entry_hijack_patch.c:87-89 | The buffer patch's teardown |
| EntryHijackPatches.HijackLayout | SGGL-Diablo-Knowledge-Library/src/patch_helper/entry_hijack_patch.c:40-55 | The patched bytes decode as `push slot`, `call +0`, `sub [esp], 10`, `jmp +4`, then the slot |
| EntryHijackPatches.CallZero | SGGL-Diablo-Knowledge-Library/src/patch_helper/entry_hijack_patch.c:44-46 | A call with displacement 0 pushes its successor and continues there |
| EntryHijackPatches.HijackRuns | SGGL-Diablo-Knowledge-Library/src/patch_helper/entry_hijack_patch.c:40-55 | Run at its address, the patch pushes the slot and then its own address, and lands 20 bytes on, just past the slot |
| CleanupPatches.CleanupSizeIsZero | SGGL-Diablo-Knowledge-Library/src/patch_helper/cleanup_patch.c:40-69 | The cleanup routine's body is only the sentinel, so its size is 0 |
| CleanupPatches.Init | SGGL-Diablo-Knowledge-Library/src/patch_helper/cleanup_patch.c:71-85 | Creates a patch at the address whose bytes are the first `GetSize()` bytes of the routine |
| CleanupPatches.Deinit | SGGL-Diablo-Knowledge-Library/src/patch_helper/cleanup_patch.c:87-89 | The buffer patch's teardown |
| FreeSpacePatches.FreeSpaceInitBufferIsNull | SGGL-Diablo-Knowledge-Library/src/patch_helper/free_space_patch.c:34-38 | The replacement is one pointer-sized word, and it is zero |
| FreeSpacePatches.Init | SGGL-Diablo-Knowledge-Library/src/patch_helper/free_space_patch.c:40-54 | Creates a four-byte zero patch at the address |
| FreeSpacePatches.Deinit | SGGL-Diablo-Knowledge-Library/src/patch_helper/free_space_patch.c:56-57 | The buffer patch's teardown |
| PayloadPatches.PayloadBytes | SGGL-Diablo-Knowledge-Library/src/patch_helper/payload_patch.c:197-218 | Same length as the routine, the same bytes up to the last five, then 0xE9. The displacement, added to the end of the patch, reaches the cleanup address |
| PayloadPatches.OnlyPlaceholdersChange | SGGL-Diablo-Knowledge-Library/src/patch_helper/payload_patch.c:148-156 | Only the last five bytes, the `int 3` placeholders, differ from the routine |
| PayloadPatches.TailJumpReachesCleanup | SGGL-Diablo-Knowledge-Library/src/patch_helper/payload_patch.c:210-218 | Executing the patched tail jumps to the cleanup address |
| PayloadPatches.Init | SGGL-Diablo-Knowledge-Library/src/patch_helper/payload_patch.c:188-221 | Creates a patch at the address of `GetSize()` bytes, with those bytes. Succeeds iff the region is readable |
| PayloadPatches.WriteTailJump | SGGL-Diablo-Knowledge-Library/src/patch_helper/payload_patch.c:206-218 | The buffer keeps its prefix, then holds 0xE9 and the displacement |
| PayloadPatches.Deinit | SGGL-Diablo-Knowledge-Library/src/patch_helper/payload_patch.c:223-225 | The buffer patch's teardown |
| PayloadRoutine.Shl1 | SGGL-Diablo-Knowledge-Library/src/patch_helper/payload_patch.c:104-105 | `shl` by one doubles a word below 2^31 and wraps above |
| PayloadRoutine.SpinWaitsForInjector | SGGL-Diablo-Knowledge-Library/src/patch_helper/payload_patch.c:68-80 | After the prologue, and before any write of the injector, no number of passes moves the routine past the spin loop |
| PayloadRoutine.SpinReleases | SGGL-Diablo-Knowledge-Library/src/patch_helper/payload_patch.c:78-124 | Once released, the routine has a fresh 32-byte buffer, clear resize and exit flags, and is suspended |
| PayloadRoutine.Wake | SGGL-Diablo-Knowledge-Library/src/patch_helper/payload_patch.c:122-146 | The resize flag is tested first: then the old buffer is freed, the size doubled and a new buffer taken. Otherwise, with libraries left, the buffer's path is loaded and the count drops by one; at zero the buffer is freed and the routine ends. Loaded plus remaining is constant |
| PayloadRoutine.Enter | SGGL-Diablo-Knowledge-Library/src/patch_helper/payload_patch.c:68-76 | The prologue clears `is_ready_to_execute` and only then publishes the stack: the flag is 0, the frame is published and spinning, and no other slot changes |
| PayloadRoutine.ClearReady | SGGL-Diablo-Knowledge-Library/src/patch_helper/payload_patch.c:72 | `is_ready_to_execute` becomes 0, and nothing else changes |
| PayloadRoutine.Publish | SGGL-Diablo-Knowledge-Library/src/patch_helper/payload_patch.c:74-76 | The stack pointer is published and the routine is in its spin loop, and nothing else changes |
| PayloadRoutine.SignalReady | SGGL-Diablo-Knowledge-Library/src/patch_helper/stack_data.h:46 | The injector sets `is_ready_to_execute` through the published pointer. It can only do so once the frame is published, and nothing else changes |
| PayloadRoutine.SpinLoop | SGGL-Diablo-Knowledge-Library/src/patch_helper/payload_patch.c:78-80 | Passes of the spin loop: a result still spinning is the frame it started from |
| PayloadRoutine.ClearedFlagSpinsForever | SGGL-Diablo-Knowledge-Library/src/patch_helper/payload_patch.c:78-80 | With the flag clear, every number of passes leaves the frame unchanged |
| PayloadRoutine.PublishedSignalReleases | SGGL-Diablo-Knowledge-Library/src/patch_helper/payload_patch.c:68-95 | In the source's order, any nonzero write of the flag after publication releases the loop on the next pass. The routine then holds a 32-byte buffer and its thread handle, and is suspended |
| PayloadRoutine.ReversedOrderSpinsForever | SGGL-Diablo-Knowledge-Library/src/patch_helper/payload_patch.c:68-76 | With the two prologue steps swapped, an injector that writes 1 as soon as the stack is published has its write wiped by the clear, and the routine never leaves the loop |
| PayloadRoutine.ResumeOnce | SGGL-Diablo-Knowledge-Library/src/patch_helper/payload_patch.c:122-128 | One resume is the injector's write of `is_lib_resize_needed` while the routine is suspended, followed by the routine's step |
| PayloadRoutine.RequestedResizeReallocates | SGGL-Diablo-Knowledge-Library/src/patch_helper/payload_patch.c:97-128 | A resize the injector asks for between resumes is served on the next one. The old buffer is freed, the size is doubled, the new buffer is stored, no library is loaded, and the routine suspends again |
| PayloadRoutine.Spin | SGGL-Diablo-Knowledge-Library/src/patch_helper/payload_patch.c:78-95 | With the flag clear the routine stays where it is. Once it is set: a 32-byte buffer, resize and exit flags cleared, the current thread stored, the routine suspended; the library slots are unchanged |
| PayloadRoutine.AllocPath | SGGL-Diablo-Knowledge-Library/src/patch_helper/payload_patch.c:108-120 | The new buffer is stored and the resize flag cleared, then the routine suspends itself. No other slot changes |
| PayloadRoutine.Serve | SGGL-Diablo-Knowledge-Library/src/patch_helper/payload_patch.c:97-146 | Over any run of resumes, with the injector writing `is_lib_resize_needed` before each one: a routine that is not suspended is untouched, and a suspended one never spins again. The ready and exit flags and the thread handle are unchanged, loaded plus remaining libraries is constant, and the libraries already loaded stay a prefix of those loaded |
| PayloadRoutine.PathSizeDoubles | SGGL-Diablo-Knowledge-Library/src/patch_helper/payload_patch.c:93-105 | The k-th buffer size is 32 * 2^k, and strictly grows up to the 26th |
| PayloadRoutine.PathSizeWraps | SGGL-Diablo-Knowledge-Library/src/patch_helper/payload_patch.c:104-105 | The 26th size is 2^31 and the next `shl` wraps it to 0 |
| PayloadRoutine.ResizeAdvances | SGGL-Diablo-Knowledge-Library/src/patch_helper/payload_patch.c:97-119 | A reallocation moves the size to the next entry of the doubling sequence |
| PayloadRoutine.LoadsThenLeaves | SGGL-Diablo-Knowledge-Library/src/patch_helper/payload_patch.c:122-146 | Told to load n libraries, with no resize requested, the routine loads the buffer n times. On the next resume it frees the buffer and ends |
| PayloadRoutine.ExitFlagStaysClear | SGGL-Diablo-Knowledge-Library/src/patch_helper/payload_patch.c:85-86 | The routine never sets `is_ready_to_exit` |
| StackData.Index | SGGL-Diablo-Knowledge-Library/src/patch_helper/stack_data.h:58-77 | Each member has a declaration position below 15 |
| StackData.IndexInjective | SGGL-Diablo-Knowledge-Library/src/patch_helper/stack_data.h:58-77 | Positions identify members |
| StackData.Prev | SGGL-Diablo-Knowledge-Library/src/patch_helper/stack_data.h:58-77 | Each member except the first follows the one declared before it |
| StackData.Size | SGGL-Diablo-Knowledge-Library/src/patch_helper/stack_data.h:59-76 | Every member is a positive whole number of 4-byte words |
| StackData.Offset | SGGL-Diablo-Knowledge-Library/src/patch_helper/stack_data.h:57-77 | In the packed struct every member's offset is 4-byte aligned, and only the first member is at offset 0 |
| StackData.RoutineSlot | SGGL-Diablo-Knowledge-Library/src/patch_helper/stack_data.h:41-55 | Every slot the routine uses lies inside its 192-byte frame below `ebp`, at a 4-byte-aligned position |
| StackData.SlotsContiguous | SGGL-Diablo-Knowledge-Library/src/patch_helper/stack_data.h:41-55 | The routine's slots tile the frame from `ebp - 192` upwards |
| StackData.StructMatchesRoutine | SGGL-Diablo-Knowledge-Library/src/patch_helper/stack_data.h:36-76 | Struct offset o is slot `ebp - (192 - o)` for every member. Examples: `num_libs` 188 is -4, `lib_path` 172 is -20, `LoadLibraryA` 108 is -84 |
| StackData.StructFillsFrame | SGGL-Diablo-Knowledge-Library/src/patch_helper/stack_data.h:57-78 | The packed struct is 192 bytes, the routine's `sub esp, 192` |
| StackData.EarlierEndsFirst | SGGL-Diablo-Knowledge-Library/src/patch_helper/stack_data.h:58-77 | A member declared earlier ends before a later one starts |
| StackData.MembersDisjoint | SGGL-Diablo-Knowledge-Library/src/patch_helper/stack_data.h:58-77 | Distinct members do not overlap, and all lie inside the struct |
| GameAddresses.DispatchCallsRelease | SGGL-Diablo-Knowledge-Library/src/patch_helper/game_address.c:45-196 | Each listed release gets its own per-version address applied to the header |
| GameAddresses.DispatchOthersGetNull | SGGL-Diablo-Knowledge-Library/src/patch_helper/game_address.c:198-200 | `VERSION_UNKNOWN`, Diablo II 1.04 and 1.09C take the default branch and get 0 |
| GameAddresses.UnsupportedGetNull | SGGL-Diablo-Knowledge-Library/src/patch_helper/game_address.c:40-43 | Every release from 1.14A on gets 0 |
| GameAddresses.GetEntryHijackPatchAddress | SGGL-Diablo-Knowledge-Library/src/patch_helper/game_address.c:36-202 | Every release before 1.14A except Diablo II 1.04 and 1.09C gets its own per-release address; every other value, including unknown and 1.14A on, gets 0 |
| InjectorPatchSet.Teardown | SGGL-Diablo-Knowledge-Library/src/patch_helper/injector_patches.c:90-94 | Removing each patch in turn keeps the memory's size |
| InjectorPatchSet.TeardownRestores | SGGL-Diablo-Knowledge-Library/src/patch_helper/injector_patches.c:90-94 | If every patch saved its original from the same pristine memory, and memory differs from it only under applied patches, tearing them all down restores it |
| InjectorPatchSet.PlacementChainsControl | SGGL-Diablo-Knowledge-Library/src/patch_helper/injector_patches.c:60-85 | The hijack, run, lands on the payload's first byte, and the payload's tail jumps to the entry point, where the cleanup patch lies |
| InjectorPatchSet.InjectorPatches.Views | SGGL-Diablo-Knowledge-Library/src/patch_helper/injector_patches.c:90-94 | The three live patches, in teardown order, each inside memory |
| InjectorPatchSet.InjectorPatches.constructor | SGGL-Diablo-Knowledge-Library/src/patch_helper/injector_patches.h:38-42 | Three distinct zeroed patches |
| InjectorPatchSet.InjectorPatches.Init | SGGL-Diablo-Knowledge-Library/src/patch_helper/injector_patches.c:41-88 | Cleanup goes at `image_base + entry_point` with size 0. The hijack goes at the dispatched address. The payload goes at hijack + 20, with its tail aimed at the cleanup address. Succeeds iff all three regions are readable |
| InjectorPatchSet.InjectorPatches.Deinit | SGGL-Diablo-Knowledge-Library/src/patch_helper/injector_patches.c:90-94 | Tears down payload, then hijack, then cleanup. The memory after success is `Teardown` of the three, in that order |
| InjectorPatchSet.TeardownThree | SGGL-Diablo-Knowledge-Library/src/patch_helper/injector_patches.c:90-94 | `Teardown` of three patches is three removals in order |

## Left out

- File, version-resource and process I/O are inputs rather than calls:
  - `fopen`, `fseek`, `fread` and `fclose`;
  - `GetFileVersionInfoW`;
  - `ReadProcessMemory` and `WriteProcessMemory`, which become readable/writable address sets of the `Process`.
- `fclose` failure, the leaked stream on a fatal path, and `malloc` failure are not modelled. The source treats the last as fatal.
- `GetStormPath` and `Diablo_FindGameVersion` are not modelled. They only build a path and query version resources.
- `Hellfire_FindGameVersion` (resource query) is not modelled.
- `PrintGameVersion` is not modelled; it is `printf`.
- `library_injector.c` is not part of this model. It is the cross-process synchronisation around these patches.
- `stack_data.c` is not part of this model. It is remote read/write wrappers.
- `encoding.c`, `file_info.c`, `file_path.c` and `game_version.c` are not part of this model. They are OS and locale wrappers.
- The per-release hijack-address functions come from headers that are not part of this model. `GameAddresses.GetEntryHijackPatchAddress` takes them as a function parameter.
- Diablo II 1.04 and 1.09C have no case in the address switch, so they take the default branch and get 0. The model follows the code.
- The 1.0.0.1 signature table names `DIABLO_II_1_02_STRESS_TEST_BETA` and `DIABLO_II_1_02_BETA`, which the enum does not declare. They are modelled as `DIABLO_II_STRESS_TEST_BETA_1_02` and `DIABLO_II_BETA_1_02`.
- `BinarySearch.BSearch`: on a table with equal keys it returns one fixed match. Standard C (ISO C11 section 7.22.5.1) leaves the choice open. The lemmas about the Diablo table's duplicate key therefore only claim "one of the two".
- `PayloadRoutine`: the routine is a step function over its stack slots, not a thread. The injector's writes are explicit steps: `SignalReady` for `is_ready_to_execute`, and the `resizeRequest` of each `Resume` for `is_lib_resize_needed`. The initial write of `num_libs` and the other slots is the frame `Serve` starts from.
- `PayloadRoutine.Serve`: the bytes of the path that the injector copies into the buffer are not modelled. `loaded` records the buffer address passed to `LoadLibraryA`. The real x86 execution of `PayloadFunc` and `CleanupFunc` is not modelled beyond the trampoline instructions.
- `PayloadRoutine.ExitFlagStaysClear`: the routine only ever writes 0 to `is_ready_to_exit`. The model follows the code rather than the description of a routine that raises it on exit.
- `PayloadRoutine.PathSizeDoubles`: growth is proved up to the 26th doubling. `PayloadRoutine.PathSizeWraps` shows that the 27th wraps the 32-bit size to 0.
- `PayloadPatches.Init` requires the scanned size to be at least 5, the five placeholder bytes the routine reserves. With a shorter size the source's unsigned index wraps and writes outside the buffer.
- `FuncSizes.InitFuncSize` requires a sentinel to exist in the code. The source scan does not terminate otherwise.
- `FileSignatures.CompareAll`: signed `int` overflow in `signature1->offset - signature2->offset` is undefined in C. It is modelled as a two's-complement wrap, and the lexicographic order is only proved for offsets less than 2^31 apart. The listed tables' offsets (0xF0 and 0xF8) are.
- `PeHeaders.ParsePe`: `(long) start_address + 0x28` is computed without overflow. A 32-bit `long` overflow on a start address near 2^31 is not modelled.
- `FreeSpacePatches.Init`: `kFreeSpaceInitBuffer` is declared without an element type, so its elements are implicit `int`. The copy reads only its first four bytes, which are zero, and the model takes exactly those.
- `InjectorPatchSet.InjectorPatches.Deinit` states the resulting memory only on success. After a fatal failure part-way, the state is left unconstrained.

## Findings

| source | as written | input that shows it | evidently intended | confidence | as-written member | corrected member |
|---|---|---|---|---|---|---|
| SGGL-Diablo-Knowledge-Library/src/diablo/diablo_game_version.c:53-54 | The product table lists `DIABLO_1_09B` under key 1.0.9.1, the same key as `DIABLO_1_09`. A 1.0.9.1 lookup may return either, and 1.09B's own product version is never matched | product version 1.0.9.2 with a `storm.dll` version not in the Storm table gives `VERSION_UNKNOWN` | 1.09B listed under its own key 1.0.9.2, so every product key names one release | medium, not executed | DiabloGameVersion.Release109BUnrecognised | DiabloGameVersion.SearchGameVersionTableCorrected |
