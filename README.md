# ROM toolbox of DS Pokémon ROM Editor, modelled in Dafny

This project models the ROM toolbox dialog (`ROMToolboxDialog`) of DS Pokémon ROM Editor. The dialog applies these patches to an extracted Pokémon DS ROM:

- **ARM9 expansion.** It looks up the patch for the ROM's version and language. It asks the operator to confirm. It backs up `arm9.bin`. It then rewrites the image in one forward pass: the branch bytes go in at one offset and the init bytes at another. Both byte sequences come from "XX XX …" hex strings. Last, it recreates the synthetic overlay file that receives the expansion, as 0x16000 zero bytes.
- **The hex decoder `hexStringtoByteArray`.** The model follows the code as written, quirks included:
  - It trims the text.
  - It rejects an even trimmed length.
  - It allocates `size / 3 + 1` bytes.
  - It drops the FIRST character of the text whenever it meets a space.
  - It parses each pair with `Convert.ToByte(…, 16)`, which also accepts a `+` sign.
- **Item-script standardisation.** Every item script but the last gets its own index as item and 1 as quantity.
- **The version → text-archive table** of the Pokémon-names-to-sentence-case action.

The modules follow the program's parts:

| module | file | what it holds |
|---|---|---|
| `Base` | base.dfy | bytes, `Option`, zero-filled buffers |
| `HexCodec` | hex_codec.dfy | `String.Trim`, the decoder as a function and as the imperative loop, the table's spaced format and the round trip |
| `PatchPlan` | patch_plan.dfy | the expansion resolver (file ID first, then the version and language switches, offsets rebased by 0x02000000), the table as data, the sentence-case archive table |
| `Arm9Rewrite` | arm9_rewrite.dfy | the five steps of the rewrite as a function of the image, with the slice meaning of the image reads and writes |
| `ItemScripts` | item_scripts.dfy | scripts, commands and parameters; the standardisation loop as a function |
| `Toolbox` | toolbox.dfy | the ROM's working files (`RomFiles`: the ARM9 image as an array written in place, its backup, overlay files, the item script) and the dialog (`ToolboxDialog`): the item-standardise and ARM9-expansion actions, and the expansion's helper `arm9expand`, as methods proved against the functions above (the sentence-case action is the function `PatchPlan.NamesToSentenceCase`) |

The operator's answer to each Yes/No prompt is a parameter. The expansion table's resource lookup is a parameter too: a map from key to text, and a map from key to the result of `Int16.Parse`. Every exception the code catches or lets escape is an outcome value.

## Model

| member | source | states |
|---|---|---|
| `HexCodec.Trim` | DS_Map/ROMToolboxDialog.cs:207 | the trimmed text is no longer than the input and neither starts nor ends with white space, white space being the character set of `char.IsWhiteSpace` (`IsWhiteSpace`); that it is the input with only white space removed at the two ends is stated by `TrimRemovesOnlyWhiteSpace` |
| `HexCodec.TrimRemovesOnlyWhiteSpace` | DS_Map/ROMToolboxDialog.cs:207 | the trimmed text is a span of the input with nothing but white space before and after it |
| `HexCodec.TrimStart` | DS_Map/ROMToolboxDialog.cs:207 | the result is a suffix of the input, everything removed is white space, and the result does not start with white space |
| `HexCodec.TrimEnd` | DS_Map/ROMToolboxDialog.cs:207 | the result is a prefix of the input, everything removed is white space, and the result does not end with white space |
| `HexCodec.TrimUnchanged` | DS_Map/ROMToolboxDialog.cs:207 | a text with no white space at either end is its own trim |
| `HexCodec.HexValue` | DS_Map/ROMToolboxDialog.cs:220 | a character's digit value is below 16; which characters have one, and their values, is stated by `HexValueMatchesTables` |
| `HexCodec.HexValueMatchesTables` | DS_Map/ROMToolboxDialog.cs:220 | a character has a digit value exactly when it is in the upper-case or lower-case digit table, and the value is its position there |
| `HexCodec.ParseHexByte` | DS_Map/ROMToolboxDialog.cs:220 | `Convert.ToByte` of a two-character text in base 16; no contract of its own, its meaning is stated by `ParseHexByteMeaning` and `ParseHexByteOfDigits` |
| `HexCodec.ParseHexByteMeaning` | DS_Map/ROMToolboxDialog.cs:220 | a two-character text parses to byte b exactly when it is b's high and low digit in either case, or a `+` sign and b's digit for b below 16 |
| `HexCodec.ParseHexByteOfDigits` | DS_Map/ROMToolboxDialog.cs:220 | two upper-case digits of a byte parse back to that byte |
| `HexCodec.DecodeLoop` | DS_Map/ROMToolboxDialog.cs:215-223 | the loop as a function of the current text, index and buffer; no contract of its own, its behaviour is stated by `DecodeLoopPairTurn`, `DecodeLoopSpaceTurn`, `DecodeLoopNeverRejects` and `DecodeLoopKeepsLength` |
| `HexCodec.HexDecode` | DS_Map/ROMToolboxDialog.cs:202-224 | the decoder as a function; no contract of its own, its results are stated by `RejectedExactly`, `RejectedAtOwnLength`, `DecodedLength` and `DecodeSpaced`, and `HexStringToByteArray` is proved equal to it |
| `HexCodec.HexStringToByteArray` | DS_Map/ROMToolboxDialog.cs:202-224 | the imperative decoder (trim, two length checks, a buffer of `size / 3 + 1` bytes filled in place by a loop that shortens the text at each space) returns exactly the decoder function's result |
| `HexCodec.DecodeLoopPairTurn` | DS_Map/ROMToolboxDialog.cs:215-221 | a turn of the loop at a digit writes pair i into byte i/2 and moves on by two |
| `HexCodec.DecodeLoopSpaceTurn` | DS_Map/ROMToolboxDialog.cs:215-221 | a turn of the loop at a space drops the text's first character, then decodes the pair that follows into byte i/2 |
| `HexCodec.HexDecodeOfTrimmed` | DS_Map/ROMToolboxDialog.cs:207-214 | a trimmed text of odd length, decoded with its own length as size, is handed straight to the loop |
| `HexCodec.DecodeLoopNeverRejects` | DS_Map/ROMToolboxDialog.cs:215-223 | the loop never returns null: only the two checks before it do |
| `HexCodec.DecodeLoopKeepsLength` | DS_Map/ROMToolboxDialog.cs:214-223 | the loop only overwrites bytes of the buffer, never changes its length |
| `HexCodec.RejectedExactly` | DS_Map/ROMToolboxDialog.cs:207-212 | null comes back if and only if the trimmed length is even or exceeds `size * 3` |
| `HexCodec.RejectedAtOwnLength` | DS_Map/ROMToolboxDialog.cs:178 | called as `arm9expand` calls it (size = the text's own length), null comes back if and only if the trimmed length is even |
| `HexCodec.DecodedLength` | DS_Map/ROMToolboxDialog.cs:114-115 | a decoded buffer always has `size / 3 + 1` bytes (the count the confirmation prompt announces), size is at least 1, and, when size is at most the text's length (as `arm9expand` passes it at lines 178 and 182), the buffer is never longer than the text |
| `HexCodec.DecodeSpaced` | DS_Map/ROMToolboxDialog.cs:203-221 | round trip on the table's "XX XX … XX" format: n bytes written that way and decoded with the text's length give back exactly those n bytes when n is even and positive, and null when n is odd or zero |
| `PatchPlan.VersionOf` | DS_Map/ROMToolboxDialog.cs:53-107 | a version name the switch accepts is the name of that version |
| `PatchPlan.LanguageOf` | DS_Map/ROMToolboxDialog.cs:59-65 | a language name the switch accepts is the name of that language |
| `PatchPlan.NamesRoundTrip` | DS_Map/ROMToolboxDialog.cs:53-106 | every supported version and language is recognised by its own name |
| `PatchPlan.PickLanguage` | DS_Map/ROMToolboxDialog.cs:59-69 | the inner language switch of one version family; no contract of its own, stated by `PickLanguageOf` and `ResolveUnsupportedLanguage` |
| `PatchPlan.Resolve` | DS_Map/ROMToolboxDialog.cs:52-109 | the resolver: file ID first, then the version and language switches, offsets rebased; no contract of its own, stated against the table by `ResolveMatchesTable`, `ResolveUnsupportedVersion`, `ResolveUnsupportedLanguage` and `PlanIsOrdered` |
| `PatchPlan.PlanTemplate` | DS_Map/ROMToolboxDialog.cs:53-103 | the expansion table as data, one row per supported version and language, offsets relative to the image; the reference `ResolveMatchesTable` compares the resolver with |
| `PatchPlan.PickLanguageOf` | DS_Map/ROMToolboxDialog.cs:59-69 | on a supported language the inner switch picks that language's init address, and both addresses are rebased by 0x02000000 |
| `PatchPlan.ResolveDiamondPearl` | DS_Map/ROMToolboxDialog.cs:54-70 | Diamond and Pearl resolve to the Diamond row of the table (shared branch and init keys, USA or ESP init offset) |
| `PatchPlan.ResolvePlatinum` | DS_Map/ROMToolboxDialog.cs:71-86 | Platinum resolves to its own row, with keys that include the language |
| `PatchPlan.ResolveHeartGoldSoulSilver` | DS_Map/ROMToolboxDialog.cs:87-103 | HeartGold and SoulSilver resolve to the HeartGold row |
| `PatchPlan.ResolveMatchesTable` | DS_Map/ROMToolboxDialog.cs:52-109 | for every supported version and language, the resolver yields the table's file ID, rebased offsets and resource keys, or fails when the file ID cannot be read |
| `PatchPlan.ResolveUnsupportedVersion` | DS_Map/ROMToolboxDialog.cs:104-106 | an unknown version never yields a plan: the file-ID read fails first, or else "unsupported ROM" |
| `PatchPlan.ResolveUnsupportedLanguage` | DS_Map/ROMToolboxDialog.cs:66-68 | a known version with a language other than USA or ESP never yields a plan (the same default at lines 82-84 and 99-101) |
| `PatchPlan.PlanIsOrdered` | DS_Map/ROMToolboxDialog.cs:53-109 | every plan is for a supported version and language, and its branch offset lies more than 0x100000 bytes before its init offset (the window lengths come from the table's strings, which the resolver does not see) |
| `PatchPlan.SentenceCaseArchives` | DS_Map/ROMToolboxDialog.cs:136-151 | the version → text-archive table; no contract of its own, stated by `SentenceCaseCoversSameVersions` |
| `PatchPlan.NamesToSentenceCase` | DS_Map/ROMToolboxDialog.cs:136-167 | the sentence-case action with the operator's answer as a parameter; no contract of its own, stated by `SentenceCaseCoversSameVersions` |
| `PatchPlan.SentenceCaseCoversSameVersions` | DS_Map/ROMToolboxDialog.cs:136-163 | the sentence-case action refuses exactly the versions the switch does not know, sibling editions share archives, and a confirmed run names at least two archives |
| `Arm9Rewrite.Overwrite` | DS_Map/ROMToolboxDialog.cs:178 | an overwrite keeps the image's length, puts the data in its window, and leaves every other byte alone |
| `Arm9Rewrite.ReadSlice` | DS_Map/ROMToolboxDialog.cs:177 | the slice meaning of `ReadFromArm9`; no contract of its own, stated by `CopyBackIsIdentity` and by `Toolbox.RomFiles.ReadFromArm9`, which is proved equal to it |
| `Arm9Rewrite.WriteSlice` | DS_Map/ROMToolboxDialog.cs:178 | the slice meaning of `WriteToArm9`: an `Overwrite` when the window fits, failure otherwise; `Toolbox.RomFiles.WriteToArm9` is proved equal to it |
| `Arm9Rewrite.CopyBack` | DS_Map/ROMToolboxDialog.cs:177 | a span read and written back at the same offset; no contract of its own, stated by `CopyBackIsIdentity` |
| `Arm9Rewrite.Splice` | DS_Map/ROMToolboxDialog.cs:178 | a decoder result written at an offset, failing for null or an exception; no contract of its own, stated by `PassIsTwoOverwrites` and `PassFailureIsPartial` |
| `Arm9Rewrite.RewritePass` | DS_Map/ROMToolboxDialog.cs:175-188 | the five steps of the `try` block on decoded strings; no contract of its own, stated by `PassIsTwoOverwrites`, `PassFailureIsPartial` and `PassSucceeds` |
| `Arm9Rewrite.BranchStage` | DS_Map/ROMToolboxDialog.cs:178-179 | step 2 onwards of the pass; no contract of its own, stated through `RewritePass` by the pass lemmas |
| `Arm9Rewrite.GapStage` | DS_Map/ROMToolboxDialog.cs:181 | step 3 onwards of the pass; no contract of its own, stated through `RewritePass` by the pass lemmas |
| `Arm9Rewrite.InitStage` | DS_Map/ROMToolboxDialog.cs:182-183 | step 4 onwards of the pass; no contract of its own, stated through `RewritePass` by the pass lemmas |
| `Arm9Rewrite.TailStage` | DS_Map/ROMToolboxDialog.cs:185 | step 5 of the pass; no contract of its own, stated through `RewritePass` by the pass lemmas |
| `Arm9Rewrite.Rewrite` | DS_Map/ROMToolboxDialog.cs:175-188 | the pass with each string decoded at its own length; no contract of its own, stated by `RewriteIsTwoOverwrites`, `RewriteFailureIsPartial`, `RewriteSucceeds` and `RewriteFrame` |
| `Arm9Rewrite.CopyBackIsIdentity` | DS_Map/ROMToolboxDialog.cs:177 | writing a span of the image back onto itself either fails or changes nothing (the same idiom at lines 181 and 185) |
| `Arm9Rewrite.PassIsTwoOverwrites` | DS_Map/ROMToolboxDialog.cs:175-185 | a completed pass decoded both strings, found both windows inside the image, and changed it by the two overwrites alone |
| `Arm9Rewrite.PassFailureIsPartial` | DS_Map/ROMToolboxDialog.cs:175-188 | a failed pass leaves one of these: the original image; the image with only the branch window written; or both windows written when the final copy starts past the end of the image |
| `Arm9Rewrite.PassSucceeds` | DS_Map/ROMToolboxDialog.cs:175-185 | the pass completes when both decodes succeed, both windows fit, and each string's text ends before the next window |
| `Arm9Rewrite.RewriteIsTwoOverwrites` | DS_Map/ROMToolboxDialog.cs:175-185 | the same as `PassIsTwoOverwrites`, for the strings as `arm9expand` decodes them |
| `Arm9Rewrite.RewriteFailureIsPartial` | DS_Map/ROMToolboxDialog.cs:175-188 | the same as `PassFailureIsPartial`, for the strings as `arm9expand` decodes them |
| `Arm9Rewrite.RewriteSucceeds` | DS_Map/ROMToolboxDialog.cs:175-185 | when both strings decode and each string's text fits before the next window and inside the image, the rewrite completes |
| `Arm9Rewrite.RewriteFrame` | DS_Map/ROMToolboxDialog.cs:176-185 | after a completed rewrite with ordered windows the image keeps its length, both windows hold the decoded bytes, and no byte outside them has changed |
| `Arm9Rewrite.WindowsOfTwoOverwrites` | DS_Map/ROMToolboxDialog.cs:178-182 | two overwrites in windows that do not overlap each leave their own data in place and touch nothing else |
| `ItemScripts.UShortBytes` | DS_Map/ROMToolboxDialog.cs:29-30 | `BitConverter.GetBytes((ushort)n)`; no contract of its own, stated by `UShortRoundTrip` |
| `ItemScripts.SetParameter` | DS_Map/ROMToolboxDialog.cs:29-30 | one parameter assignment on a script; no contract of its own, stated by `StandardizeEffect` |
| `ItemScripts.StandardizedScript` | DS_Map/ROMToolboxDialog.cs:29-30 | one turn of the loop on script i; no contract of its own, stated by `StandardizeEffect` |
| `ItemScripts.Standardize` | DS_Map/ROMToolboxDialog.cs:27-31 | the whole loop as a function, failing when a script it visits is not `Standardizable` (lacks command 0 or 1, or their parameter 1, so the list indexers at lines 29-30 throw); no contract of its own, stated by `StandardizeEffect` and `StandardizeIdempotent`, and `Toolbox.ToolboxDialog.ApplyItemStandardize` is proved against it |
| `ItemScripts.UShortRoundTrip` | DS_Map/ROMToolboxDialog.cs:29-30 | the two little-endian bytes written for an index read back as that index modulo 65536 |
| `ItemScripts.StandardizeEffect` | DS_Map/ROMToolboxDialog.cs:27-31 | for each script below Count - 1, parameter 1 of command 0 becomes the bytes of its index and parameter 1 of command 1 the bytes of 1; the last script, every other command and parameter, and every count stay as they were |
| `ItemScripts.StandardizeIdempotent` | DS_Map/ROMToolboxDialog.cs:27-31 | running the standardisation twice succeeds and gives the same scripts as running it once |
| `ItemScripts.ScriptFile.constructor` | DS_Map/ROMToolboxDialog.cs:26 | the parsed file holds the file's scripts in order |
| `Toolbox.ZeroFilledOverlay` | DS_Map/ROMToolboxDialog.cs:193-196 | the overlay file written byte by byte holds exactly 0x16000 zero bytes |
| `Toolbox.RomFiles.constructor` | DS_Map/ROMToolboxDialog.cs:38 | the working files start from the given image, backup, overlays and item script |
| `Toolbox.RomFiles.ReadFromArm9` | DS_Map/ROMToolboxDialog.cs:177 | a read returns the requested span of the current image, the rest of the image for length -1, and fails out of range |
| `Toolbox.RomFiles.WriteToArm9` | DS_Map/ROMToolboxDialog.cs:178 | an in-place write succeeds exactly when the window fits, and then the image is that overwrite; otherwise the image is unchanged |
| `Toolbox.RomFiles.CopyBackArm9` | DS_Map/ROMToolboxDialog.cs:181 | a span written back onto itself, step by step, is the copy-back of the image |
| `Toolbox.RomFiles.SpliceArm9` | DS_Map/ROMToolboxDialog.cs:182 | the decoder's result is written at the offset only when it is a buffer; null or an exception fails the step |
| `Toolbox.RomFiles.RewriteArm9` | DS_Map/ROMToolboxDialog.cs:175-188 | the five in-place steps leave the image and the success flag that the rewrite function predicts, including after a step that fails |
| `Toolbox.RomFiles.RewriteFromGap` | DS_Map/ROMToolboxDialog.cs:181-185 | steps 3 to 5 in place match the rewrite function from `current` on |
| `Toolbox.ToolboxDialog.constructor` | DS_Map/ROMToolboxDialog.cs:14-20 | a new dialog works on the given ROM and has not standardised items |
| `Toolbox.ToolboxDialog.ApplyItemStandardize` | DS_Map/ROMToolboxDialog.cs:22-35 | the item script becomes the standardised scripts and the flag is set exactly when every visited script has the commands and parameters written; otherwise nothing changes; other files are untouched |
| `Toolbox.ToolboxDialog.Arm9Expand` | DS_Map/ROMToolboxDialog.cs:170-200 | the backup holds the image as it was; image and result are those of the rewrite; the overlay file is recreated as 0x16000 zeros only on success |
| `Toolbox.ToolboxDialog.Arm9Expansion` | DS_Map/ROMToolboxDialog.cs:41-130 | with an unreadable file ID or a missing hex string the dialog crashes; an unsupported ROM or language, or a "No", is reported and changes nothing; a "Yes" runs `arm9expand` with the resolved plan and reports its result |
| `Toolbox.ExpansionRequest` | DS_Map/ROMToolboxDialog.cs:52-115 | `arm9Expansion` up to the prompt; no contract of its own, stated by `RequestForSupportedPair` and by `Toolbox.ToolboxDialog.Arm9Expansion` |
| `Toolbox.RequestForSupportedPair` | DS_Map/ROMToolboxDialog.cs:52-115 | for a supported version and language with all table entries present, the prompt offers the table's offsets, the table's two strings and the parsed file ID |
| `Toolbox.PlannedRewrite` | DS_Map/ROMToolboxDialog.cs:108-121 | for any supported version and language, spaced strings of an even number of bytes that fit the table's windows complete the rewrite and lay exactly those bytes over the two windows |
| `Toolbox.DiamondUsaExample` | DS_Map/ROMToolboxDialog.cs:58-61 | Diamond (USA) on a zeroed 3 MB image with "01 02 03 04" and "AA BB": both windows hold those bytes and every other byte is still zero |

## Left out

- The Windows Forms UI: message boxes, titles and button handlers. Each prompt's answer is a parameter. Each message the dialog shows is an outcome value.
- `ResourceManager` and `Int16.Parse`. They are modelled as two lookups passed in: key → text and key → parsed file ID. The 16-bit range of the parsed ID is not modelled.
- The file system:
  - Paths, `File.Exists`, `File.Delete` and `File.Copy` are not modelled. The backup is a field that receives the image.
  - The overlay file is a map entry. The `(byte)0x00` writes become a loop that appends zeros.
  - Failures of these file operations are not modelled. In the source they sit outside the `try` block.
- `MainProgram.ReadFromArm9` and `MainProgram.WriteToArm9` are not part of this model. They are given the slice meaning that their call sites describe:
  - A read of `length` bytes from `offset`, or to the end for -1.
  - A write of the bytes at `offset`.
  - An access out of range fails like any other exception inside the `try`. The model assumes this failure. A write that would extend the file is not modelled.
- `Toolbox.ToolboxDialog.Arm9Expand` decodes both hex strings before the pass starts. The source decodes each one just before its own write. The decoder reads no state and changes none, so the order cannot be observed. The pass still uses each result only at its own step.
- `WriteToArm9(offset, null)`, for a string the decoder rejects, is assumed to throw, which the `try` catches.
- `ScriptFile` parsing and `Save` are not part of this model. The file is its list of scripts, read when the action starts and written back when it ends. Other script objects are not modelled, so aliasing between them is not either.
- `BitConverter` is taken as little-endian, as on every platform the editor targets.
- The body of `namesToSentenceCase` is not modelled. It is empty in the source, so a confirmed run only names the archives.
- `HexCodec.HexStringToByteArray` does not model the 32-bit overflow of `size * 3`, because every caller passes a string length.
- In the source, the file ID is read before the version is examined, so an unknown version with no `fileID` entry crashes (`Int16.Parse(null)` throws) instead of reporting an unsupported ROM. The model follows the code.
- Text is a sequence of Unicode scalar values, not of UTF-16 code units. For a character outside the Basic Multilingual Plane, C#'s `Length` counts two units and the model counts one. So on such text the decoder's parity test, and `HexCodec.RejectedExactly`, can differ from the source. An example is `"A😀"`, which the source sends into the loop, where `Convert.ToByte` throws, and which the model rejects. The hex strings of the expansion table are plain ASCII.
- `HexCodec.Trim`: its own contract gives only the non-white-space ends. That the result is the input with only white space removed at the two ends is the lemma `TrimRemovesOnlyWhiteSpace`, kept apart so that the existential does not weigh on every proof that calls `Trim`.
- `HexCodec.HexValue`: its own contract gives only the bound below 16. Which characters are digits, and their values, is the lemma `HexValueMatchesTables`, kept apart so that the digit tables do not weigh on every proof that meets a digit.
- `long` offsets are unbounded integers. Every offset in the table fits easily.
