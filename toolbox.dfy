/**
 * The ROM toolbox dialog's actions on the ROM's working files.
 *
 * `RomFiles` holds the files the actions read and rewrite: the ARM9 image
 * (arm9.bin, updated in place), its backup (arm9.bin.bak), the synthetic
 * overlay files by file ID, and the item script file. `ToolboxDialog`
 * holds the dialog's own state and its actions. The operator's answer to
 * a confirmation prompt is a parameter; the prompts themselves are not
 * modelled.
 */
module Toolbox {
  import opened Base
  import opened HexCodec
  import opened PatchPlan
  import opened Arm9Rewrite
  import opened ItemScripts

  /** The size of the overlay file the expansion recreates (88 KB). */
  const OverlaySize := 0x1_6000

  /**
   * The ARM9 expansion table. `getString(key)` is the table's text for
   * `key` (`None` for a missing key, which the resource manager reports as
   * null); `fileIds(key)` is `Int16.Parse` of that text, `None` when the
   * parse throws.
   */
  datatype Arm9Db = Arm9Db(getString: string -> Option<string>, fileIds: string -> Option<int>)

  /** What `arm9Expansion` has in hand when it asks for confirmation, or why it stops earlier. */
  datatype Request =
    | Crash                  // an exception escapes before anything is written
    | RomRefused
    | LanguageRefused
    | Confirm(fileId: int, branchOffset: int, branchString: string, initOffset: int, initString: string)

  /**
   * `arm9Expansion` up to the prompt: resolve the plan, fetch the two hex
   * strings. A missing string is null, and the prompt's `.Length` on it
   * throws.
   */
  function ExpansionRequest(version: string, lang: string, db: Arm9Db): Request
  {
    match Resolve(version, lang, db.fileIds)
    case FileIdUnreadable => Crash
    case UnsupportedVersion => RomRefused
    case UnsupportedLanguage => LanguageRefused
    case Plan(fileId, branchOffset, branchKey, initOffset, initKey) =>
      match (db.getString(branchKey), db.getString(initKey))
      case (Some(branchString), Some(initString)) =>
        Confirm(fileId, branchOffset, branchString, initOffset, initString)
      case _ => Crash
  }

  /** How a run of the ARM9 expansion ends. */
  datatype ExpansionOutcome =
    | Crashed                // an uncaught exception before the prompt
    | UnsupportedRomShown
    | UnsupportedLanguageShown
    | Canceled               // "No changes have been made."
    | Succeeded              // "Operation successful."
    | Failed                 // "Operation failed ... restore the arm9 backup"

  /** The zero-filled overlay file: 0x16000 single-byte writes of 0x00. */
  method ZeroFilledOverlay() returns (data: seq<byte>)
    ensures data == Zeros(OverlaySize)
  {
    data := [];
    for i := 0 to OverlaySize
      invariant |data| == i
      invariant forall k :: 0 <= k < i ==> data[k] == 0
    {
      data := data + [0];
    }
  }

  class RomFiles {
    var arm9: array<byte>
    var arm9Backup: Option<seq<byte>>
    var overlays: map<int, seq<byte>>
    var itemScript: seq<Script>

    constructor (image: seq<byte>, backup: Option<seq<byte>>, overlays: map<int, seq<byte>>,
                 itemScript: seq<Script>)
      ensures fresh(arm9) && arm9[..] == image
      ensures arm9Backup == backup && this.overlays == overlays && this.itemScript == itemScript
    {
      arm9 := new byte[|image|](i requires 0 <= i < |image| => image[i]);
      arm9Backup := backup;
      this.overlays := overlays;
      this.itemScript := itemScript;
    }

    /** `ReadFromArm9(offset, length)`: a copy of a span of the image, -1 meaning "to the end". */
    method ReadFromArm9(offset: int, length: int) returns (r: Option<seq<byte>>)
      ensures r == ReadSlice(arm9[..], offset, length)
    {
      if length == -1 {
        if 0 <= offset <= arm9.Length {
          return Some(arm9[offset..]);
        }
        return None;
      }
      if 0 <= offset && 0 <= length && offset + length <= arm9.Length {
        return Some(arm9[offset..offset + length]);
      }
      return None;
    }

    /** `WriteToArm9(offset, data)`: overwrite a span of the image in place. */
    method WriteToArm9(offset: int, data: seq<byte>) returns (ok: bool)
      modifies arm9
      ensures ok == WriteSlice(old(arm9[..]), offset, data).Some?
      ensures arm9[..] == if ok then WriteSlice(old(arm9[..]), offset, data).value else old(arm9[..])
    {
      ok := 0 <= offset && offset + |data| <= arm9.Length;
      if ok {
        forall j | 0 <= j < |data| {
          arm9[offset + j] := data[j];
        }
        assert arm9[..] == Overwrite(old(arm9[..]), offset, data);
      }
    }

    /** `WriteToArm9(offset, ReadFromArm9(offset, length))`: a span copied back onto itself. */
    method CopyBackArm9(offset: int, length: int) returns (ok: bool)
      modifies arm9
      ensures ok == CopyBack(old(arm9[..]), offset, length).Some?
      ensures arm9[..] == if ok then CopyBack(old(arm9[..]), offset, length).value else old(arm9[..])
    {
      var chunk := ReadFromArm9(offset, length);
      if chunk.None? {
        return false;
      }
      ok := WriteToArm9(offset, chunk.value);
    }

    /**
     * `WriteToArm9(offset, hexStringtoByteArray(...))` given what the
     * decoder returned: a rejected string is null and a faulted one has
     * thrown, so only decoded bytes are written.
     */
    method SpliceArm9(offset: int, decoded: Decoded) returns (ok: bool)
      modifies arm9
      ensures ok == Splice(old(arm9[..]), offset, decoded).Some?
      ensures arm9[..] == if ok then Splice(old(arm9[..]), offset, decoded).value else old(arm9[..])
    {
      if !decoded.Bytes? {
        return false;
      }
      ok := WriteToArm9(offset, decoded.bytes);
    }

    /**
     * The five steps of the `try` block of `arm9expand`, given what the
     * decoder makes of the two strings: a step that fails stops the pass
     * and leaves the image as the earlier steps made it.
     */
    method RewriteArm9(branchOffset: int, branchChars: nat, branch: Decoded,
                       initOffset: int, initChars: nat, init: Decoded) returns (ok: bool)
      modifies arm9
      ensures var r := RewritePass(old(arm9[..]), branchOffset, branchChars, branch, initOffset, initChars, init);
        ok == r.ok && arm9[..] == r.image
    {
      ghost var expected := RewritePass(arm9[..], branchOffset, branchChars, branch, initOffset, initChars, init);
      var current := 0;
      ok := CopyBackArm9(current, branchOffset - current);
      if !ok {
        return;
      }
      assert expected == BranchStage(arm9[..], branchOffset, branchChars, branch, initOffset, initChars, init);
      ok := SpliceArm9(branchOffset, branch);
      if !ok {
        return;
      }
      current := branchOffset + branchChars;
      assert expected == GapStage(arm9[..], current, initOffset, initChars, init);
      ok := RewriteFromGap(current, initOffset, initChars, init);
    }

    /** Steps 3 to 5 of the pass, from `current` just past the branch text. */
    method RewriteFromGap(current: int, initOffset: int, initChars: nat, init: Decoded) returns (ok: bool)
      modifies arm9
      ensures var r := GapStage(old(arm9[..]), current, initOffset, initChars, init);
        ok == r.ok && arm9[..] == r.image
    {
      ghost var expected := GapStage(arm9[..], current, initOffset, initChars, init);
      ok := CopyBackArm9(current, initOffset - current);
      if !ok {
        return;
      }
      assert expected == InitStage(arm9[..], initOffset, initChars, init);
      ok := SpliceArm9(initOffset, init);
      if !ok {
        return;
      }
      var next := initOffset + initChars;
      assert expected == TailStage(arm9[..], next);
      ok := CopyBackArm9(next, -1);
    }
  }

  class ToolboxDialog {
    const files: RomFiles
    var standardizedItems: bool

    constructor (files: RomFiles)
      ensures this.files == files && !standardizedItems
    {
      this.files := files;
      standardizedItems := false;
    }

    /**
     * `applyItemStandardizeButton_Click`: read the item script file, fix
     * the item index and quantity of every script but the last, write the
     * file back and remember that it was done. If a script lacks a command
     * or parameter the loop writes, the exception escapes and the file is
     * not rewritten.
     */
    method ApplyItemStandardize() returns (ok: bool)
      modifies this, files
      ensures files.arm9 == old(files.arm9) && files.arm9Backup == old(files.arm9Backup)
      ensures files.overlays == old(files.overlays)
      ensures ok == Standardize(old(files.itemScript)).Some?
      ensures files.itemScript
           == if ok then Standardize(old(files.itemScript)).value else old(files.itemScript)
      ensures standardizedItems == (ok || old(standardizedItems))
    {
      ghost var original := files.itemScript;
      var file := new ScriptFile(files.itemScript);
      var i := 0;
      while i < |file.scripts| - 1
        invariant 0 <= i <= |original| && |file.scripts| == |original|
        invariant i > 0 ==> i <= |original| - 1
        invariant forall j :: 0 <= j < i ==> Standardizable(original[j])
        invariant forall j :: 0 <= j < i ==> file.scripts[j] == StandardizedScript(original[j], j)
        invariant forall j :: i <= j < |original| ==> file.scripts[j] == original[j]
        modifies file
      {
        var script := file.scripts[i];
        if !(|script.commands| > 0 && |script.commands[0].parameters| > 1) {
          return false;
        }
        file.scripts := file.scripts[i := SetParameter(script, 0, 1, UShortBytes(i))];
        script := file.scripts[i];
        if !(|script.commands| > 1 && |script.commands[1].parameters| > 1) {
          return false;
        }
        file.scripts := file.scripts[i := SetParameter(script, 1, 1, UShortBytes(1))];
        i := i + 1;
      }
      assert forall j :: 0 <= j < |original| ==>
        file.scripts[j] == Standardize(original).value[j];
      files.itemScript := file.scripts;
      standardizedItems := true;
      ok := true;
    }

    /**
     * `arm9expand`: back the image up, rewrite it in one forward pass and,
     * if the pass completes, recreate overlay file `fileId` as 0x16000
     * zero bytes.
     */
    method Arm9Expand(fileId: int, initOffset: int, initString: string,
                      branchOffset: int, branchString: string) returns (ok: bool)
      modifies files, files.arm9
      ensures files.arm9 == old(files.arm9) && files.itemScript == old(files.itemScript)
      ensures files.arm9Backup == Some(old(files.arm9[..]))
      ensures var r := Rewrite(old(files.arm9[..]), branchOffset, branchString, initOffset, initString);
        ok == r.ok && files.arm9[..] == r.image
      ensures files.overlays
           == if ok then old(files.overlays)[fileId := Zeros(OverlaySize)] else old(files.overlays)
    {
      // any old arm9.bin.bak is deleted, then arm9.bin is copied to it
      files.arm9Backup := Some(files.arm9[..]);
      // the decoder is pure, so both strings are decoded up front; the pass
      // still uses each result only at its own step
      var branch := HexStringToByteArray(branchString, |branchString|);
      var init := HexStringToByteArray(initString, |initString|);
      ok := files.RewriteArm9(branchOffset, |branchString|, branch, initOffset, |initString|, init);
      if !ok {
        return;
      }
      // overlay file #fileId: deleted, then created and filled with zeros
      var zeros := ZeroFilledOverlay();
      files.overlays := files.overlays[fileId := zeros];
    }

    /**
     * `arm9Expansion`: resolve the plan, ask the operator, and on "Yes"
     * run `arm9expand`. Every way out before the operator's "Yes" leaves
     * the files as they were.
     */
    method Arm9Expansion(version: string, lang: string, db: Arm9Db, confirmed: bool)
      returns (outcome: ExpansionOutcome)
      modifies files, files.arm9
      ensures files.arm9 == old(files.arm9) && files.itemScript == old(files.itemScript)
      ensures var request := ExpansionRequest(version, lang, db);
        if request.Confirm? && confirmed then
          var r := Rewrite(old(files.arm9[..]), request.branchOffset, request.branchString,
                           request.initOffset, request.initString);
          && outcome == (if r.ok then Succeeded else Failed)
          && files.arm9Backup == Some(old(files.arm9[..]))
          && files.arm9[..] == r.image
          && files.overlays
             == if r.ok then old(files.overlays)[request.fileId := Zeros(OverlaySize)] else old(files.overlays)
        else
          && outcome == (match request
                         case Crash => Crashed
                         case RomRefused => UnsupportedRomShown
                         case LanguageRefused => UnsupportedLanguageShown
                         case Confirm(_, _, _, _, _) => Canceled)
          && files.arm9[..] == old(files.arm9[..])
          && files.arm9Backup == old(files.arm9Backup)
          && files.overlays == old(files.overlays)
    {
      var request := ExpansionRequest(version, lang, db);
      match request
      case Crash =>
        return Crashed;
      case RomRefused =>
        return UnsupportedRomShown;
      case LanguageRefused =>
        return UnsupportedLanguageShown;
      case Confirm(fileId, branchOffset, branchString, initOffset, initString) =>
        if !confirmed {
          return Canceled;
        }
        var ok := Arm9Expand(fileId, initOffset, initString, branchOffset, branchString);
        outcome := if ok then Succeeded else Failed;
    }
  }

  /**
   * For every supported version and language whose table entries are all
   * present, the prompt offers the table's offsets, the table's two
   * strings and the parsed file ID.
   */
  lemma RequestForSupportedPair(v: Version, l: Language, db: Arm9Db)
    requires db.fileIds("fileID" + VersionName(v)).Some?
    requires db.getString(PlanTemplate(v, l).branchKey).Some?
    requires db.getString(PlanTemplate(v, l).initKey).Some?
    ensures var t := PlanTemplate(v, l);
      ExpansionRequest(VersionName(v), LanguageName(l), db)
      == Confirm(db.fileIds("fileID" + VersionName(v)).value,
                 t.branchOffset, db.getString(t.branchKey).value,
                 t.initOffset, db.getString(t.initKey).value)
  {
    ResolveMatchesTable(v, l, db.fileIds);
  }

  /**
   * End to end on the table: when the table's strings are the spaced
   * encodings of even, non-empty byte sequences whose text fits between
   * the two windows and inside the image, the rewrite for any supported
   * version and language completes and lays exactly those bytes over the
   * table's two windows.
   */
  lemma PlannedRewrite(v: Version, l: Language, image: seq<byte>, branch: seq<byte>, init: seq<byte>)
    requires branch != [] && |branch| % 2 == 0 && init != [] && |init| % 2 == 0
    requires PlanTemplate(v, l).branchOffset + |EncodeSpaced(branch)| <= PlanTemplate(v, l).initOffset
    requires PlanTemplate(v, l).initOffset + |EncodeSpaced(init)| <= |image|
    ensures var t := PlanTemplate(v, l);
            var r := Rewrite(image, t.branchOffset, EncodeSpaced(branch), t.initOffset, EncodeSpaced(init));
      && r.ok
      && t.branchOffset + |branch| <= t.initOffset && t.initOffset + |init| <= |image|
      && r.image == Overwrite(Overwrite(image, t.branchOffset, branch), t.initOffset, init)
  {
    var t := PlanTemplate(v, l);
    DecodeSpaced(branch);
    DecodeSpaced(init);
    RewriteSucceeds(image, t.branchOffset, EncodeSpaced(branch), t.initOffset, EncodeSpaced(init));
    RewriteIsTwoOverwrites(image, t.branchOffset, EncodeSpaced(branch), t.initOffset, EncodeSpaced(init));
  }

  /**
   * A worked instance for Diamond (USA): an image of 0x300000 zero bytes,
   * the branch text "01 02 03 04" and the init text "AA BB". After the
   * rewrite the two windows hold those bytes and every other byte is
   * still zero.
   */
  lemma DiamondUsaExample()
    ensures var r := Rewrite(Zeros(0x30_0000), 0xC80, EncodeSpaced([1, 2, 3, 4]),
                             0x10_64EC, EncodeSpaced([0xAA, 0xBB]));
      && r.ok && |r.image| == 0x30_0000
      && r.image[0xC80..0xC84] == [1, 2, 3, 4]
      && r.image[0x10_64EC..0x10_64EE] == [0xAA, 0xBB]
      && forall k :: 0 <= k < 0x30_0000 && OutsideWindows(k, 0xC80, 4, 0x10_64EC, 2) ==> r.image[k] == 0
  {
    var image := Zeros(0x30_0000);
    PlannedRewrite(Diamond, USA, image, [1, 2, 3, 4], [0xAA, 0xBB]);
    WindowsOfTwoOverwrites(image, 0xC80, [1, 2, 3, 4], 0x10_64EC, [0xAA, 0xBB]);
  }
}
