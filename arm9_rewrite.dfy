/**
 * The segmented rewrite of `arm9expand` as a function of the image: a
 * single forward pass that copies each untouched span back onto itself
 * and overwrites the branch and init windows with the decoded strings.
 *
 * The image helpers `ReadFromArm9(offset, length)` and
 * `WriteToArm9(offset, bytes)` are not part of this model; they are given
 * the slice meaning their call sites describe: a read returns `length`
 * bytes from `offset`, or everything from `offset` to the end when
 * `length` is -1; a write overwrites `|bytes|` bytes from `offset`. Any
 * other read or write (a negative offset or length, a span past the end
 * of the image, a null buffer) throws, which the rewrite turns into
 * failure.
 */
module Arm9Rewrite {
  import opened Base
  import opened HexCodec

  /** `image` with `data` laid over the window starting at `offset`. */
  function Overwrite(image: seq<byte>, offset: int, data: seq<byte>): (r: seq<byte>)
    requires 0 <= offset && offset + |data| <= |image|
    ensures |r| == |image|
    ensures r[offset..offset + |data|] == data
    ensures forall k :: 0 <= k < |image| && !(offset <= k < offset + |data|) ==> r[k] == image[k]
  {
    image[..offset] + data + image[offset + |data|..]
  }

  /** `ReadFromArm9(offset, length)`; `None` when the read throws. */
  function ReadSlice(image: seq<byte>, offset: int, length: int): Option<seq<byte>>
  {
    if length == -1 then
      if 0 <= offset <= |image| then Some(image[offset..]) else None
    else if 0 <= offset && 0 <= length && offset + length <= |image| then
      Some(image[offset..offset + length])
    else None
  }

  /** `WriteToArm9(offset, data)`; `None` when the write throws. */
  function WriteSlice(image: seq<byte>, offset: int, data: seq<byte>): Option<seq<byte>>
  {
    if 0 <= offset && offset + |data| <= |image| then Some(Overwrite(image, offset, data)) else None
  }

  /** `WriteToArm9(offset, ReadFromArm9(offset, length))`. */
  function CopyBack(image: seq<byte>, offset: int, length: int): Option<seq<byte>>
  {
    match ReadSlice(image, offset, length)
    case None => None
    case Some(chunk) => WriteSlice(image, offset, chunk)
  }

  /** `WriteToArm9(offset, hexStringtoByteArray(text, text.Length))`. */
  function Splice(image: seq<byte>, offset: int, decoded: Decoded): Option<seq<byte>>
  {
    match decoded
    case Bytes(bytes) => WriteSlice(image, offset, bytes)
    case _ => None
  }

  /** Copying a span back onto itself either throws or leaves the image as it was. */
  lemma CopyBackIsIdentity(image: seq<byte>, offset: int, length: int)
    ensures CopyBack(image, offset, length) == None || CopyBack(image, offset, length) == Some(image)
  {
    match ReadSlice(image, offset, length)
    case None =>
    case Some(chunk) =>
      assert image[..offset] + chunk + image[offset + |chunk|..] == image;
  }

  /** Position k lies in neither of the two windows. */
  predicate OutsideWindows(k: int, branchOffset: int, branchLength: nat, initOffset: int, initLength: nat)
  {
    !(branchOffset <= k < branchOffset + branchLength) && !(initOffset <= k < initOffset + initLength)
  }

  /** The outcome of the rewrite: whether it completed, and the image as left behind. */
  datatype Rewritten = Rewritten(ok: bool, image: seq<byte>)

  /**
   * The five steps of the `try` block in `arm9expand`, given what the
   * decoder made of the two strings and the strings' character counts.
   * `current` moves on by the CHARACTER count of each hex string, not by
   * the number of bytes written. A step that throws stops the pass and
   * leaves the image as the earlier steps made it.
   */
  function RewritePass(image: seq<byte>, branchOffset: int, branchChars: int, branch: Decoded,
                       initOffset: int, initChars: int, init: Decoded): Rewritten
  {
    match CopyBack(image, 0, branchOffset - 0)
    case None => Rewritten(false, image)
    case Some(img1) => BranchStage(img1, branchOffset, branchChars, branch, initOffset, initChars, init)
  }

  /** Step 2 onwards: the branch bytes are written, then `current` moves past the branch text. */
  function BranchStage(img1: seq<byte>, branchOffset: int, branchChars: int, branch: Decoded,
                       initOffset: int, initChars: int, init: Decoded): Rewritten
  {
    match Splice(img1, branchOffset, branch)
    case None => Rewritten(false, img1)
    case Some(img2) => GapStage(img2, branchOffset + branchChars, initOffset, initChars, init)
  }

  /** Step 3 onwards: the span from `current` up to the init window is copied back. */
  function GapStage(img2: seq<byte>, current: int, initOffset: int, initChars: int, init: Decoded): Rewritten
  {
    match CopyBack(img2, current, initOffset - current)
    case None => Rewritten(false, img2)
    case Some(img3) => InitStage(img3, initOffset, initChars, init)
  }

  /** Step 4 onwards: the init bytes are written, then `current` moves past the init text. */
  function InitStage(img3: seq<byte>, initOffset: int, initChars: int, init: Decoded): Rewritten
  {
    match Splice(img3, initOffset, init)
    case None => Rewritten(false, img3)
    case Some(img4) => TailStage(img4, initOffset + initChars)
  }

  /** Step 5: the rest of the image, from `current` to the end, is copied back. */
  function TailStage(img4: seq<byte>, current: int): Rewritten
  {
    match CopyBack(img4, current, -1)
    case None => Rewritten(false, img4)
    case Some(img5) => Rewritten(true, img5)
  }

  /** The rewrite of `arm9expand`: each string decoded with its own length as `size`. */
  function Rewrite(image: seq<byte>, branchOffset: int, branchString: string,
                   initOffset: int, initString: string): Rewritten
  {
    RewritePass(image, branchOffset, |branchString|, HexDecode(branchString, |branchString|),
                initOffset, |initString|, HexDecode(initString, |initString|))
  }

  /**
   * A completed pass had two decoded buffers, found both windows inside
   * the image, and changed the image by exactly the two overwrites.
   */
  lemma PassIsTwoOverwrites(image: seq<byte>, branchOffset: int, branchChars: int, branch: Decoded,
                            initOffset: int, initChars: int, init: Decoded)
    requires RewritePass(image, branchOffset, branchChars, branch, initOffset, initChars, init).ok
    ensures branch.Bytes? && init.Bytes?
    ensures && 0 <= branchOffset && branchOffset + |branch.bytes| <= |image|
            && 0 <= initOffset && initOffset + |init.bytes| <= |image|
    ensures RewritePass(image, branchOffset, branchChars, branch, initOffset, initChars, init).image
         == Overwrite(Overwrite(image, branchOffset, branch.bytes), initOffset, init.bytes)
  {
    CopyBackIsIdentity(image, 0, branchOffset);
    var img2 := Overwrite(image, branchOffset, branch.bytes);
    var current := branchOffset + branchChars;
    CopyBackIsIdentity(img2, current, initOffset - current);
    var img4 := Overwrite(img2, initOffset, init.bytes);
    CopyBackIsIdentity(img4, initOffset + initChars, -1);
  }

  /** The failure half of the pass, see RewriteFailureIsPartial. */
  lemma PassFailureIsPartial(image: seq<byte>, branchOffset: int, branchChars: int, branch: Decoded,
                             initOffset: int, initChars: int, init: Decoded)
    requires 0 <= initChars
    requires !RewritePass(image, branchOffset, branchChars, branch, initOffset, initChars, init).ok
    ensures var r := RewritePass(image, branchOffset, branchChars, branch, initOffset, initChars, init).image;
      || r == image
      || (&& branch.Bytes? && 0 <= branchOffset && branchOffset + |branch.bytes| <= |image|
          && var img2 := Overwrite(image, branchOffset, branch.bytes);
          || r == img2
          || (&& init.Bytes? && 0 <= initOffset && initOffset + |init.bytes| <= |image|
              && initOffset + initChars > |image|
              && r == Overwrite(img2, initOffset, init.bytes)))
  {
    CopyBackIsIdentity(image, 0, branchOffset);
    if CopyBack(image, 0, branchOffset).Some? {
      assert CopyBack(image, 0, branchOffset) == Some(image);
      BranchStageFailure(image, branchOffset, branchChars, branch, initOffset, initChars, init);
    }
  }

  /** `PassFailureIsPartial` from step 2 on. */
  lemma BranchStageFailure(img1: seq<byte>, branchOffset: int, branchChars: int, branch: Decoded,
                           initOffset: int, initChars: int, init: Decoded)
    requires 0 <= initChars
    requires !BranchStage(img1, branchOffset, branchChars, branch, initOffset, initChars, init).ok
    ensures var r := BranchStage(img1, branchOffset, branchChars, branch, initOffset, initChars, init).image;
      || r == img1
      || (&& branch.Bytes? && 0 <= branchOffset && branchOffset + |branch.bytes| <= |img1|
          && var img2 := Overwrite(img1, branchOffset, branch.bytes);
          || r == img2
          || (&& init.Bytes? && 0 <= initOffset && initOffset + |init.bytes| <= |img1|
              && initOffset + initChars > |img1|
              && r == Overwrite(img2, initOffset, init.bytes)))
  {
    if Splice(img1, branchOffset, branch).Some? {
      var img2 := Overwrite(img1, branchOffset, branch.bytes);
      assert Splice(img1, branchOffset, branch) == Some(img2);
      GapStageFailure(img2, branchOffset + branchChars, initOffset, initChars, init);
    }
  }

  /** `PassFailureIsPartial` from step 3 on. */
  lemma GapStageFailure(img2: seq<byte>, current: int, initOffset: int, initChars: int, init: Decoded)
    requires 0 <= initChars
    requires !GapStage(img2, current, initOffset, initChars, init).ok
    ensures var r := GapStage(img2, current, initOffset, initChars, init).image;
      || r == img2
      || (&& init.Bytes? && 0 <= initOffset && initOffset + |init.bytes| <= |img2|
          && initOffset + initChars > |img2|
          && r == Overwrite(img2, initOffset, init.bytes))
  {
    CopyBackIsIdentity(img2, current, initOffset - current);
    if CopyBack(img2, current, initOffset - current).Some? {
      assert CopyBack(img2, current, initOffset - current) == Some(img2);
      InitStageFailure(img2, initOffset, initChars, init);
    }
  }

  /** `PassFailureIsPartial` from step 4 on: once the init bytes are in, only the tail can fail. */
  lemma InitStageFailure(img3: seq<byte>, initOffset: int, initChars: int, init: Decoded)
    requires 0 <= initChars
    requires !InitStage(img3, initOffset, initChars, init).ok
    ensures var r := InitStage(img3, initOffset, initChars, init).image;
      || r == img3
      || (&& init.Bytes? && 0 <= initOffset && initOffset + |init.bytes| <= |img3|
          && initOffset + initChars > |img3|
          && r == Overwrite(img3, initOffset, init.bytes))
  {
    if Splice(img3, initOffset, init).Some? {
      var img4 := Overwrite(img3, initOffset, init.bytes);
      assert Splice(img3, initOffset, init) == Some(img4);
      assert CopyBack(img4, initOffset + initChars, -1).None?;
    }
  }

  /**
   * A completed rewrite decoded both strings, found both windows inside
   * the image, and changed the image by exactly the two overwrites.
   */
  lemma RewriteIsTwoOverwrites(image: seq<byte>, branchOffset: int, branchString: string,
                               initOffset: int, initString: string)
    requires Rewrite(image, branchOffset, branchString, initOffset, initString).ok
    ensures HexDecode(branchString, |branchString|).Bytes?
    ensures HexDecode(initString, |initString|).Bytes?
    ensures var branch := HexDecode(branchString, |branchString|).bytes;
            var init := HexDecode(initString, |initString|).bytes;
      && 0 <= branchOffset && branchOffset + |branch| <= |image|
      && 0 <= initOffset && initOffset + |init| <= |image|
      && Rewrite(image, branchOffset, branchString, initOffset, initString).image
         == Overwrite(Overwrite(image, branchOffset, branch), initOffset, init)
  {
    PassIsTwoOverwrites(image, branchOffset, |branchString|, HexDecode(branchString, |branchString|),
                        initOffset, |initString|, HexDecode(initString, |initString|));
  }

  /**
   * A failed rewrite leaves the original image, or the image with only
   * the branch window written, or (only when the init TEXT runs past the
   * end of the image, so that the final copy cannot start) the image with
   * both windows written.
   */
  lemma RewriteFailureIsPartial(image: seq<byte>, branchOffset: int, branchString: string,
                                initOffset: int, initString: string)
    requires !Rewrite(image, branchOffset, branchString, initOffset, initString).ok
    ensures var r := Rewrite(image, branchOffset, branchString, initOffset, initString).image;
            var branch := HexDecode(branchString, |branchString|);
            var init := HexDecode(initString, |initString|);
      || r == image
      || (&& branch.Bytes? && 0 <= branchOffset && branchOffset + |branch.bytes| <= |image|
          && var img2 := Overwrite(image, branchOffset, branch.bytes);
          || r == img2
          || (&& init.Bytes? && 0 <= initOffset && initOffset + |init.bytes| <= |image|
              && initOffset + |initString| > |image|
              && r == Overwrite(img2, initOffset, init.bytes)))
  {
    PassFailureIsPartial(image, branchOffset, |branchString|, HexDecode(branchString, |branchString|),
                         initOffset, |initString|, HexDecode(initString, |initString|));
  }

  /**
   * With the branch text ending before the init window and the init text
   * inside the image, a rewrite of two decodable strings completes.
   */
  lemma RewriteSucceeds(image: seq<byte>, branchOffset: int, branchString: string,
                        initOffset: int, initString: string)
    requires 0 <= branchOffset && branchOffset + |branchString| <= initOffset
    requires initOffset + |initString| <= |image|
    requires HexDecode(branchString, |branchString|).Bytes?
    requires HexDecode(initString, |initString|).Bytes?
    ensures Rewrite(image, branchOffset, branchString, initOffset, initString).ok
  {
    DecodedLength(branchString, |branchString|);
    DecodedLength(initString, |initString|);
    PassSucceeds(image, branchOffset, |branchString|, HexDecode(branchString, |branchString|),
                 initOffset, |initString|, HexDecode(initString, |initString|));
  }

  /** The pass completes when every read and write it makes lies inside the image. */
  lemma PassSucceeds(image: seq<byte>, branchOffset: int, branchChars: int, branch: Decoded,
                     initOffset: int, initChars: int, init: Decoded)
    requires branch.Bytes? && init.Bytes?
    requires 0 <= branchOffset && branchOffset + |branch.bytes| <= |image|
    requires 0 <= branchChars && 0 <= initChars && branchOffset + branchChars <= initOffset
    requires initOffset + |init.bytes| <= |image| && initOffset + initChars <= |image|
    ensures RewritePass(image, branchOffset, branchChars, branch, initOffset, initChars, init).ok
  {
    var img2 := Overwrite(image, branchOffset, branch.bytes);
    var img4 := Overwrite(img2, initOffset, init.bytes);
    assert CopyBack(image, 0, branchOffset) == Some(image) by {
      CopyBackIsIdentity(image, 0, branchOffset);
    }
    var current := branchOffset + branchChars;
    assert CopyBack(img2, current, initOffset - current) == Some(img2) by {
      CopyBackIsIdentity(img2, current, initOffset - current);
    }
    assert CopyBack(img4, initOffset + initChars, -1) == Some(img4) by {
      CopyBackIsIdentity(img4, initOffset + initChars, -1);
    }
  }

  /**
   * The frame property: after a completed rewrite whose branch text ends
   * before the init window, the image has its old length, holds the
   * decoded branch bytes at the branch offset and the decoded init bytes
   * at the init offset, and every other byte is the original.
   */
  lemma RewriteFrame(image: seq<byte>, branchOffset: int, branchString: string,
                     initOffset: int, initString: string)
    requires Rewrite(image, branchOffset, branchString, initOffset, initString).ok
    requires branchOffset + |branchString| <= initOffset
    ensures HexDecode(branchString, |branchString|).Bytes?
    ensures HexDecode(initString, |initString|).Bytes?
    ensures var r := Rewrite(image, branchOffset, branchString, initOffset, initString).image;
            var branch := HexDecode(branchString, |branchString|).bytes;
            var init := HexDecode(initString, |initString|).bytes;
      && |r| == |image|
      && 0 <= branchOffset && branchOffset + |branch| <= initOffset && initOffset + |init| <= |r|
      && r[branchOffset..branchOffset + |branch|] == branch
      && r[initOffset..initOffset + |init|] == init
      && forall k :: 0 <= k < |image| && OutsideWindows(k, branchOffset, |branch|, initOffset, |init|)
                     ==> r[k] == image[k]
  {
    RewriteIsTwoOverwrites(image, branchOffset, branchString, initOffset, initString);
    DecodedLength(branchString, |branchString|);
    var branch := HexDecode(branchString, |branchString|).bytes;
    var init := HexDecode(initString, |initString|).bytes;
    WindowsOfTwoOverwrites(image, branchOffset, branch, initOffset, init);
  }

  /** Two overwrites of disjoint windows, the first before the second. */
  lemma WindowsOfTwoOverwrites(image: seq<byte>, offset1: int, data1: seq<byte>, offset2: int, data2: seq<byte>)
    requires 0 <= offset1 && offset1 + |data1| <= offset2 && offset2 + |data2| <= |image|
    ensures var r := Overwrite(Overwrite(image, offset1, data1), offset2, data2);
      && r[offset1..offset1 + |data1|] == data1
      && r[offset2..offset2 + |data2|] == data2
      && forall k :: 0 <= k < |image| && OutsideWindows(k, offset1, |data1|, offset2, |data2|)
                     ==> r[k] == image[k]
  {
    var img := Overwrite(image, offset1, data1);
    var r := Overwrite(img, offset2, data2);
    assert r[offset1..offset1 + |data1|] == img[offset1..offset1 + |data1|];
  }
}
