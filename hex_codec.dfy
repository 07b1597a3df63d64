/**
 * The hexadecimal decoder of the ROM toolbox (`hexStringtoByteArray`),
 * modelled as written: it trims the text, rejects it when the trimmed
 * length is even or longer than three characters per declared byte,
 * allocates `size / 3 + 1` bytes, and walks the text two characters at a
 * time, dropping the FIRST character of the text whenever it meets a
 * space. For the table's "XX XX ... XX" strings that keeps every pair in
 * step with the index.
 */
module HexCodec {
  import opened Base

  /** What the decoder hands back: `null`, an exception, or the filled buffer. */
  datatype Decoded =
    | Rejected              // the method returns null
    | Faulted               // an exception escapes (bad digit, substring or index out of range)
    | Bytes(bytes: seq<byte>)

  // ---------------------------------------------------------------------
  // String.Trim

  /** The characters `char.IsWhiteSpace` accepts, which `String.Trim()` removes. */
  predicate IsWhiteSpace(c: char)
  {
    || c == ' '
    || ('\t' <= c <= '\r')
    || c == '\U{0085}' || c == '\U{00A0}' || c == '\U{1680}'
    || ('\U{2000}' <= c <= '\U{200A}')
    || c == '\U{2028}' || c == '\U{2029}' || c == '\U{202F}'
    || c == '\U{205F}' || c == '\U{3000}'
  }

  /** `s` with its leading white space removed. */
  function TrimStart(s: string): (r: string)
    ensures |r| <= |s| && r == s[|s| - |r|..]
    ensures forall k :: 0 <= k < |s| - |r| ==> IsWhiteSpace(s[k])
    ensures r == [] || !IsWhiteSpace(r[0])
  {
    if |s| > 0 && IsWhiteSpace(s[0]) then
      var r := TrimStart(s[1..]);
      assert s[1..][|s[1..]| - |r|..] == s[|s| - |r|..];
      r
    else s
  }

  /** `s` with its trailing white space removed. */
  function TrimEnd(s: string): (r: string)
    ensures |r| <= |s| && r == s[..|r|]
    ensures forall k :: |r| <= k < |s| ==> IsWhiteSpace(s[k])
    ensures r == [] || !IsWhiteSpace(r[|r| - 1])
  {
    if |s| > 0 && IsWhiteSpace(s[|s| - 1]) then
      var r := TrimEnd(s[..|s| - 1]);
      assert s[..|s| - 1][..|r|] == s[..|r|];
      r
    else s
  }

  /** `String.Trim()`: white space removed from both ends. */
  function Trim(s: string): (r: string)
    ensures |r| <= |s|
    ensures r == [] || (!IsWhiteSpace(r[0]) && !IsWhiteSpace(r[|r| - 1]))
  {
    TrimEnd(TrimStart(s))
  }

  /**
   * What `Trim` removes: its result is a span of the input with nothing
   * but white space before and after it.
   */
  lemma TrimRemovesOnlyWhiteSpace(s: string)
    ensures exists i :: SurroundedByWhiteSpace(s, i, Trim(s))
  {
    var t := TrimStart(s);
    assert Trim(s) == TrimEnd(t);
    SuffixOfPrefix(s, t, TrimEnd(t));
  }

  /** Trimming the end of what is left after trimming the start leaves a span surrounded by white space. */
  lemma SuffixOfPrefix(s: string, t: string, r: string)
    requires |t| <= |s| && t == s[|s| - |t|..]
    requires forall k :: 0 <= k < |s| - |t| ==> IsWhiteSpace(s[k])
    requires |r| <= |t| && r == t[..|r|]
    requires forall k :: |r| <= k < |t| ==> IsWhiteSpace(t[k])
    ensures SurroundedByWhiteSpace(s, |s| - |t|, r)
  {
    var i := |s| - |t|;
    assert r == s[i..i + |r|];
    forall k | i + |r| <= k < |s|
      ensures IsWhiteSpace(s[k])
    {
      assert s[k] == t[k - i];
    }
  }

  /** `r` sits in `s` at index `i`, with nothing but white space before and after it. */
  predicate SurroundedByWhiteSpace(s: string, i: int, r: string)
  {
    && 0 <= i <= |s| - |r| && r == s[i..i + |r|]
    && (forall k :: 0 <= k < i ==> IsWhiteSpace(s[k]))
    && (forall k :: i + |r| <= k < |s| ==> IsWhiteSpace(s[k]))
  }

  /** A text that neither starts nor ends with white space is its own trim. */
  lemma {:induction false} TrimUnchanged(s: string)
    requires s == [] || (!IsWhiteSpace(s[0]) && !IsWhiteSpace(s[|s| - 1]))
    ensures Trim(s) == s
  {
    assert TrimStart(s) == s;
  }

  // ---------------------------------------------------------------------
  // Convert.ToByte(text, 16) on a two-character text

  /** The base-16 digits, by value, in each case. */
  const UpperDigits: string := "0123456789ABCDEF"
  const LowerDigits: string := "0123456789abcdef"

  /** The value of one base-16 digit, either case; `None` for any other character. */
  function HexValue(c: char): (r: Option<int>)
    ensures r.Some? ==> 0 <= r.value < 16
  {
    if '0' <= c <= '9' then Some(c as int - '0' as int)
    else if 'a' <= c <= 'f' then Some(c as int - 'a' as int + 10)
    else if 'A' <= c <= 'F' then Some(c as int - 'A' as int + 10)
    else None
  }

  /**
   * `HexValue` agrees with the digit tables: a character has a value
   * exactly when it is a digit of either case, and the value is its
   * position in the table.
   */
  lemma HexValueMatchesTables(c: char)
    ensures HexValue(c).Some? <==> c in UpperDigits || c in LowerDigits
    ensures HexValue(c).Some? ==>
      UpperDigits[HexValue(c).value] == c || LowerDigits[HexValue(c).value] == c
  {
  }

  /**
   * `Convert.ToByte(text, 16)` for a text of exactly two characters: two
   * digits, or a `+` sign and one digit; anything else throws (`None`).
   */
  function ParseHexByte(c0: char, c1: char): Option<byte>
  {
    match (HexValue(c0), HexValue(c1))
    case (Some(hi), Some(lo)) => Some((16 * hi + lo) as byte)
    case (None, Some(lo)) => if c0 == '+' then Some(lo as byte) else None
    case _ => None
  }

  /** `c` is the digit for `d` in one of the two tables. */
  predicate IsDigitOf(c: char, d: int)
  {
    0 <= d < 16 && (c == UpperDigits[d] || c == LowerDigits[d])
  }

  /**
   * What `Convert.ToByte(c0 c1, 16)` accepts: two digits of either case
   * give the byte with those high and low digits, and a `+` sign before
   * one digit gives a byte below 16; nothing else parses.
   */
  lemma ParseHexByteMeaning(c0: char, c1: char, b: byte)
    ensures ParseHexByte(c0, c1) == Some(b) <==>
      IsDigitOf(c1, b as int % 16) && (IsDigitOf(c0, b as int / 16) || (c0 == '+' && b < 16))
  {
    var n := b as int;
    DigitOfValue(c0, n / 16);
    DigitOfValue(c1, n % 16);
    match (HexValue(c0), HexValue(c1))
    case (Some(hi), Some(lo)) =>
      DigitPair(hi, lo, n);
    case (None, Some(lo)) =>
    case _ =>
  }

  /** Two digits make the byte n exactly when they are n's high and low digits. */
  lemma DigitPair(hi: int, lo: int, n: int)
    requires 0 <= hi < 16 && 0 <= lo < 16 && 0 <= n < 256
    ensures 16 * hi + lo == n <==> hi == n / 16 && lo == n % 16
  {
  }

  /** Being the table's digit for d is having the value d. */
  lemma DigitOfValue(c: char, d: int)
    ensures IsDigitOf(c, d) <==> HexValue(c) == Some(d)
  {
  }

  /** The upper-case digit for a value below 16. */
  function HexDigit(d: int): (c: char)
    requires 0 <= d < 16
    ensures HexValue(c) == Some(d)
    ensures !IsWhiteSpace(c) && c != ' ' && c != '+'
  {
    if d < 10 then ('0' as int + d) as char else ('A' as int + d - 10) as char
  }

  /** A byte written as two upper-case digits parses back to that byte. */
  lemma ParseHexByteOfDigits(b: byte)
    ensures ParseHexByte(HexDigit(b as int / 16), HexDigit(b as int % 16)) == Some(b)
  {
  }

  // ---------------------------------------------------------------------
  // The decoder

  /**
   * The decoding loop from index `i` on, over the current text `s` and
   * the buffer `b`. The loop test reads the CURRENT (shortened) text.
   */
  function DecodeLoop(s: string, i: nat, b: seq<byte>): Decoded
    decreases |s| - i
  {
    if i >= |s| then Bytes(b)
    else
      var s' := if s[i] == ' ' then s[1..] else s;
      if i + 2 > |s'| then Faulted
      else match ParseHexByte(s'[i], s'[i + 1])
        case None => Faulted
        case Some(v) => if i / 2 < |b| then DecodeLoop(s', i + 2, b[i / 2 := v]) else Faulted
  }

  /** `hexStringtoByteArray(hexString, size)`. */
  function HexDecode(hexString: string, size: int): Decoded
  {
    var s := Trim(hexString);
    if (|s| + 1) % 2 != 0 then Rejected
    else if |s| > size * 3 then Rejected
    else DecodeLoop(s, 0, Zeros(size / 3 + 1))
  }

  /** The imperative decoder: a loop that shortens the text and fills `b` in place. */
  method HexStringToByteArray(hexString: string, size: int) returns (r: Decoded)
    ensures r == HexDecode(hexString, size)
  {
    var s := Trim(hexString);
    if (|s| + 1) % 2 != 0 {
      return Rejected;
    }
    if |s| > size * 3 {
      return Rejected;
    }
    var b := new byte[size / 3 + 1](_ => 0);
    assert b[..] == Zeros(size / 3 + 1);
    var i: nat := 0;
    while i < |s|
      invariant DecodeLoop(s, i, b[..]) == HexDecode(hexString, size)
      decreases |s| - i
    {
      if s[i] == ' ' {
        s := s[1..];
      }
      if i + 2 > |s| {
        return Faulted;
      }
      var v := ParseHexByte(s[i], s[i + 1]);
      if v.None? || i / 2 >= b.Length {
        return Faulted;
      }
      b[i / 2] := v.value;
      i := i + 2;
    }
    return Bytes(b[..]);
  }

  // ---------------------------------------------------------------------
  // What the decoder promises

  /** One turn of the loop where the next character is a digit: pair i is decoded in place. */
  lemma DecodeLoopPairTurn(s: string, i: nat, b: seq<byte>, v: byte)
    requires i + 2 <= |s| && s[i] != ' ' && i / 2 < |b|
    requires ParseHexByte(s[i], s[i + 1]) == Some(v)
    ensures DecodeLoop(s, i, b) == DecodeLoop(s, i + 2, b[i / 2 := v])
  {
  }

  /**
   * One turn of the loop where the next character is a space: the text
   * loses its FIRST character and the pair after the space is decoded.
   */
  lemma DecodeLoopSpaceTurn(s: string, i: nat, b: seq<byte>, v: byte, s': string, i': nat, b': seq<byte>)
    requires i + 3 <= |s| && s[i] == ' ' && i / 2 < |b|
    requires ParseHexByte(s[i + 1], s[i + 2]) == Some(v)
    requires s' == s[1..] && i' == i + 2 && b' == b[i / 2 := v]
    ensures DecodeLoop(s, i, b) == DecodeLoop(s', i', b')
  {
    assert s[1..][i] == s[i + 1] && s[1..][i + 1] == s[i + 2];
  }

  /**
   * A trimmed text of odd length, decoded with its own length as `size`,
   * passes both up-front checks and is what the loop makes of it.
   */
  lemma HexDecodeOfTrimmed(t: string, n: nat, r: Decoded)
    requires Trim(t) == t && (|t| + 1) % 2 == 0 && |t| / 3 + 1 == n
    requires DecodeLoop(t, 0, Zeros(n)) == r
    ensures HexDecode(t, |t|) == r
  {
  }

  /** The loop itself never returns null; only the two up-front checks do. */
  lemma {:induction false} DecodeLoopNeverRejects(s: string, i: nat, b: seq<byte>)
    ensures DecodeLoop(s, i, b) != Rejected
    decreases |s| - i
  {
    if i < |s| {
      var s' := if s[i] == ' ' then s[1..] else s;
      if i + 2 <= |s'| && ParseHexByte(s'[i], s'[i + 1]).Some? && i / 2 < |b| {
        DecodeLoopNeverRejects(s', i + 2, b[i / 2 := ParseHexByte(s'[i], s'[i + 1]).value]);
      }
    }
  }

  /** The loop only overwrites elements: the buffer keeps its length. */
  lemma {:induction false} DecodeLoopKeepsLength(s: string, i: nat, b: seq<byte>)
    ensures DecodeLoop(s, i, b).Bytes? ==> |DecodeLoop(s, i, b).bytes| == |b|
    decreases |s| - i
  {
    if i < |s| {
      var s' := if s[i] == ' ' then s[1..] else s;
      if i + 2 <= |s'| && ParseHexByte(s'[i], s'[i + 1]).Some? && i / 2 < |b| {
        DecodeLoopKeepsLength(s', i + 2, b[i / 2 := ParseHexByte(s'[i], s'[i + 1]).value]);
      }
    }
  }

  /** null comes back exactly when the trimmed text has even length or is too long. */
  lemma {:induction false} RejectedExactly(hexString: string, size: int)
    ensures HexDecode(hexString, size) == Rejected
        <==> |Trim(hexString)| % 2 == 0 || |Trim(hexString)| > size * 3
  {
    var s := Trim(hexString);
    OddSuccessorOfEven(|s|);
    if (|s| + 1) % 2 == 0 && |s| <= size * 3 {
      DecodeLoopNeverRejects(s, 0, Zeros(size / 3 + 1));
    }
  }

  lemma OddSuccessorOfEven(n: nat)
    ensures (n + 1) % 2 != 0 <==> n % 2 == 0
  {
  }

  /**
   * Called as the toolbox calls it, with `size` the text's own length,
   * the length check never fires: only an even trimmed length gives null.
   */
  lemma {:induction false} RejectedAtOwnLength(hexString: string)
    ensures HexDecode(hexString, |hexString|) == Rejected <==> |Trim(hexString)| % 2 == 0
  {
    RejectedExactly(hexString, |hexString|);
  }

  /**
   * A decoded buffer always has `size / 3 + 1` bytes, whatever the text
   * holds; with `size` the text's length that is the count the
   * confirmation prompt announces, and it never exceeds the text's length.
   */
  lemma {:induction false} DecodedLength(hexString: string, size: int)
    requires HexDecode(hexString, size).Bytes?
    ensures size >= 1
    ensures |HexDecode(hexString, size).bytes| == size / 3 + 1
    ensures size <= |hexString| ==> |HexDecode(hexString, size).bytes| <= |hexString|
  {
    var s := Trim(hexString);
    assert (|s| + 1) % 2 == 0 && |s| <= size * 3;
    DecodeLoopKeepsLength(s, 0, Zeros(size / 3 + 1));
  }

  // ---------------------------------------------------------------------
  // The table's "XX XX ... XX" format

  /** A byte as two upper-case digits. */
  function HexPair(b: byte): string
  {
    [HexDigit(b as int / 16), HexDigit(b as int % 16)]
  }

  /** Bytes written as upper-case pairs separated by single spaces. */
  function EncodeSpaced(bs: seq<byte>): (t: string)
    ensures |t| == if bs == [] then 0 else 3 * |bs| - 1
  {
    if bs == [] then []
    else if |bs| == 1 then HexPair(bs[0])
    else HexPair(bs[0]) + [' '] + EncodeSpaced(bs[1..])
  }

  /** Character positions of the spaced format: pair j at 3j, a space at 3j+2. */
  lemma {:induction false} EncodeSpacedAt(bs: seq<byte>, j: nat)
    requires j < |bs|
    ensures 3 * j + 1 < |EncodeSpaced(bs)|
    ensures EncodeSpaced(bs)[3 * j] == HexDigit(bs[j] as int / 16)
    ensures EncodeSpaced(bs)[3 * j + 1] == HexDigit(bs[j] as int % 16)
    ensures j + 1 < |bs| ==> EncodeSpaced(bs)[3 * j + 2] == ' '
  {
    if j > 0 {
      EncodeSpacedAt(bs[1..], j - 1);
      assert EncodeSpaced(bs) == HexPair(bs[0]) + [' '] + EncodeSpaced(bs[1..]);
    }
  }

  /**
   * The loop on a spaced text after k pairs: the text has lost its first
   * k-1 characters, the index is 2k, and the first k bytes are in place.
   */
  lemma {:induction false} DecodeLoopOnSpaced(bs: seq<byte>, k: nat, b: seq<byte>)
    requires 1 <= k <= |bs|
    requires |b| == |bs| && b[..k] == bs[..k]
    ensures DecodeLoop(EncodeSpaced(bs)[k - 1..], 2 * k, b) == Bytes(bs)
    decreases |bs| - k
  {
    if k == |bs| {
      DecodeLoopSpacedDone(bs, b);
    } else {
      var b' := b[k := bs[k]];
      PrefixGrows(bs, k, b);
      DecodeLoopSpacedStep(bs, k, b);
      DecodeLoopOnSpaced(bs, k + 1, b');
    }
  }

  /** Writing byte k of `bs` into a buffer that agrees with `bs` below k extends the agreement. */
  lemma PrefixGrows(bs: seq<byte>, k: nat, b: seq<byte>)
    requires k < |bs| && |b| == |bs| && b[..k] == bs[..k]
    ensures |b[k := bs[k]]| == |bs| && b[k := bs[k]][..k + 1] == bs[..k + 1]
  {
    assert forall i :: 0 <= i < k ==> b[i] == b[..k][i];
  }

  /** After the last pair the index has reached the end of the shortened text. */
  lemma DecodeLoopSpacedDone(bs: seq<byte>, b: seq<byte>)
    requires 1 <= |bs| && b == bs[..|bs|]
    ensures DecodeLoop(EncodeSpaced(bs)[|bs| - 1..], 2 * |bs|, b) == Bytes(bs)
  {
    var t := EncodeSpaced(bs)[|bs| - 1..];
    assert |t| == 2 * |bs|;
    assert b == bs;
  }

  /** One turn of the loop on a spaced text: skip the space, decode pair k. */
  lemma DecodeLoopSpacedStep(bs: seq<byte>, k: nat, b: seq<byte>)
    requires 1 <= k < |bs| && |b| == |bs|
    ensures DecodeLoop(EncodeSpaced(bs)[k - 1..], 2 * k, b)
         == DecodeLoop(EncodeSpaced(bs)[(k + 1) - 1..], 2 * (k + 1), b[k := bs[k]])
  {
    var t := EncodeSpaced(bs);
    var s, s' := t[k - 1..], t[(k + 1) - 1..];
    var v := bs[k];
    assert 2 * k + 3 <= |s| && s[2 * k] == ' '
        && s[2 * k + 1] == HexDigit(v as int / 16) && s[2 * k + 2] == HexDigit(v as int % 16) by {
      SpacedCharsAfterDrop(bs, k);
    }
    assert ParseHexByte(s[2 * k + 1], s[2 * k + 2]) == Some(v) by {
      ParseHexByteOfDigits(v);
    }
    assert s' == s[1..];
    assert (2 * k) / 2 == k;
    DecodeLoopSpaceTurn(s, 2 * k, b, v, s', 2 * (k + 1), b[k := v]);
  }

  /** The spaced text without its first k-1 characters: a space at 2k, then pair k. */
  lemma SpacedCharsAfterDrop(bs: seq<byte>, k: nat)
    requires 1 <= k < |bs|
    ensures var s := EncodeSpaced(bs)[k - 1..];
      && |s| == 3 * |bs| - k
      && s[2 * k] == ' '
      && s[2 * k + 1] == HexDigit(bs[k] as int / 16)
      && s[2 * k + 2] == HexDigit(bs[k] as int % 16)
  {
    var t := EncodeSpaced(bs);
    EncodeSpacedAt(bs, k - 1);
    EncodeSpacedAt(bs, k);
    assert t[k - 1..][2 * k] == t[3 * k - 1];
    assert t[k - 1..][2 * k + 1] == t[3 * k];
    assert t[k - 1..][2 * k + 2] == t[3 * k + 1];
  }

  /**
   * Round trip on the table's format: a spaced text of n bytes, decoded
   * with its own length as `size`, gives back exactly those n bytes when
   * n is even and positive; for odd n the text has even length and the
   * decoder returns null.
   */
  lemma {:induction false} DecodeSpaced(bs: seq<byte>)
    ensures HexDecode(EncodeSpaced(bs), |EncodeSpaced(bs)|)
         == if bs != [] && |bs| % 2 == 0 then Bytes(bs) else Rejected
  {
    if bs == [] {
      assert Trim(EncodeSpaced(bs)) == [];
    } else if |bs| % 2 == 0 {
      DecodeSpacedEven(bs);
    } else {
      SpacedIsTrimmed(bs);
      SpacedLengthArithmetic(|bs|);
    }
  }

  /** An even, non-empty count of spaced pairs passes both checks and the loop decodes it. */
  lemma DecodeSpacedEven(bs: seq<byte>)
    requires bs != [] && |bs| % 2 == 0
    ensures HexDecode(EncodeSpaced(bs), |EncodeSpaced(bs)|) == Bytes(bs)
  {
    var t := EncodeSpaced(bs);
    SpacedIsTrimmed(bs);
    SpacedLengthArithmetic(|bs|);
    assert (|t| + 1) % 2 == 0 && |t| / 3 + 1 == |bs|;
    DecodeLoopSpacedFirst(bs);
    HexDecodeOfTrimmed(t, |bs|, Bytes(bs));
  }

  /** A spaced text starts and ends with a digit, so trimming leaves it alone. */
  lemma SpacedIsTrimmed(bs: seq<byte>)
    requires bs != []
    ensures Trim(EncodeSpaced(bs)) == EncodeSpaced(bs)
  {
    var t := EncodeSpaced(bs);
    EncodeSpacedAt(bs, 0);
    EncodeSpacedAt(bs, |bs| - 1);
    assert t[0] == HexDigit(bs[0] as int / 16);
    assert t[|t| - 1] == HexDigit(bs[|bs| - 1] as int % 16);
    TrimUnchanged(t);
  }

  /** For the length 3n-1 of n spaced pairs: the parity test and the buffer size. */
  lemma SpacedLengthArithmetic(n: nat)
    requires n >= 1
    ensures ((3 * n - 1) + 1) % 2 == 0 <==> n % 2 == 0
    ensures (3 * n - 1) / 3 + 1 == n
  {
  }

  /** The first turn of the loop (nothing dropped yet) hands over to DecodeLoopOnSpaced. */
  lemma DecodeLoopSpacedFirst(bs: seq<byte>)
    requires bs != []
    ensures DecodeLoop(EncodeSpaced(bs), 0, Zeros(|bs|)) == Bytes(bs)
  {
    var t := EncodeSpaced(bs);
    EncodeSpacedAt(bs, 0);
    ParseHexByteOfDigits(bs[0]);
    var z := Zeros(|bs|);
    DecodeLoopPairTurn(t, 0, z, bs[0]);
    var b := z[0 := bs[0]];
    assert b[..1] == bs[..1];
    DecodeLoopOnSpaced(bs, 1, b);
    assert t[1 - 1..] == t;
  }
}
