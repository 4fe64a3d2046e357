/**
 Decoding the return data of name(), symbol() and decimals(): a dynamic ABI string, its older
 bytes32 form, and a small number. `Thrown` stands for every exception of the source.
 */
module TokenMetadata {
  import opened Wrappers
  import opened Text
  import opened Abi

  // ---- the accepted text ----

  predicate Printable(b: Byte) {
    b >= 32 && b != 127
  }

  ghost predicate AllPrintable(bs: seq<Byte>) {
    forall i :: 0 <= i < |bs| ==> Printable(bs[i])
  }

  predicate Continues(b: Byte) {
    0x80 <= b <= 0xBF
  }

  /** A three-byte sequence of section 4 of RFC 3629: no overlong form, no surrogate. */
  predicate Three(a: Byte, b: Byte, c: Byte) {
    0xE0 <= a <= 0xEF && Continues(b) && Continues(c) && (a == 0xE0 ==> b >= 0xA0) && (a == 0xED ==> b <= 0x9F)
  }

  /** A four-byte sequence of section 4 of RFC 3629: nothing overlong, nothing past U+10FFFF. */
  predicate Four(a: Byte, b: Byte, c: Byte, d: Byte) {
    0xF0 <= a <= 0xF4 && Continues(b) && Continues(c) && Continues(d) && (a == 0xF0 ==>
      b >= 0x90) && (a == 0xF4 ==> b <= 0x8F)
  }

  /** Well-formed UTF-8, which the JSON serialiser insists on. */
  predicate Utf8(s: seq<Byte>) {
    if s == [] then true
    else if s[0] < 0x80 then Utf8(s[1..])
    else if |s| >= 2 && 0xC2 <= s[0] <= 0xDF && Continues(s[1]) then Utf8(s[2..])
    else if |s| >= 3 && Three(s[0], s[1], s[2]) then Utf8(s[3..])
    else if |s| >= 4 && Four(s[0], s[1], s[2], s[3]) then Utf8(s[4..])
    else false
  }

  ghost predicate ValidText(bs: seq<Byte>) {
    bs != [] && AllPrintable(bs) && Utf8(bs)
  }

  // ---- hexadecimal return data ----

  /** The digits of "0x"-prefixed return data of an acceptable size. */
  function Hex(value: string): (r: Option<string>)
    ensures r.Some? ==> AllHex(r.value) && 64 <= |r.value| <= 65536 && |r.value| % 2 == 0
  {
    if |value| < 66 || |value| > 65538 || |value| % 2 != 0 || !StartsWith(value, "0x") || !AllHex(value[2..]) then None
    else Some(value[2..])
  }

  /** A word of at most 32 significant bits. */
  function SizeWord(hex: string, pos: nat): Option<nat>
    requires AllHex(hex)
  {
    if pos > |hex| || |hex| - pos < 64 || !AllZeros(hex[pos..pos + 56]) then None
    else Some(HexValue(hex[pos + 56..pos + 64]))
  }

  function ByteAt(hex: string, pos: nat): Byte
    requires AllHex(hex) && pos + 2 <= |hex|
  {
    HexBound(hex[pos..pos + 2]);
    TwoDigits();
    HexValue(hex[pos..pos + 2])
  }

  function BytesAt(hex: string, start: nat, n: nat): (bs: seq<Byte>)
    requires AllHex(hex) && start + 2 * n <= |hex|
    ensures |bs| == n
  {
    if n == 0 then [] else BytesAt(hex, start, n - 1) + [ByteAt(hex, start + 2 * (n - 1))]
  }

  function UpToZero(bs: seq<Byte>): seq<Byte> {
    if bs == [] || bs[0] == 0 then [] else [bs[0]] + UpToZero(bs[1..])
  }

  /** Where the text of return data lies: one bare word, or a length behind the offset 32. */
  function Extent(hex: string): Option<(nat, nat)>
    requires AllHex(hex)
  {
    if |hex| == 64 then Some((0, 32))
    else if SizeWord(hex, 0) != Some(32) then None
    else
      match SizeWord(hex, 64)
      case None => None
      case Some(length) => if length > 1024 || 128 + length * 2 > |hex| then None else Some((128, length))
  }

  ghost function Checked(bs: seq<Byte>): Outcome<seq<Byte>> {
    if ValidText(bs) then Ok(bs) else Thrown
  }

  ghost function TokenText(value: string): Outcome<seq<Byte>> {
    match Hex(value)
    case None => Thrown
    case Some(hex) =>
      match Extent(hex)
      case None => Thrown
      case Some((start, length)) =>
        var bytes := BytesAt(hex, start, length);
        Checked(if |hex| == 64 then UpToZero(bytes) else bytes)
  }

  lemma {:induction false} UpToZeroIs(bs: seq<Byte>, i: nat)
    requires i <= |bs| && 0 !in bs[..i] && (i < |bs| ==> bs[i] == 0)
    ensures UpToZero(bs) == bs[..i]
  {
    if i > 0 {
      assert bs[..i][0] == bs[0];
      assert bs[1..][..i - 1] == bs[..i][1..];
      UpToZeroIs(bs[1..], i - 1);
      assert bs[..i] == [bs[0]] + bs[1..][..i - 1];
    }
  }

  lemma {:induction false} UpToZeroKeeps(bs: seq<Byte>, i: nat)
    requires i < |bs| && 0 !in bs[..i + 1]
    ensures bs[i] in UpToZero(bs)
  {
    assert bs[..i + 1][0] == bs[0];
    if i > 0 {
      assert bs[1..][..i] == bs[..i + 1][1..];
      UpToZeroKeeps(bs[1..], i - 1);
    }
  }

  lemma {:induction false} BytesAtIndex(hex: string, start: nat, n: nat, i: nat)
    requires AllHex(hex) && start + 2 * n <= |hex| && i < n
    ensures BytesAt(hex, start, n)[i] == ByteAt(hex, start + 2 * i)
    ensures BytesAt(hex, start, n)[..i] == BytesAt(hex, start, i)
  {
    if i < n - 1 {
      BytesAtIndex(hex, start, n - 1, i);
      assert BytesAt(hex, start, n)[..i] == BytesAt(hex, start, n - 1)[..i];
    }
  }

  // ---- the decoders ----

  method ReadText(hex: string, start: nat, length: nat) returns (r: Outcome<seq<Byte>>)
    requires AllHex(hex) && start + 2 * length <= |hex|
    ensures r == var bytes := BytesAt(hex, start, length); Checked(if |hex| == 64 then UpToZero(bytes) else bytes)
  {
    ghost var bytes := BytesAt(hex, start, length);
    var text: seq<Byte> := [];
    var i := 0;
    while i < length
      invariant i <= length && text == bytes[..i]
      invariant AllPrintable(text)
    {
      var c := ByteAt(hex, start + i * 2);
      BytesAtIndex(hex, start, length, i);
      if c == 0 && |hex| == 64 {
        break;
      }
      if c < 32 || c == 127 {
        RejectedByte(bytes, i);
        return Thrown;
      }
      assert bytes[..i + 1] == text + [c];
      text := text + [c];
      i := i + 1;
    }
    assert bytes[..length] == bytes;
    if |hex| == 64 {
      UpToZeroIs(bytes, i);
    }
    if text == [] {
      return Thrown;
    }
    return if Utf8(text) then Ok(text) else Thrown;
  }

  lemma RejectedByte(bytes: seq<Byte>, i: nat)
    requires i < |bytes| && AllPrintable(bytes[..i]) && !Printable(bytes[i])
    ensures !AllPrintable(bytes)
    ensures bytes[i] != 0 ==> !AllPrintable(UpToZero(bytes))
  {
    if bytes[i] != 0 {
      forall j | 0 <= j <= i ensures bytes[j] != 0 {
        assert j < i ==> bytes[..i][j] == bytes[j];
      }
      UpToZeroKeeps(bytes, i);
    }
  }

  method DecodeTokenText(value: string) returns (r: Outcome<seq<Byte>>)
    ensures r == TokenText(value)
  {
    var hex := Hex(value);
    if hex.None? {
      return Thrown;
    }
    var start, length := 0, 32;
    if |hex.value| != 64 {
      if SizeWord(hex.value, 0) != Some(32) {
        return Thrown;
      }
      var size := SizeWord(hex.value, 64);
      if size.None? {
        return Thrown;
      }
      length := size.value;
      start := 128;
      if length > 1024 || start + length * 2 > |hex.value| {
        return Thrown;
      }
    }
    r := ReadText(hex.value, start, length);
  }

  function DecodeTokenDecimals(value: string): Outcome<nat> {
    match Hex(value)
    case None => Thrown
    case Some(hex) =>
      if |hex| != 64 then Thrown else
        match SizeWord(hex, 0)
        case None => Thrown
        case Some(decimals) => if decimals > 255 then Thrown else Ok(decimals)
  }

  // ---- what comes out ----

  /** Only well-formed printable text of 1 to 1024 bytes is ever returned. */
  lemma TextIsValid(value: string)
    requires TokenText(value).Ok?
    ensures ValidText(TokenText(value).value) && |TokenText(value).value| <= 1024
  {
    var hex := Hex(value).value;
    UpToZeroShortens(BytesAt(hex, Extent(hex).value.0, Extent(hex).value.1));
  }

  lemma {:induction false} UpToZeroShortens(bs: seq<Byte>)
    ensures |UpToZero(bs)| <= |bs|
  {
    if bs != [] {
      UpToZeroShortens(bs[1..]);
    }
  }

  /** Decimals are accepted exactly when the data is one word whose value is at most 255. */
  lemma DecimalsExact(value: string, n: nat)
    ensures DecodeTokenDecimals(value) == Ok(n) <==>
      |value| == 66 && StartsWith(value, "0x") && AllHex(value[2..]) && HexValue(value[2..]) == n && n <= 255
  {
    if Hex(value).Some? && |value| == 66 {
      SizeWordExact(Hex(value).value);
    }
  }

  /** A whole word is a SizeWord exactly when it is below 2^32. */
  lemma SizeWordExact(word: string)
    requires |word| == 64 && AllHex(word)
    ensures SizeWord(word, 0) == if HexValue(word) < 0x1_0000_0000 then Some(HexValue(word)) else None
  {
    var hi, lo := word[..56], word[56..64];
    assert word == hi + lo;
    HexConcat(hi, lo);
    HexBound(lo);
    Pow16To8();
    if AllZeros(hi) {
      AllZerosIsZero(hi);
    } else {
      NonZeroDigit(hi);
    }
  }

  lemma Pow16To8()
    ensures Pow(16, 8) == 0x1_0000_0000
  {
    assert Pow(16, 4) == 0x1_0000;
    PowAdds(16, 4, 4);
  }

  lemma {:induction false} NonZeroDigit(s: string)
    requires AllHex(s) && !AllZeros(s)
    ensures HexValue(s) > 0
  {
    var init := s[..|s| - 1];
    if !AllZeros(init) {
      NonZeroDigit(init);
    } else {
      assert s[|s| - 1] != '0';
    }
  }

  // ---- round trips ----

  lemma {:induction false} BytesHexAt(bs: seq<Byte>, i: nat)
    requires i < |bs|
    ensures BytesHex(bs)[2 * i..2 * i + 2] == ToHex(bs[i], 2)
  {
    if i < |bs| - 1 {
      BytesHexAt(bs[..|bs| - 1], i);
      SliceOfPrefix(BytesHex(bs[..|bs| - 1]), ToHex(bs[|bs| - 1], 2), 2 * i, 2 * i + 2);
    }
  }

  lemma SliceOfSlice(s: string, lo: nat, hi: nat, i: nat, j: nat)
    requires lo <= hi <= |s| && i <= j <= hi - lo
    ensures s[lo..hi][i..j] == s[lo + i..lo + j]
  {
    var t := s[lo..hi];
    assert forall k :: i <= k < j ==> t[k] == s[lo + k];
  }

  lemma ByteValue(hex: string, pos: nat, b: Byte)
    requires AllHex(hex) && pos + 2 <= |hex| && hex[pos..pos + 2] == ToHex(b, 2)
    ensures ByteAt(hex, pos) == b
  {
    var digits := hex[pos..pos + 2];
    TwoDigits();
    HexRoundTrip(b, 2);
    assert HexValue(digits) == b;
    assert ByteAt(hex, pos) == HexValue(hex[pos..pos + 2]);
  }

  lemma TwoDigits()
    ensures Pow(16, 2) == 256
  {
    assert Pow(16, 1) == 16;
  }

  /** Digits of a text that stands in a longer one. */
  lemma DigitsInside(hex: string, start: nat, body: string, i: nat, digits: string)
    requires start + |body| <= |hex| && hex[start..start + |body|] == body
    requires i + 2 <= |body| && body[i..i + 2] == digits
    ensures hex[start + i..start + i + 2] == digits
  {
    SliceOfSlice(hex, start, start + |body|, i, i + 2);
  }

  lemma PrintedByte(hex: string, start: nat, body: string, i: nat, b: Byte)
    requires AllHex(hex) && start + |body| <= |hex| && hex[start..start + |body|] == body
    requires i + 2 <= |body| && body[i..i + 2] == ToHex(b, 2)
    ensures ByteAt(hex, start + i) == b
  {
    DigitsInside(hex, start, body, i, ToHex(b, 2));
    ByteValue(hex, start + i, b);
  }

  /** `body` spells `bs`, two digits a byte. */
  ghost predicate Spells(body: string, bs: seq<Byte>) {
    |body| == 2 * |bs| && forall i {:trigger bs[i]} :: 0 <= i < |bs| ==> body[2 * i..2 * i + 2] == ToHex(bs[i], 2)
  }

  lemma BytesHexSpells(bs: seq<Byte>)
    ensures Spells(BytesHex(bs), bs)
  {
    forall i | 0 <= i < |bs| ensures BytesHex(bs)[2 * i..2 * i + 2] == ToHex(bs[i], 2) {
      BytesHexAt(bs, i);
    }
  }

  /** Bytes spelled into `hex` at `start` are read back from it. */
  lemma {:induction false} BytesRoundTrip(hex: string, start: nat, body: string, bs: seq<Byte>, n: nat)
    requires AllHex(hex) && start + |body| <= |hex| && hex[start..start + |body|] == body
    requires Spells(body, bs) && n <= |bs|
    ensures BytesAt(hex, start, n) == bs[..n]
  {
    if n > 0 {
      BytesRoundTrip(hex, start, body, bs, n - 1);
      PrintedByte(hex, start, body, 2 * (n - 1), bs[n - 1]);
    }
  }

  lemma LowerIsHex(s: string)
    requires AllLowerHex(s)
    ensures AllHex(s)
  {
    LowerHexFixed(s);
  }

  lemma WordAsSize(n: nat)
    requires n < WORD_LIMIT
    ensures AllHex(Word(n)) && SizeWord(Word(n), 0) == if n < 0x1_0000_0000 then Some(n) else None
  {
    WordValue(n);
    SizeWordExact(Word(n));
  }

  /** A word read where it stands. */
  lemma SizeWordAt(hex: string, pos: nat, word: string)
    requires AllHex(hex) && AllHex(word) && |word| == 64 && pos + 64 <= |hex| && hex[pos..pos + 64] == word
    ensures SizeWord(hex, pos) == SizeWord(word, 0)
  {
    SliceOfSlice(hex, pos, pos + 64, 0, 56);
    SliceOfSlice(hex, pos, pos + 64, 56, 64);
  }

  /** Return data with one dynamic string; the encoding of a lone string has offset 32. */
  function EncodeText(offset: nat, bs: seq<Byte>): string {
    "0x" + (Word(offset) + EncodeBytes(bs))
  }

  /** The older form: the bytes in one word, padded with zeros. */
  function EncodeBytes32(bs: seq<Byte>): string
    requires |bs| <= 32
  {
    "0x" + (BytesHex(bs) + Zeros(64 - 2 * |bs|))
  }

  lemma PrefixedHex(hex: string)
    requires AllLowerHex(hex) && |hex| % 2 == 0 && |hex| >= 64
    ensures Hex("0x" + hex) == if |hex| <= 65536 then Some(hex) else None
  {
    LowerIsHex(hex);
    assert ("0x" + hex)[2..] == hex;
  }

  /** Return data of more than a word, with its offset word, its length word and its bytes in place. */
  lemma DynamicText(value: string, hex: string, offset: nat, bs: seq<Byte>)
    requires Hex(value) == Some(hex) && AllHex(hex) && 128 + 2 * |bs| <= |hex|
    requires offset == 32 <==> SizeWord(hex, 0) == Some(32)
    requires SizeWord(hex, 64) == Some(|bs|) && BytesAt(hex, 128, |bs|) == bs
    ensures TokenText(value) == if offset == 32 && |bs| <= 1024 then Checked(bs) else Thrown
  {
  }

  lemma Pieces(offset: string, length: string, content: string, pad: string)
    requires |offset| == 64 && |length| == 64
    ensures var hex := offset + (length + content + pad);
      hex[0..64] == offset && hex[64..128] == length && hex[128..128 + |content|] == content
  {
  }

  lemma SpelledText(value: string, first: string, second: string, body: string, pad: string, offset: nat, bs: seq<Byte>)
    requires Hex(value) == Some(first + (second + body + pad)) && AllHex(first + (second + body + pad))
    requires |first| == 64 && |second| == 64 && AllHex(first) && AllHex(second) && Spells(body, bs)
    requires offset == 32 <==> SizeWord(first, 0) == Some(32)
    requires SizeWord(second, 0) == Some(|bs|)
    ensures TokenText(value) == if offset == 32 && |bs| <= 1024 then Checked(bs) else Thrown
  {
    var hex := first + (second + body + pad);
    Pieces(first, second, body, pad);
    SizeWordAt(hex, 0, first);
    SizeWordAt(hex, 64, second);
    BytesRoundTrip(hex, 128, body, bs, |bs|);
    assert bs[..|bs|] == bs;
    DynamicText(value, hex, offset, bs);
  }

  lemma AnySpelledText(first: string, second: string, body: string, pad: string, offset: nat, bs: seq<Byte>)
    requires |first| == 64 && |second| == 64 && AllHex(first) && AllHex(second) && Spells(body, bs)
    requires AllLowerHex(first + (second + body + pad)) && |pad| % 2 == 0 && |pad| < 64
    requires offset == 32 <==> SizeWord(first, 0) == Some(32)
    requires |bs| < 0x1_0000_0000 ==> SizeWord(second, 0) == Some(|bs|)
    ensures TokenText("0x" + (first + (second + body + pad))) == if offset == 32
      && |bs| <= 1024 then Checked(bs) else Thrown
  {
    var hex := first + (second + body + pad);
    PrefixedHex(hex);
    if |hex| <= 65536 {
      SpelledText("0x" + hex, first, second, body, pad, offset, bs);
    }
  }

  lemma LengthWord(n: nat)
    ensures AllHex(Word(n))
    ensures n < 0x1_0000_0000 ==> SizeWord(Word(n), 0) == Some(n)
    ensures 0x1_0000_0000 <= n < WORD_LIMIT ==> SizeWord(Word(n), 0) == None
  {
    LowerIsHex(Word(n));
    if n < WORD_LIMIT {
      WordAsSize(n);
    }
  }

  lemma LowerConcat(a: string, b: string, c: string, d: string)
    requires AllLowerHex(a) && AllLowerHex(b) && AllLowerHex(c) && AllLowerHex(d)
    ensures AllLowerHex(a + (b + c + d))
  {
  }

  lemma WordsSpelledText(offset: nat, bs: seq<Byte>, body: string, pad: string)
    requires offset < WORD_LIMIT && Spells(body, bs) && |pad| % 2 == 0 && |pad| < 64
    requires AllLowerHex(Word(offset) + (Word(|bs|) + body + pad))
    ensures TokenText("0x" + (Word(offset) + (Word(|bs|) + body + pad)))
         == if offset == 32 && |bs| <= 1024 then Checked(bs) else Thrown
  {
    LengthWord(offset);
    LengthWord(|bs|);
    AnySpelledText(Word(offset), Word(|bs|), body, pad, offset, bs);
  }

  lemma EncodedDigits(offset: nat, bs: seq<Byte>, body: string, pad: string)
    requires AllLowerHex(body) && AllLowerHex(pad)
    ensures AllLowerHex(Word(offset) + (Word(|bs|) + body + pad))
  {
    LowerConcat(Word(offset), Word(|bs|), body, pad);
  }

  lemma PadLength(n: nat)
    ensures 2 * n <= Padded(n) < 2 * n + 64 && Padded(n) % 2 == 0
  {
  }

  /**
   Decoding a dynamic encoding returns its text exactly when the offset is 32 and the text is valid and at most
   1024 bytes.
   */
  lemma TextRoundTrip(offset: nat, bs: seq<Byte>)
    requires offset < WORD_LIMIT
    ensures TokenText(EncodeText(offset, bs)) == if offset == 32 && |bs| <= 1024 then Checked(bs) else Thrown
  {
    PadLength(|bs|);
    var body, pad := BytesHex(bs), Zeros(Padded(|bs|) - 2 * |bs|);
    BytesHexSpells(bs);
    EncodedDigits(offset, bs, body, pad);
    WordsSpelledText(offset, bs, body, pad);
  }

  /** The padded word yields its bytes up to the first zero. */
  lemma Bytes32Prefix(bs: seq<Byte>)
    requires |bs| <= 32
    ensures TokenText(EncodeBytes32(bs)) == Checked(UpToZero(bs))
  {
    var hex := BytesHex(bs) + Zeros(64 - 2 * |bs|);
    PrefixedHex(hex);
    LowerIsHex(hex);
    assert hex[0..2 * |bs|] == BytesHex(bs) && hex[2 * |bs|..] == Zeros(64 - 2 * |bs|);
    BytesHexSpells(bs);
    PaddedBytes(hex, BytesHex(bs), bs, 32);
    SamePrefix(BytesAt(hex, 0, 32), bs);
  }

  lemma PaddedByte(hex: string, body: string, bs: seq<Byte>, n: nat, i: nat)
    requires AllHex(hex) && |hex| == 2 * n && |bs| <= n && i < n && Spells(body, bs)
    requires hex[0..|body|] == body && AllZeros(hex[|body|..])
    ensures ByteAt(hex, 2 * i) == if i < |bs| then bs[i] else 0
  {
    if i < |bs| {
      PrintedByte(hex, 0, body, 2 * i, bs[i]);
    } else {
      ZeroByte(hex, |body|, 2 * i);
    }
  }

  lemma PaddedBytes(hex: string, body: string, bs: seq<Byte>, n: nat)
    requires AllHex(hex) && |hex| == 2 * n && |bs| <= n && Spells(body, bs)
    requires hex[0..|body|] == body && AllZeros(hex[|body|..])
    ensures forall i :: 0 <= i < n ==> BytesAt(hex, 0, n)[i] == if i < |bs| then bs[i] else 0
  {
    forall i | 0 <= i < n ensures BytesAt(hex, 0, n)[i] == if i < |bs| then bs[i] else 0 {
      BytesAtIndex(hex, 0, n, i);
      PaddedByte(hex, body, bs, n, i);
    }
  }

  lemma ZeroByte(hex: string, from: nat, pos: nat)
    requires AllHex(hex) && from <= pos && pos + 2 <= |hex| && AllZeros(hex[from..])
    ensures ByteAt(hex, pos) == 0
  {
    var digits := hex[pos..pos + 2];
    forall j | 0 <= j < |digits| ensures digits[j] == '0' {
      assert hex[from..][pos - from + j] == '0';
    }
    AllZerosIsZero(digits);
    assert ByteAt(hex, pos) == HexValue(hex[pos..pos + 2]);
  }

  lemma {:induction false} SamePrefix(padded: seq<Byte>, bs: seq<Byte>)
    requires |bs| <= |padded|
    requires forall i :: 0 <= i < |padded| ==> padded[i] == if i < |bs| then bs[i] else 0
    ensures UpToZero(padded) == UpToZero(bs)
  {
    if bs != [] && bs[0] != 0 {
      SamePrefix(padded[1..], bs[1..]);
    }
  }

  /** Text of 1 to 32 bytes survives its bytes32 form. */
  lemma Bytes32RoundTrip(bs: seq<Byte>)
    requires |bs| <= 32 && ValidText(bs)
    ensures TokenText(EncodeBytes32(bs)) == Ok(bs)
  {
    Bytes32Prefix(bs);
    UpToZeroIs(bs, |bs|);
    assert bs[..|bs|] == bs;
  }

  /** Printable ASCII is well-formed UTF-8. */
  lemma {:induction false} AsciiIsValid(bs: seq<Byte>)
    requires forall b :: b in bs ==> 32 <= b < 127
    ensures Utf8(bs) && AllPrintable(bs)
  {
    if bs != [] {
      assert bs[0] in bs && forall b :: b in bs[1..] ==> b in bs;
      AsciiIsValid(bs[1..]);
      assert AllPrintable(bs) by {
        forall i | 0 <= i < |bs| ensures Printable(bs[i]) { assert bs[i] in bs; }
      }
    }
  }

  /** Every number of decimals up to 255 is read back, every larger word is rejected. */
  lemma DecimalsRoundTrip(n: nat)
    requires n < WORD_LIMIT
    ensures DecodeTokenDecimals("0x" + Word(n)) == if n <= 255 then Ok(n) else Thrown
  {
    WordValue(n);
    assert ("0x" + Word(n))[2..] == Word(n);
    PrefixedHex(Word(n));
    SizeWordExact(Word(n));
  }
}
