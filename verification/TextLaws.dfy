/**
 Which return data is token text, told from its characters, and which bytes are text: the UTF-8 encodings of
 Unicode scalar values, section 3 of RFC 3629.
 */
module TextLaws {
  import opened Wrappers
  import opened Text
  import opened Abi
  import opened TokenMetadata

  // ---- UTF-8 as an encoding ----

  /** A Unicode scalar value: up to U+10FFFF and no surrogate. */
  predicate Scalar(n: nat) {
    n < 0xD800 || 0xE000 <= n < 0x110000
  }

  function Encoded(n: nat): seq<Byte>
    requires Scalar(n)
  {
    if n < 0x80 then [n]
    else if n < 0x800 then [0xC0 + n / 64, 0x80 + n % 64]
    else if n < 0x10000 then [0xE0 + n / 4096, 0x80 + n / 64 % 64, 0x80 + n % 64]
    else [0xF0 + n / 262144, 0x80 + n / 4096 % 64, 0x80 + n / 64 % 64, 0x80 + n % 64]
  }

  predicate Scalars(ns: seq<nat>) {
    forall i :: 0 <= i < |ns| ==> Scalar(ns[i])
  }

  function EncodedAll(ns: seq<nat>): seq<Byte>
    requires Scalars(ns)
  {
    if ns == [] then [] else Encoded(ns[0]) + EncodedAll(ns[1..])
  }

  lemma TwoAreAccepted(n: nat, s: seq<Byte>)
    requires 0x80 <= n < 0x800 && Encoded(n) <= s
    ensures Utf8(s) <==> Utf8(s[2..])
  {
    assert s[0] == 0xC0 + n / 64 && s[1] == 0x80 + n % 64;
  }

  lemma ThreeAreAccepted(n: nat, s: seq<Byte>)
    requires 0x800 <= n < 0x10000 && Scalar(n) && Encoded(n) <= s
    ensures Utf8(s) <==> Utf8(s[3..])
  {
    var e := Encoded(n);
    assert s[0] == e[0] && s[1] == e[1] && s[2] == e[2];
    assert Three(e[0], e[1], e[2]);
  }

  lemma FourAreAccepted(n: nat, s: seq<Byte>)
    requires 0x10000 <= n && Scalar(n) && Encoded(n) <= s
    ensures Utf8(s) <==> Utf8(s[4..])
  {
    var e := Encoded(n);
    assert s[0] == e[0] && s[1] == e[1] && s[2] == e[2] && s[3] == e[3];
    assert Four(e[0], e[1], e[2], e[3]);
  }

  /** In front of anything an encoded scalar value is accepted and taken off. */
  lemma EncodedIsAccepted(n: nat, rest: seq<Byte>)
    requires Scalar(n)
    ensures Utf8(Encoded(n) + rest) <==> Utf8(rest)
  {
    var e := Encoded(n);
    var s := e + rest;
    assert s[|e|..] == rest;
    if n < 0x80 {
      assert s[0] == n;
    } else if n < 0x800 {
      TwoAreAccepted(n, s);
    } else if n < 0x10000 {
      ThreeAreAccepted(n, s);
    } else {
      FourAreAccepted(n, s);
    }
  }

  lemma {:induction false} EncodedAllIsUtf8(ns: seq<nat>)
    requires Scalars(ns)
    ensures Utf8(EncodedAll(ns))
  {
    if ns != [] {
      EncodedAllIsUtf8(ns[1..]);
      EncodedIsAccepted(ns[0], EncodedAll(ns[1..]));
    }
  }

  lemma TwoDecode(a: Byte, b: Byte) returns (n: nat)
    requires 0xC2 <= a <= 0xDF && Continues(b)
    ensures Scalar(n) && Encoded(n) == [a, b]
  {
    n := (a - 0xC0) * 64 + (b - 0x80);
  }

  lemma ThreeDecode(a: Byte, b: Byte, c: Byte) returns (n: nat)
    requires Three(a, b, c)
    ensures Scalar(n) && Encoded(n) == [a, b, c]
  {
    var ab := (a - 0xE0) * 64 + (b - 0x80);
    n := ab * 64 + (c - 0x80);
    assert n / 64 == ab && n / 4096 == a - 0xE0;
  }

  lemma FourDecode(a: Byte, b: Byte, c: Byte, d: Byte) returns (n: nat)
    requires Four(a, b, c, d)
    ensures Scalar(n) && Encoded(n) == [a, b, c, d]
  {
    var ab := (a - 0xF0) * 64 + (b - 0x80);
    var abc := ab * 64 + (c - 0x80);
    n := abc * 64 + (d - 0x80);
    assert n / 64 == abc && n / 4096 == ab && n / 262144 == a - 0xF0;
  }

  /** The first scalar value of accepted bytes, and how many bytes it takes. */
  lemma FirstScalar(bs: seq<Byte>) returns (n: nat, k: nat)
    requires bs != [] && Utf8(bs)
    ensures Scalar(n) && 0 < k <= |bs| && Encoded(n) == bs[..k] && Utf8(bs[k..])
  {
    if bs[0] < 0x80 {
      n, k := bs[0], 1;
    } else if |bs| >= 2 && 0xC2 <= bs[0] <= 0xDF && Continues(bs[1]) {
      n := TwoDecode(bs[0], bs[1]);
      k := 2;
    } else if |bs| >= 3 && Three(bs[0], bs[1], bs[2]) {
      n := ThreeDecode(bs[0], bs[1], bs[2]);
      k := 3;
    } else {
      n := FourDecode(bs[0], bs[1], bs[2], bs[3]);
      k := 4;
    }
  }

  lemma {:induction false} Utf8IsEncoded(bs: seq<Byte>) returns (ns: seq<nat>)
    requires Utf8(bs)
    ensures Scalars(ns) && EncodedAll(ns) == bs
    decreases |bs|
  {
    if bs == [] {
      ns := [];
    } else {
      var n, k := FirstScalar(bs);
      var rest := Utf8IsEncoded(bs[k..]);
      ns := [n] + rest;
      assert ns[1..] == rest;
      assert bs == bs[..k] + bs[k..];
    }
  }

  /** What is accepted is exactly what encodes scalar values; so no overlong form, no surrogate and no cut sequence. */
  lemma Utf8Exactly(bs: seq<Byte>)
    ensures Utf8(bs) <==> exists ns: seq<nat> :: Scalars(ns) && EncodedAll(ns) == bs
  {
    if Utf8(bs) {
      var ns := Utf8IsEncoded(bs);
      assert Scalars(ns) && EncodedAll(ns) == bs;
    }
    if ns: seq<nat> :| Scalars(ns) && EncodedAll(ns) == bs {
      EncodedAllIsUtf8(ns);
    }
  }

  // ---- which data is text ----

  /** Two digits at `pos` spell a byte. */
  ghost predicate SpellsAt(value: string, pos: nat, b: Byte) {
    pos + 2 <= |value| && AllHex(value[pos..pos + 2]) && HexValue(value[pos..pos + 2]) == b
  }

  /** The bytes spelled from `pos` on. */
  ghost predicate SpelledAt(value: string, pos: nat, bs: seq<Byte>) {
    forall i :: 0 <= i < |bs| ==> SpellsAt(value, pos + 2 * i, bs[i])
  }

  ghost predicate NumberAt(value: string, pos: nat, n: nat) {
    pos + 64 <= |value| && AllHex(value[pos..pos + 64]) && HexValue(value[pos..pos + 64]) == n
  }

  /** One word that begins with the text, followed by a zero byte if it is not full. */
  ghost predicate WordText(value: string, text: seq<Byte>) {
    && |value| == 66 && |text| <= 32 && SpelledAt(value, 2, text) && 0 !in text
    && (|text| < 32 ==> SpellsAt(value, 2 + 2 * |text|, 0))
  }

  /** The offset 32, the length of the text, and the text, whatever stands behind it. */
  ghost predicate TailText(value: string, text: seq<Byte>) {
    && NumberAt(value, 2, 32) && NumberAt(value, 66, |text|) && |text| <= 1024
    && 130 + 2 * |text| <= |value| && SpelledAt(value, 130, text)
  }

  lemma ByteExactly(value: string, pos: nat, b: Byte)
    requires |value| >= 2 && AllHex(value[2..]) && pos + 4 <= |value|
    ensures ByteAt(value[2..], pos) == b <==> SpellsAt(value, pos + 2, b)
  {
    assert value[2..][pos..pos + 2] == value[pos + 2..pos + 4];
  }

  lemma BytesExactly(value: string, start: nat, n: nat, bs: seq<Byte>)
    requires |value| >= 2 && AllHex(value[2..]) && start + 2 * n + 2 <= |value| && |bs| <= n
    ensures bs <= BytesAt(value[2..], start, n) <==> SpelledAt(value, start + 2, bs)
  {
    var hex := value[2..];
    var all := BytesAt(hex, start, n);
    forall i | 0 <= i < |bs| ensures all[i] == bs[i] <==> SpellsAt(value, start + 2 + 2 * i, bs[i]) {
      BytesAtIndex(hex, start, n, i);
      ByteExactly(value, start + 2 * i, bs[i]);
    }
    if SpelledAt(value, start + 2, bs) {
      assert forall i :: 0 <= i < |bs| ==> bs[i] == all[i];
    }
  }

  lemma {:induction false} UpToZeroExactly(bs: seq<Byte>, text: seq<Byte>)
    ensures UpToZero(bs) == text <==> text <= bs && 0 !in text && (|text| < |bs| ==> bs[|text|] == 0)
  {
    if bs != [] && bs[0] != 0 && text != [] {
      UpToZeroExactly(bs[1..], text[1..]);
      assert text == [text[0]] + text[1..] && bs == [bs[0]] + bs[1..];
      assert 0 in text <==> text[0] == 0 || 0 in text[1..];
    }
  }

  lemma ZeroExactly(value: string, i: nat)
    requires |value| == 66 && AllHex(value[2..]) && i < 32
    ensures BytesAt(value[2..], 0, 32)[i] == 0 <==> SpellsAt(value, 2 + 2 * i, 0)
  {
    BytesAtIndex(value[2..], 0, 32, i);
    ByteExactly(value, 2 * i, 0);
  }

  lemma WordTextExactly(value: string, text: seq<Byte>)
    requires |value| == 66 && AllHex(value[2..])
    ensures UpToZero(BytesAt(value[2..], 0, 32)) == text <==> WordText(value, text)
  {
    var all := BytesAt(value[2..], 0, 32);
    UpToZeroExactly(all, text);
    if |text| <= 32 {
      BytesExactly(value, 0, 32, text);
      if |text| < 32 {
        ZeroExactly(value, |text|);
      }
    }
  }

  lemma NumberExactly(value: string, pos: nat, n: nat)
    requires |value| >= 2 && AllHex(value[2..]) && n < 0x1_0000_0000
    ensures SizeWord(value[2..], pos) == Some(n) <==> NumberAt(value, pos + 2, n)
  {
    var hex := value[2..];
    if pos + 64 <= |hex| {
      var word := hex[pos..pos + 64];
      assert word == value[pos + 2..pos + 66];
      SizeWordAt(hex, pos, word);
      SizeWordExact(word);
    }
  }

  lemma ExtentExactly(value: string, n: nat)
    requires |value| >= 2 && |value| != 66 && AllHex(value[2..])
    ensures Extent(value[2..]) == Some((128, n)) <==>
      NumberAt(value, 2, 32) && NumberAt(value, 66, n) && n <= 1024 && 130 + 2 * n <= |value|
  {
    NumberExactly(value, 0, 32);
    if n <= 1024 {
      NumberExactly(value, 64, n);
    }
  }

  lemma TailTextExactly(value: string, text: seq<Byte>)
    requires |value| >= 2 && |value| != 66 && AllHex(value[2..])
    ensures (Extent(value[2..]) == Some((128, |text|)) && BytesAt(value[2..], 128, |text|) == text)
      <==> TailText(value, text)
  {
    ExtentExactly(value, |text|);
    if 130 + 2 * |text| <= |value| {
      BytesExactly(value, 128, |text|, text);
    }
  }

  /** Text that may be shown: not empty, no control character, and an encoding of scalar values. */
  ghost predicate Shown(text: seq<Byte>) {
    && text != [] && (forall b :: b in text ==> b >= 32 && b != 127)
    && exists ns: seq<nat> :: Scalars(ns) && EncodedAll(ns) == text
  }

  lemma ShownExactly(text: seq<Byte>)
    ensures ValidText(text) <==> Shown(text)
  {
    Utf8Exactly(text);
    if AllPrintable(text) {
      assert forall b :: b in text ==> b >= 32 && b != 127;
    }
    if forall b :: b in text ==> b >= 32 && b != 127 {
      forall i | 0 <= i < |text| ensures Printable(text[i]) {
        assert text[i] in text;
      }
    }
  }

  /**
   Return data is text exactly if it is "0x" and an even number of digits, 64 to 65536 of them, that hold a text that
   may be shown, either as one word up to its first zero byte or as a dynamic string of up to 1024 bytes.
   */
  lemma TextExactly(value: string, text: seq<Byte>)
    ensures TokenText(value) == Ok(text) <==>
      && "0x" <= value && 66 <= |value| <= 65538 && |value| % 2 == 0 && AllHex(value[2..])
      && (WordText(value, text) || TailText(value, text)) && Shown(text)
  {
    ShownExactly(text);
    if Hex(value).Some? {
      if |value| == 66 {
        WordTextExactly(value, text);
      } else {
        TailTextExactly(value, text);
      }
    }
  }
}
