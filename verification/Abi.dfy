/**
 Fixed-width hexadecimal words, as in the Solidity Contract ABI Specification, "Formal Specification of the
 Encoding".
 */
module Abi {
  import opened Text

  /** One past the largest std::size_t. */
  const U64: nat := 0x1_0000_0000_0000_0000

  const ZERO_ADDRESS: string := "0x0000000000000000000000000000000000000000"

  lemma ZeroAddressDigits()
    ensures ZERO_ADDRESS == "0x" + Zeros(40)
  {
    assert |ZERO_ADDRESS| == 42 && forall i :: 2 <= i < 42 ==> ZERO_ADDRESS[i] == '0';
  }

  /** One past the largest 160-bit address and 256-bit word. */
  const ADDRESS_LIMIT: nat := 0x1_0000_0000_0000_0000_0000_0000_0000_0000_0000_0000
  const WORD_LIMIT: nat := 0x1_0000_0000_0000_0000_0000_0000_0000_0000_0000_0000_0000_0000_0000_0000_0000_0000

  type Byte = b: nat | b < 256

  /** size_t arithmetic. */
  function Wrap(n: int): nat {
    n % 0x1_0000_0000_0000_0000
  }

  function Word(n: nat): (w: string)
    ensures |w| == 64 && AllLowerHex(w)
  {
    ToHex(n, 64)
  }

  function BytesHex(bs: seq<Byte>): (s: string)
    ensures |s| == 2 * |bs| && AllLowerHex(s)
  {
    if bs == [] then "" else BytesHex(bs[..|bs| - 1]) + ToHex(bs[|bs| - 1], 2)
  }

  /** Hex digits taken by `length` bytes padded to whole words. */
  function Padded(length: nat): (n: nat)
    ensures 2 * length <= n < 2 * length + 64 && n % 64 == 0
  {
    var words := (length + 31) / 32;
    assert 32 * words <= length + 31 < 32 * words + 32;
    64 * words
  }

  /** A dynamic `string` or `bytes` tail: its length and its padded content. */
  function EncodeBytes(bs: seq<Byte>): (s: string)
    ensures |s| == 64 + Padded(|bs|) && AllLowerHex(s)
  {
    Word(|bs|) + BytesHex(bs) + Zeros(Padded(|bs|) - 2 * |bs|)
  }

  /** Words laid end to end. */
  function Flat(ws: seq<string>): string {
    if ws == [] then "" else Flat(ws[..|ws| - 1]) + ws[|ws| - 1]
  }

  ghost predicate AllWords(ws: seq<string>) {
    forall i :: 0 <= i < |ws| ==> |ws[i]| == 64 && AllLowerHex(ws[i])
  }

  lemma {:induction false} FlatLength(ws: seq<string>)
    requires AllWords(ws)
    ensures |Flat(ws)| == 64 * |ws| && AllLowerHex(Flat(ws))
  {
    if ws != [] {
      FlatLength(ws[..|ws| - 1]);
    }
  }

  lemma {:induction false} FlatWords(ws: seq<string>, i: nat)
    requires AllWords(ws) && i < |ws|
    ensures |Flat(ws)| == 64 * |ws|
    ensures Flat(ws)[64 * i..64 * i + 64] == ws[i]
  {
    var init := ws[..|ws| - 1];
    FlatLength(ws);
    FlatLength(init);
    if i < |init| {
      FlatWords(init, i);
      SliceOfPrefix(Flat(init), ws[|ws| - 1], 64 * i, 64 * i + 64);
    }
  }

  lemma SliceOfPrefix(a: string, b: string, lo: nat, hi: nat)
    requires lo <= hi <= |a|
    ensures (a + b)[lo..hi] == a[lo..hi]
  {
  }

  lemma SliceOfMiddle(pre: string, a: string, post: string, lo: nat, hi: nat)
    requires lo <= hi <= |a|
    ensures (pre + a + post)[|pre| + lo..|pre| + hi] == a[lo..hi]
  {
  }

  /** Word `i` of a block of words that stands between `pre` and `post`. */
  lemma WordAt(pre: string, ws: seq<string>, post: string, i: nat)
    requires AllWords(ws) && i < |ws|
    ensures |Flat(ws)| == 64 * |ws|
    ensures (pre + Flat(ws) + post)[|pre| + 64 * i..|pre| + 64 * i + 64] == ws[i]
  {
    FlatWords(ws, i);
    SliceOfMiddle(pre, Flat(ws), post, 64 * i, 64 * i + 64);
  }

  lemma {:induction false} PowAdds(b: nat, m: nat, n: nat)
    ensures Pow(b, m + n) == Pow(b, m) * Pow(b, n)
  {
    if m > 0 {
      PowAdds(b, m - 1, n);
      MulAssociates(b, Pow(b, n), Pow(b, m - 1));
      assert Pow(b, m) == b * Pow(b, m - 1);
      assert Pow(b, m + n) == b * Pow(b, m + n - 1);
      assert Pow(b, m - 1 + n) == Pow(b, n) * Pow(b, m - 1);
      MulAssociates(b, Pow(b, m - 1), Pow(b, n));
    }
  }

  lemma Pow16()
    ensures Pow(16, 16) == U64
    ensures Pow(16, 40) == ADDRESS_LIMIT
    ensures Pow(16, 64) == WORD_LIMIT
  {
    assert Pow(16, 4) == 0x1_0000;
    PowAdds(16, 4, 4);
    PowAdds(16, 8, 8);
    PowAdds(16, 16, 16);
    PowAdds(16, 32, 8);
    PowAdds(16, 32, 32);
  }

  lemma Pow10()
    ensures Pow(10, 78) == 1_000000000000_000000000000_000000000000_000000_000000000000_000000000000_000000000000
  {
    Pow10Half();
    PowAdds(10, 39, 39);
  }

  lemma Pow10Half()
    ensures Pow(10, 39) == 1_000_000000000000_000000000000_000000000000
  {
    assert Pow(10, 3) == 1000;
    PowAdds(10, 3, 3);
    PowAdds(10, 6, 6);
    PowAdds(10, 12, 12);
    PowAdds(10, 24, 12);
    PowAdds(10, 36, 3);
  }

  lemma WordValue(n: nat)
    requires n < WORD_LIMIT
    ensures AllHex(Word(n)) && HexValue(Word(n)) == n
  {
    Pow16();
    HexRoundTrip(n, 64);
    LowerHexFixed(Word(n));
  }

  /** Every word prints in at most 78 decimal digits, the width of the balance columns. */
  lemma WordPrintsShort(w: string)
    requires |w| == 64 && AllHex(w)
    ensures |Decimal(HexValue(w))| <= 78
  {
    HexBound(w);
    Pow16();
    Pow10();
    DecimalLength(HexValue(w), 78);
  }
}
