/**
 What an accepted deployment looks like, and the round trip through the ABI encoding of the seven
 constructor arguments.
 */
module DeploymentLaws {
  import opened Wrappers
  import opened Text
  import opened Chain
  import opened Abi
  import opened Erc20Parser

  /** std::string cannot be this long. */
  const MAX_INPUT: nat := 0x4000_0000_0000_0000

  // ---- the layout, in plain integers ----

  /** 64 digits without a capital, whose number is `n`, below 2^64. */
  ghost predicate Reads(word: string, n: nat) {
    && |word| == 64 && AllHex(word) && (forall i :: 0 <= i < 64 ==> !('A' <= word[i] <= 'F'))
    && HexValue(word) == n && n < 0x1_0000_0000_0000_0000
  }

  lemma ReadsExactly(word: string, n: nat)
    ensures SizeOf(word) == Some(n) <==> Reads(word, n)
  {
    assert AllLowerHex(word) <==> AllHex(word) && forall i :: 0 <= i < |word| ==> !('A' <= word[i] <= 'F');
  }

  ghost function Number(word: string): nat {
    if AllHex(word) then HexValue(word) else 0
  }

  /** The number words of a head. */
  ghost function SymbolAt(input: string, start: nat): nat
    requires start + 7 * 64 <= |input|
  {
    Number(input[start + 64..start + 128])
  }

  ghost function DecimalsAt(input: string, start: nat): nat
    requires start + 7 * 64 <= |input|
  {
    Number(input[start + 128..start + 192])
  }

  ghost function UrlAt(input: string, start: nat): nat
    requires start + 7 * 64 <= |input|
  {
    Number(input[start + 256..start + 320])
  }

  ghost predicate ZerosAt(input: string, pos: nat, n: nat) {
    pos + n <= |input| && forall i :: pos <= i < pos + n ==> input[i] == '0'
  }

  /**
   The seven words of a head: 224, two ascending offsets behind it in whole words, a number up to 255, anything for
   the supply, and two words with twelve zero bytes in front.
   */
  ghost predicate ProperHead(input: string, start: nat)
    requires start + 7 * 64 <= |input|
  {
    var symbol, url, decimals := SymbolAt(input, start), UrlAt(input, start), DecimalsAt(input, start);
    && Reads(input[start..start + 64], 224)
    && Reads(input[start + 64..start + 128], symbol)
    && Reads(input[start + 128..start + 192], decimals) && decimals <= 255
    && Reads(input[start + 256..start + 320], url)
    && ZerosAt(input, start + 320, 24) && ZerosAt(input, start + 384, 24)
    && 224 < symbol < url && symbol % 32 == 0 && url % 32 == 0
  }

  lemma ZerosExactly(input: string, pos: nat)
    requires pos + 64 <= |input|
    ensures IsAddressWord(input[pos..pos + 64]) <==> ZerosAt(input, pos, 24)
  {
    var w := input[pos..pos + 64];
    assert forall i :: 0 <= i < 24 ==> w[..24][i] == input[pos + i];
    if IsAddressWord(w) {
      forall i | pos <= i < pos + 24 ensures input[i] == '0' {
        assert w[..24][i - pos] == input[i];
      }
    }
  }

  /** The fixed checks pass exactly a proper head, and read its offsets. */
  lemma HeadExactly(input: string, start: nat)
    requires start + 7 * 64 <= |input|
    ensures HeadAt(input, start) ==
      if ProperHead(input, start) then Some(Head(224, SymbolAt(input, start), UrlAt(input, start))) else None
  {
    var symbol, url := SymbolAt(input, start), UrlAt(input, start);
    ReadsExactly(HeadWord(input, start, 0), 224);
    ReadsExactly(HeadWord(input, start, 1), symbol);
    ReadsExactly(HeadWord(input, start, 4), url);
    ReadsExactly(HeadWord(input, start, 2), DecimalsAt(input, start));
    ZerosExactly(input, start + 320);
    ZerosExactly(input, start + 384);
  }

  /** A length-prefixed tail of `length` bytes stands at digit `pos`, inside the input. */
  ghost predicate TailAt(input: string, pos: nat, length: nat) {
    pos + 64 + Padded(length) <= |input| && Reads(input[pos..pos + 64], length)
  }

  /** Three tails laid end to end from digit `pos` to the end of the input. */
  ghost predicate ThreeTails(input: string, pos: nat, a: nat, b: nat, c: nat) {
    var p2 := pos + 64 + Padded(a);
    var p3 := p2 + 64 + Padded(b);
    TailAt(input, pos, a) && TailAt(input, p2, b) && TailAt(input, p3, c) && p3 + 64 + Padded(c) == |input|
  }

  /**
   A seven-word head at `start` followed by three tails with no gap or overlap, ending exactly where
   the input ends. Offsets are compared as the source does, doubled in size_t.
   */
  ghost predicate Layout(input: string, start: nat, a: nat, b: nat, c: nat)
    requires start + 7 * 64 <= |input|
  {
    && ThreeTails(input, start + 448, a, b, c)
    && ProperHead(input, start)
    && Wrap(SymbolAt(input, start) * 2) == 448 + 64 + Padded(a)
    && Wrap(UrlAt(input, start) * 2) == 448 + 64 + Padded(a) + 64 + Padded(b)
  }

  lemma WrapSmall(n: nat)
    requires n < U64
    ensures Wrap(n) == n
  {
  }

  lemma PaddedEndPlain(lp: nat, n: nat)
    requires lp + 64 + 2 * n + 64 < U64
    ensures Wrap(lp + 64 + Wrap(Wrap(n + 31) / 32 * 64)) == lp + 64 + Padded(n)
  {
    WrapSmall(n + 31);
    WrapSmall(Padded(n));
    WrapSmall(lp + 64 + Padded(n));
  }

  lemma PlainPositions(size: nat, start: nat, lp: nat)
    requires start <= size < MAX_INPUT && lp + 64 < U64
    ensures Wrap(lp + 64) == lp + 64
    ensures start + lp + 64 <= size ==>
      Wrap(start + lp) == start + lp && Wrap(size - start - lp - 64) == size - (start + lp) - 64
  {
  }

  /** A padded length that may fit is not changed by the wrap, and one that is rejected before does not fit. */
  lemma FitsPlain(size: nat, start: nat, lp: nat, n: nat)
    requires start + lp + 64 <= size < MAX_INPUT
    ensures var room, end := size - start, Wrap(lp + 64 + Wrap(Wrap(n + 31) / 32 * 64));
      if n <= (room - lp - 64) / 2 then end == lp + 64 + Padded(n) else start + lp + 64 + Padded(n) > size
  {
    if n <= (size - start - lp - 64) / 2 {
      PaddedEndPlain(lp, n);
    }
  }

  /** Nothing has wrapped on the way to the length word at digit `lp` behind `start`. */
  predicate InPlace(size: nat, start: nat, offset: nat, lp: nat) {
    && start <= size && lp == Wrap(offset * 2) && Wrap(lp + 64) == lp + 64
    && (start + lp + 64 <= size ==>
        Wrap(start + lp) == start + lp && Wrap(size - start - lp - 64) == size - start - lp - 64)
  }

  lemma UnreadTail(input: string, start: nat, offset: nat, lp: nat)
    requires InPlace(|input|, start, offset, lp)
    requires start + lp + 64 <= |input| ==> SizeOf(input[start + lp..start + lp + 64]).None?
    ensures DynamicEnd(input, start, offset) == Ok(None)
  {
  }

  lemma ReadTail(input: string, start: nat, offset: nat, lp: nat, n: nat, end: nat)
    requires InPlace(|input|, start, offset, lp)
    requires start + lp + 64 <= |input| && SizeOf(input[start + lp..start + lp + 64]) == Some(n)
    requires end == Wrap(lp + 64 + Wrap(Wrap(n + 31) / 32 * 64))
    ensures DynamicEnd(input, start, offset) ==
      if n > (|input| - start - lp - 64) / 2 || end > |input| - start then Ok(None) else Ok(Some(end))
  {
  }

  /** Away from the wrap, a tail is accepted exactly when its length word is readable and its padded content fits. */
  lemma DynamicEndPlain(input: string, start: nat, offset: nat)
    requires start <= |input| < MAX_INPUT && Wrap(offset * 2) + 64 < U64
    ensures var pos := start + Wrap(offset * 2);
      DynamicEnd(input, start, offset) ==
        if pos + 64 > |input| then Ok(None) else
          match SizeOf(input[pos..pos + 64])
          case None => Ok(None)
          case Some(n) =>
            if pos + 64 + Padded(n) <= |input| then Ok(Some(Wrap(offset * 2) + 64 + Padded(n))) else Ok(None)
  {
    var lp := Wrap(offset * 2);
    var pos := start + lp;
    PlainPositions(|input|, start, lp);
    if pos + 64 <= |input| && SizeOf(input[pos..pos + 64]).Some? {
      var n := SizeOf(input[pos..pos + 64]).value;
      var end := Wrap(lp + 64 + Wrap(Wrap(n + 31) / 32 * 64));
      FitsPlain(|input|, start, lp, n);
      ReadTail(input, start, offset, lp, n, end);
    } else {
      UnreadTail(input, start, offset, lp);
    }
  }

  /** The doubled offset that wraps to just before zero. */
  predicate WrapsBack(offset: nat) {
    Wrap(offset * 2) == U64 - 64
  }

  lemma WrappedSlice(input: string, start: nat, offset: nat)
    requires start <= |input| < MAX_INPUT && WrapsBack(offset)
    ensures DynamicEnd(input, start, offset).Thrown? <==> start < 64
  {
    assert Wrap(U64 - 64 + 64) == 0;
    assert Wrap(start + (U64 - 64)) == if start < 64 then start + (U64 - 64) else start - 64;
  }

  /**
   A tail's length word is looked for past the input exactly when its offset wraps back and the head is
   among the first 64 digits.
   */
  lemma SliceThrowsExactly(input: string, start: nat, offset: nat)
    requires start <= |input| < MAX_INPUT && offset % 32 == 0
    ensures DynamicEnd(input, start, offset).Thrown? <==> WrapsBack(offset) && start < 64
  {
    if WrapsBack(offset) {
      WrappedSlice(input, start, offset);
    } else {
      DoubledOffset(offset);
      DynamicEndPlain(input, start, offset);
    }
  }

  lemma DoubledOffset(offset: nat)
    requires offset % 32 == 0 && !WrapsBack(offset)
    ensures Wrap(offset * 2) + 64 < U64
  {
    assert (offset * 2) % 64 == 0;
    assert Wrap(offset * 2) % 64 == 0;
  }

  ghost predicate SomeTail(input: string, pos: nat) {
    exists n: nat :: TailAt(input, pos, n)
  }

  /** A tail is accepted exactly when it is there, unless its offset wraps back. */
  lemma TailAcceptedExactly(input: string, start: nat, offset: nat)
    requires start <= |input| < MAX_INPUT && offset % 32 == 0 && !WrapsBack(offset)
    ensures DynamicEnd(input, start, offset).Ok?
    ensures DynamicEnd(input, start, offset).value.Some? <==> SomeTail(input, start + Wrap(offset * 2))
  {
    var pos := start + Wrap(offset * 2);
    DoubledOffset(offset);
    DynamicEndPlain(input, start, offset);
    if pos + 64 <= |input| && SizeOf(input[pos..pos + 64]).Some? {
      var n := SizeOf(input[pos..pos + 64]).value;
      ReadsExactly(input[pos..pos + 64], n);
      assert SomeTail(input, pos) <==> TailAt(input, pos, n);
    } else if n: nat :| TailAt(input, pos, n) {
      ReadsExactly(input[pos..pos + 64], n);
    }
  }

  /**
   A head among the first 64 digits whose symbol offset wraps back, or whose url offset does behind a symbol
   that is there; the name is there in either case.
   */
  ghost predicate RunsPast(input: string, start: nat) {
    && start < 64 && start + 7 * 64 <= |input|
    && ProperHead(input, start) && SomeTail(input, start + 448)
    && var symbol, url := SymbolAt(input, start), UrlAt(input, start);
      WrapsBack(symbol) || (SomeTail(input, start + Wrap(symbol * 2)) && WrapsBack(url))
  }

  /** At one start, the exact condition for the exception. */
  lemma ThrowsExactly(input: string, start: nat)
    requires start + 7 * 64 <= |input| < MAX_INPUT
    ensures VerdictAt(input, start) == Throws <==> RunsPast(input, start)
  {
    HeadExactly(input, start);
    if HeadAt(input, start).Some? {
      var h := HeadAt(input, start).value;
      WrapSmall(7 * 32 * 2);
      TailAcceptedExactly(input, start, h.name);
      SliceThrowsExactly(input, start, h.symbol);
      SliceThrowsExactly(input, start, h.url);
      if !WrapsBack(h.symbol) {
        TailAcceptedExactly(input, start, h.symbol);
      }
    }
  }

  /** The three ends of accepted tails; each is where the next offset points. */
  lemma MatchingEnds(input: string, start: nat, h: Head) returns (nameEnd: nat, symbolEnd: nat)
    requires start <= |input| && TailsVerdict(input, start, h) == Match
    ensures DynamicEnd(input, start, h.name) == Ok(Some(nameEnd)) && nameEnd == Wrap(h.symbol * 2)
    ensures DynamicEnd(input, start, h.symbol) == Ok(Some(symbolEnd)) && symbolEnd == Wrap(h.url * 2)
    ensures DynamicEnd(input, start, h.url) == Ok(Some(|input| - start))
  {
    nameEnd := DynamicEnd(input, start, h.name).value.value;
    symbolEnd := DynamicEnd(input, start, h.symbol).value.value;
  }

  lemma EndToEnd(input: string, start: nat, p2: nat, p3: nat, a: nat, b: nat, c: nat)
    requires TailAt(input, start + 448, a) && TailAt(input, start + p2, b) && TailAt(input, start + p3, c)
    requires p2 == 448 + 64 + Padded(a) && p3 == p2 + 64 + Padded(b) && start + p3 + 64 + Padded(c) == |input|
    ensures ThreeTails(input, start + 448, a, b, c)
  {
    assert start + p2 == start + 448 + 64 + Padded(a);
    assert start + p3 == start + p2 + 64 + Padded(b);
  }

  lemma TailsAreThree(input: string, start: nat, h: Head) returns (a: nat, b: nat, c: nat)
    requires start + 7 * 64 <= |input| < MAX_INPUT && h.name == 7 * 32 && TailsVerdict(input, start, h) == Match
    ensures ThreeTails(input, start + 448, a, b, c)
    ensures Wrap(h.symbol * 2) == 448 + 64 + Padded(a) && Wrap(h.url * 2) == 448 + 64 + Padded(a) + 64 + Padded(b)
  {
    var nameEnd, symbolEnd := MatchingEnds(input, start, h);
    WrapSmall(h.name * 2);
    a := EndedTail(input, start, h.name, nameEnd);
    b := EndedTail(input, start, h.symbol, symbolEnd);
    c := EndedTail(input, start, h.url, |input| - start);
    EndToEnd(input, start, nameEnd, symbolEnd, a, b, c);
  }

  /** Soundness: whatever is accepted has the layout. */
  lemma MatchHasLayout(input: string, start: nat) returns (a: nat, b: nat, c: nat)
    requires start + 7 * 64 <= |input| < MAX_INPUT && VerdictAt(input, start) == Match
    ensures Layout(input, start, a, b, c)
  {
    HeadExactly(input, start);
    a, b, c := TailsAreThree(input, start, HeadAt(input, start).value);
  }

  /** An accepted tail whose doubled offset lies inside the input stands where the offset says. */
  lemma EndedTail(input: string, start: nat, offset: nat, end: nat) returns (length: nat)
    requires start <= |input| < MAX_INPUT && Wrap(offset * 2) <= |input|
    requires DynamicEnd(input, start, offset) == Ok(Some(end))
    ensures TailAt(input, start + Wrap(offset * 2), length) && end == Wrap(offset * 2) + 64 + Padded(length)
    ensures start + end <= |input|
  {
    DynamicEndPlain(input, start, offset);
    var pos := start + Wrap(offset * 2);
    length := SizeOf(input[pos..pos + 64]).value;
    ReadsExactly(input[pos..pos + 64], length);
  }

  lemma TailEnds(input: string, start: nat, offset: nat, length: nat)
    requires start <= |input| < MAX_INPUT && TailAt(input, start + Wrap(offset * 2), length)
    ensures DynamicEnd(input, start, offset) == Ok(Some(Wrap(offset * 2) + 64 + Padded(length)))
  {
    var pos := start + Wrap(offset * 2);
    ReadsExactly(input[pos..pos + 64], length);
    DynamicEndPlain(input, start, offset);
  }

  lemma ThreeTailsMatch(input: string, start: nat, h: Head, a: nat, b: nat, c: nat)
    requires start + 7 * 64 <= |input| < MAX_INPUT && h.name == 7 * 32 && ThreeTails(input, start + 448, a, b, c)
    requires Wrap(h.symbol * 2) == 448 + 64 + Padded(a) && Wrap(h.url * 2) == 448 + 64 + Padded(a) + 64 + Padded(b)
    ensures TailsVerdict(input, start, h) == Match
  {
    WrapSmall(h.name * 2);
    TailEnds(input, start, h.name, a);
    TailEnds(input, start, h.symbol, b);
    TailEnds(input, start, h.url, c);
  }

  /** Completeness: whatever has the layout is accepted. */
  lemma LayoutMatches(input: string, start: nat, a: nat, b: nat, c: nat)
    requires start + 7 * 64 <= |input| < MAX_INPUT && Layout(input, start, a, b, c)
    ensures VerdictAt(input, start) == Match
  {
    HeadExactly(input, start);
    ThreeTailsMatch(input, start, HeadAt(input, start).value, a, b, c);
  }

  /** A start is accepted if and only if it has the layout. */
  lemma AcceptedExactly(input: string, start: nat)
    requires start + 7 * 64 <= |input| < MAX_INPUT
    ensures VerdictAt(input, start) == Match <==> exists a: nat, b: nat, c: nat :: Layout(input, start, a, b, c)
  {
    if VerdictAt(input, start) == Match {
      var a, b, c := MatchHasLayout(input, start);
      assert Layout(input, start, a, b, c);
    }
    if a: nat, b: nat, c: nat :| Layout(input, start, a, b, c) {
      LayoutMatches(input, start, a, b, c);
    }
  }

  /**
   The offsets of an accepted head are the true positions of its tails, modulo the 2^63 bytes a doubled
   size_t can tell apart.
   */
  lemma OffsetsPointAtTails(input: string, start: nat, a: nat, b: nat, c: nat)
    requires start + 7 * 64 <= |input| < MAX_INPUT && Layout(input, start, a, b, c)
    ensures SymbolAt(input, start) % (U64 / 2) == (448 + 64 + Padded(a)) / 2
    ensures UrlAt(input, start) % (U64 / 2) == (448 + 64 + Padded(a) + 64 + Padded(b)) / 2
  {
    HalfOfWrap(SymbolAt(input, start));
    HalfOfWrap(UrlAt(input, start));
  }

  lemma HalfOfWrap(n: nat)
    ensures n % (U64 / 2) == Wrap(n * 2) / 2
  {
    var q, r := n / (U64 / 2), n % (U64 / 2);
    assert n == q * (U64 / 2) + r;
    assert n * 2 == q * U64 + 2 * r;
    assert Wrap(n * 2) == 2 * r;
  }

  // ---- the whole scan ----

  ghost predicate SomeLayout(input: string, start: nat)
    requires start + 7 * 64 <= |input|
  {
    exists a: nat, b: nat, c: nat :: Layout(input, start, a, b, c)
  }

  /** The scan goes no further than an even start whose head runs past the input or has the layout. */
  ghost predicate EndsScan(input: string, start: nat) {
    start % 2 == 0 && start + 7 * 64 <= |input| && (RunsPast(input, start) || SomeLayout(input, start))
  }

  lemma StopsExactly(input: string, start: nat)
    requires |input| < MAX_INPUT
    ensures IsHit(input, start) <==> EndsScan(input, start)
  {
    if start + 7 * 64 <= |input| {
      ThrowsExactly(input, start);
      AcceptedExactly(input, start);
    }
  }

  ghost predicate NoStopBefore(input: string, start: nat) {
    forall s :: 0 <= s < start ==> !EndsScan(input, s)
  }

  /** Where the scan ends. */
  ghost predicate FirstStop(input: string, start: nat) {
    EndsScan(input, start) && NoStopBefore(input, start)
  }

  lemma FirstStopDecides(info: TxInfo, input: string, start: nat)
    requires |input| < MAX_INPUT && Lower(info.recipient) != "" && FirstStop(input, start)
    ensures IsHit(input, start) && Deployment(info, input) == StopAt(Lower(info.recipient), input, start)
  {
    StopsExactly(input, start);
    forall s | 0 <= s < start ensures !Hits(input)(s) {
      StopsExactly(input, s);
    }
    FirstIs(Hits(input), start);
  }

  /** Anything but "no transfer" comes from a first stop. */
  lemma ScanStopped(info: TxInfo, input: string) returns (start: nat)
    requires |input| < MAX_INPUT && Deployment(info, input) != Ok(None)
    ensures Lower(info.recipient) != "" && FirstStop(input, start)
  {
    start := First(Hits(input)).value;
    StopsExactly(input, start);
    forall s | 0 <= s < start ensures !EndsScan(input, s) {
      StopsExactly(input, s);
      assert !Hits(input)(s);
    }
  }

  ghost predicate StopsPast(input: string, start: nat) {
    FirstStop(input, start) && RunsPast(input, start)
  }

  lemma PastThrows(info: TxInfo, input: string, start: nat)
    requires |input| < MAX_INPUT && Lower(info.recipient) != "" && StopsPast(input, start)
    ensures Deployment(info, input) == Thrown
  {
    ThrowsExactly(input, start);
    FirstStopDecides(info, input, start);
  }

  /** The scan throws if and only if the first start it stops at has a head that runs past the input. */
  lemma DeploymentThrowsExactly(info: TxInfo, input: string)
    requires |input| < MAX_INPUT
    ensures Deployment(info, input) == Thrown <==>
      Lower(info.recipient) != "" && exists start: nat :: StopsPast(input, start)
  {
    if Deployment(info, input) == Thrown {
      var start := ScanStopped(info, input);
      FirstStopDecides(info, input, start);
      ThrowsExactly(input, start);
      assert StopsPast(input, start);
    }
    if start: nat :| Lower(info.recipient) != "" && StopsPast(input, start) {
      PastThrows(info, input, start);
    }
  }

  /** `start` is the first stop and has the layout around it; `t` carries its owner word and its supply, not zero. */
  ghost predicate MintedAt(contract: string, input: string, t: Transfer, start: nat) {
    && FirstStop(input, start) && SomeLayout(input, start)
    && var supply := input[start + 192..start + 256];
      && AllHex(supply) && HexValue(supply) > 0
      && t == Transfer(contract, "0x0000000000000000000000000000000000000000",
                       "0x" + input[start + 344..start + 384], Decimal(HexValue(supply)))
  }

  lemma MintExactly(contract: string, input: string, start: nat)
    requires start + 7 * 64 <= |input| && ZerosAt(input, start + 320, 24)
    ensures var supply := input[start + 192..start + 256];
      MintAt(contract, input, start) ==
        if AllHex(supply) && HexValue(supply) > 0 then
          Some(Transfer(contract, ZERO_ADDRESS, "0x" + input[start + 344..start + 384], Decimal(HexValue(supply))))
        else None
  {
    var supply := input[start + 192..start + 256];
    ZerosExactly(input, start + 320);
    assert input[start + 320..start + 384][24..] == input[start + 344..start + 384];
    if AllHex(supply) {
      DecimalZero(HexValue(supply));
    }
  }

  /** At the first stop the scan mints what the layout says, if there is one. */
  lemma MintsAtStop(info: TxInfo, input: string, t: Transfer, start: nat)
    requires |input| < MAX_INPUT && Lower(info.recipient) != "" && FirstStop(input, start)
    ensures Deployment(info, input) == Ok(Some(t)) <==> MintedAt(Lower(info.recipient), input, t, start)
  {
    FirstStopDecides(info, input, start);
    AcceptedExactly(input, start);
    if SomeLayout(input, start) {
      MintExactly(Lower(info.recipient), input, start);
    }
  }

  /**
   The scan mints exactly if the first start it stops at has the layout: a head followed by three tails that end
   where the input ends; it mints the supply word of that head to its owner word, unless the supply is zero.
   */
  lemma DeploymentMintsExactly(info: TxInfo, input: string, t: Transfer)
    requires |input| < MAX_INPUT
    ensures Deployment(info, input) == Ok(Some(t)) <==>
      Lower(info.recipient) != "" && exists start: nat :: MintedAt(Lower(info.recipient), input, t, start)
  {
    if Deployment(info, input) == Ok(Some(t)) {
      var start := ScanStopped(info, input);
      MintsAtStop(info, input, t, start);
      assert MintedAt(Lower(info.recipient), input, t, start);
    }
    if start: nat :| Lower(info.recipient) != "" && MintedAt(Lower(info.recipient), input, t, start) {
      MintsAtStop(info, input, t, start);
    }
  }

  /** Reading parameters throws for deployments only, and for those exactly when the scan does. */
  lemma ParametersThrowExactly(tx: Transaction, info: TxInfo)
    ensures ParameterTransfer(tx, info) == Thrown <==>
      tx.ty == 7 && Deployment(info, NormalizeHex(info.input)) == Thrown
  {
    if NormalizeHex(info.input) == "" {
      NothingToScan(info);
    }
  }

  lemma NothingToScan(info: TxInfo)
    ensures Deployment(info, "") != Thrown
  {
    assert forall n: nat :: !Hits("")(n);
  }

  lemma DeploymentStart(info: TxInfo, input: string, t: Transfer) returns (start: nat)
    requires Deployment(info, input) == Ok(Some(t))
    ensures IsHit(input, start) && VerdictAt(input, start) == Match
    ensures MintAt(Lower(info.recipient), input, start) == Some(t)
  {
    start := First(Hits(input)).value;
  }

  // ---- round trip ----

  datatype Ctor = Ctor(
    name: seq<Byte>, symbol: seq<Byte>, decimals: nat, supply: nat, url: seq<Byte>, owner: nat, manager: nat)

  /** Arguments of the types (string, string, uint8, uint256, string, address, address), with a positive supply. */
  ghost predicate ValidCtor(c: Ctor) {
    c.decimals < 256 && 0 < c.supply < WORD_LIMIT && c.owner < ADDRESS_LIMIT && c.manager < ADDRESS_LIMIT
  }

  function SymbolOffset(c: Ctor): nat {
    (448 + 64 + Padded(|c.name|)) / 2
  }

  function UrlOffset(c: Ctor): nat {
    (448 + 64 + Padded(|c.name|) + 64 + Padded(|c.symbol|)) / 2
  }

  /** Seven head words. */
  function HeadOf(
      name: nat, symbol: nat, decimals: nat, supply: nat, url: nat, owner: nat, manager: nat): (ws: seq<string>)
    ensures |ws| == 7 && AllWords(ws)
  {
    [Word(name), Word(symbol), Word(decimals), Word(supply), Word(url), Word(owner), Word(manager)]
  }

  function HeadWords(c: Ctor): (ws: seq<string>)
    ensures |ws| == 7 && AllWords(ws)
  {
    HeadOf(7 * 32, SymbolOffset(c), c.decimals, c.supply, UrlOffset(c), c.owner, c.manager)
  }

  function EncodeCtor(c: Ctor): string {
    Flat(HeadWords(c)) + (EncodeBytes(c.name) + EncodeBytes(c.symbol) + EncodeBytes(c.url))
  }

  lemma WordIsSize(n: nat)
    requires n < U64
    ensures SizeOf(Word(n)) == Some(n)
  {
    WordValue(n);
  }

  lemma TailStands(input: string, pos: nat, bs: seq<Byte>)
    requires pos + |EncodeBytes(bs)| <= |input| < MAX_INPUT
    requires input[pos..pos + |EncodeBytes(bs)|] == EncodeBytes(bs)
    ensures TailAt(input, pos, |bs|)
  {
    WordIsSize(|bs|);
    ReadsExactly(Word(|bs|), |bs|);
    assert input[pos..pos + 64] == EncodeBytes(bs)[..64] == Word(|bs|);
  }

  /** Seven words stand at `start`. */
  ghost predicate WordsStand(
      input: string, start: nat,
      name: nat, symbol: nat, decimals: nat, supply: nat, url: nat, owner: nat, manager: nat) {
    && start + 7 * 64 <= |input|
    && HeadWord(input, start, 0) == Word(name)
    && HeadWord(input, start, 1) == Word(symbol)
    && HeadWord(input, start, 2) == Word(decimals)
    && HeadWord(input, start, 3) == Word(supply)
    && HeadWord(input, start, 4) == Word(url)
    && HeadWord(input, start, 5) == Word(owner)
    && HeadWord(input, start, 6) == Word(manager)
  }

  /** The seven words of `c` stand at `start`. */
  ghost predicate HeadStands(input: string, start: nat, c: Ctor) {
    WordsStand(input, start, 7 * 32, SymbolOffset(c), c.decimals, c.supply, UrlOffset(c), c.owner, c.manager)
  }

  lemma EncodedHead(code: string, c: Ctor, post: string)
    ensures |Flat(HeadWords(c))| == 448
    ensures HeadStands(code + Flat(HeadWords(c)) + post, |code|, c)
  {
    SevenWords(code, HeadWords(c), post);
  }

  lemma SevenWords(code: string, ws: seq<string>, post: string)
    requires AllWords(ws) && |ws| == 7
    ensures |Flat(ws)| == 448
    ensures var input := code + Flat(ws) + post;
      && HeadWord(input, |code|, 0) == ws[0] && HeadWord(input, |code|, 1) == ws[1]
      && HeadWord(input, |code|, 2) == ws[2] && HeadWord(input, |code|, 3) == ws[3]
      && HeadWord(input, |code|, 4) == ws[4] && HeadWord(input, |code|, 5) == ws[5]
      && HeadWord(input, |code|, 6) == ws[6]
  {
    FlatLength(ws);
    forall i | 0 <= i < 7 ensures HeadWord(code + Flat(ws) + post, |code|, i) == ws[i] {
      WordAt(code, ws, post, i);
    }
  }

  lemma SizeStands(input: string, start: nat, i: nat, n: nat)
    requires i < 7 && start + 7 * 64 <= |input| && HeadWord(input, start, i) == Word(n) && n < U64
    ensures SizeOf(HeadWord(input, start, i)) == Some(n)
  {
    WordIsSize(n);
  }

  lemma AddressStands(input: string, start: nat, i: nat, n: nat)
    requires i < 7 && start + 7 * 64 <= |input| && HeadWord(input, start, i) == Word(n) && n < ADDRESS_LIMIT
    ensures IsAddressWord(HeadWord(input, start, i))
    ensures AddressFromWord(HeadWord(input, start, i)) == "0x" + ToHex(n, 40)
  {
    AddressWord(n);
  }

  lemma OffsetsAscend(c: Ctor)
    ensures 7 * 32 < SymbolOffset(c) < UrlOffset(c) && SymbolOffset(c) % 32 == 0 && UrlOffset(c) % 32 == 0
    ensures SymbolOffset(c) * 2 == 448 + 64 + Padded(|c.name|)
    ensures UrlOffset(c) * 2 == 448 + 64 + Padded(|c.name|) + 64 + Padded(|c.symbol|)
  {
    var name, symbol := Padded(|c.name|) / 64, Padded(|c.symbol|) / 64;
    assert Padded(|c.name|) == 64 * name && Padded(|c.symbol|) == 64 * symbol;
    assert SymbolOffset(c) == 32 * (8 + name) && UrlOffset(c) == 32 * (9 + name + symbol);
  }

  lemma HeadFromWords(input: string, start: nat, symbol: nat, decimals: nat, url: nat)
    requires start + 7 * 64 <= |input|
    requires SizeOf(HeadWord(input, start, 0)) == Some(7 * 32)
    requires SizeOf(HeadWord(input, start, 1)) == Some(symbol) && SizeOf(HeadWord(input, start, 4)) == Some(url)
    requires SizeOf(HeadWord(input, start, 2)) == Some(decimals) && decimals <= 255
    requires IsAddressWord(HeadWord(input, start, 5)) && IsAddressWord(HeadWord(input, start, 6))
    requires 7 * 32 < symbol < url && symbol % 32 == 0 && url % 32 == 0
    ensures HeadAt(input, start) == Some(Head(7 * 32, symbol, url))
  {
  }

  /** What is read from seven words of the right sizes. */
  lemma WordsRead(
      input: string, start: nat,
      name: nat, symbol: nat, decimals: nat, supply: nat, url: nat, owner: nat, manager: nat)
    requires WordsStand(input, start, name, symbol, decimals, supply, url, owner, manager)
    requires name == 7 * 32 < symbol < url < U64 && symbol % 32 == 0 && url % 32 == 0
    requires decimals <= 255 && owner < ADDRESS_LIMIT && manager < ADDRESS_LIMIT
    ensures HeadAt(input, start) == Some(Head(7 * 32, symbol, url))
  {
    SizeStands(input, start, 0, name);
    SizeStands(input, start, 1, symbol);
    SizeStands(input, start, 2, decimals);
    SizeStands(input, start, 4, url);
    AddressStands(input, start, 5, owner);
    AddressStands(input, start, 6, manager);
    HeadFromWords(input, start, symbol, decimals, url);
  }

  lemma HeadPasses(input: string, start: nat, c: Ctor)
    requires ValidCtor(c) && UrlOffset(c) < U64 && HeadStands(input, start, c)
    ensures HeadAt(input, start) == Some(Head(7 * 32, SymbolOffset(c), UrlOffset(c)))
  {
    OffsetsAscend(c);
    WordsRead(input, start, 7 * 32, SymbolOffset(c), c.decimals, c.supply, UrlOffset(c), c.owner, c.manager);
  }

  lemma ThreeSlices(pre: string, x: string, y: string, z: string)
    ensures var s := pre + (x + y + z);
      && s[|pre|..|pre| + |x|] == x
      && s[|pre| + |x|..|pre| + |x| + |y|] == y
      && s[|pre| + |x| + |y|..] == z
  {
  }

  lemma TailsStand(input: string, pos: nat, a: seq<Byte>, b: seq<Byte>, c: seq<Byte>)
    requires |input| < MAX_INPUT
    requires var p2 := pos + |EncodeBytes(a)|;
      var p3 := p2 + |EncodeBytes(b)|;
      && p3 + |EncodeBytes(c)| == |input|
      && input[pos..p2] == EncodeBytes(a) && input[p2..p3] == EncodeBytes(b) && input[p3..] == EncodeBytes(c)
    ensures ThreeTails(input, pos, |a|, |b|, |c|)
  {
    TailStands(input, pos, a);
    TailStands(input, pos + |EncodeBytes(a)|, b);
    assert input[pos + |EncodeBytes(a)| + |EncodeBytes(b)|..]
      == input[pos + |EncodeBytes(a)| + |EncodeBytes(b)|..|input|];
    TailStands(input, pos + |EncodeBytes(a)| + |EncodeBytes(b)|, c);
  }

  lemma EncodedTails(pre: string, a: seq<Byte>, b: seq<Byte>, c: seq<Byte>)
    requires |pre + (EncodeBytes(a) + EncodeBytes(b) + EncodeBytes(c))| < MAX_INPUT
    ensures ThreeTails(pre + (EncodeBytes(a) + EncodeBytes(b) + EncodeBytes(c)), |pre|, |a|, |b|, |c|)
  {
    ThreeSlices(pre, EncodeBytes(a), EncodeBytes(b), EncodeBytes(c));
    TailsStand(pre + (EncodeBytes(a) + EncodeBytes(b) + EncodeBytes(c)), |pre|, a, b, c);
  }

  lemma LayoutFromParts(input: string, start: nat, c: Ctor)
    requires ValidCtor(c) && HeadStands(input, start, c) && |input| < MAX_INPUT
    requires ThreeTails(input, start + 448, |c.name|, |c.symbol|, |c.url|)
    ensures Layout(input, start, |c.name|, |c.symbol|, |c.url|)
  {
    OffsetsAscend(c);
    assert UrlOffset(c) * 2 < |input|;
    HeadPasses(input, start, c);
    HeadExactly(input, start);
    WrapSmall(SymbolOffset(c) * 2);
    WrapSmall(UrlOffset(c) * 2);
  }

  lemma MintFromHead(contract: string, input: string, start: nat, c: Ctor)
    requires ValidCtor(c) && HeadStands(input, start, c)
    ensures MintAt(contract, input, start)
         == Some(Transfer(contract, ZERO_ADDRESS, "0x" + ToHex(c.owner, 40), Decimal(c.supply)))
  {
    assert HeadWord(input, start, 3) == Word(c.supply);
    assert HeadWord(input, start, 5) == Word(c.owner);
    AddressWord(c.owner);
    WordValue(c.supply);
    DecimalZero(c.supply);
  }

  /** The encoding puts head and tails behind any bytecode. */
  lemma EncodedParts(code: string, c: Ctor)
    requires |code + EncodeCtor(c)| < MAX_INPUT
    ensures HeadStands(code + EncodeCtor(c), |code|, c)
    ensures ThreeTails(code + EncodeCtor(c), |code| + 448, |c.name|, |c.symbol|, |c.url|)
  {
    var head := Flat(HeadWords(c));
    var tails := EncodeBytes(c.name) + EncodeBytes(c.symbol) + EncodeBytes(c.url);
    assert code + EncodeCtor(c) == code + head + tails;
    EncodedHead(code, c, tails);
    EncodedTails(code + head, c.name, c.symbol, c.url);
  }

  /** Hex digits of the encoded arguments. */
  function EncodedLength(c: Ctor): nat {
    448 + 64 + Padded(|c.name|) + 64 + Padded(|c.symbol|) + 64 + Padded(|c.url|)
  }

  lemma EncodingHasLength(c: Ctor)
    ensures |EncodeCtor(c)| == EncodedLength(c)
  {
    EncodedHead("", c, "");
  }

  lemma EncodingMatches(code: string, c: Ctor)
    requires ValidCtor(c) && |code| % 2 == 0 && |code + EncodeCtor(c)| < MAX_INPUT
    ensures HeadStands(code + EncodeCtor(c), |code|, c)
    ensures VerdictAt(code + EncodeCtor(c), |code|) == Match
  {
    var input := code + EncodeCtor(c);
    EncodedParts(code, c);
    LayoutFromParts(input, |code|, c);
    LayoutMatches(input, |code|, |c.name|, |c.symbol|, |c.url|);
  }

  /**
   Deployment round trip: behind any bytecode the encoded arguments are recognised, and what they announce
   is a mint of exactly the supply to exactly the owner. That is the result unless an earlier even start
   ends the scan: one whose head runs past the input or has the layout as well.
   */
  lemma DeploymentRoundTrip(info: TxInfo, code: string, c: Ctor)
    requires ValidCtor(c) && |code| % 2 == 0 && |code| + EncodedLength(c) < MAX_INPUT
    ensures EndsScan(code + EncodeCtor(c), |code|)
    ensures Lower(info.recipient) != "" && NoStopBefore(code + EncodeCtor(c), |code|) ==>
      Deployment(info, code + EncodeCtor(c))
        == Ok(Some(Transfer(Lower(info.recipient), ZERO_ADDRESS, "0x" + ToHex(c.owner, 40), Decimal(c.supply))))
  {
    var input := code + EncodeCtor(c);
    EncodingHasLength(c);
    EncodingMatches(code, c);
    MintFromHead(Lower(info.recipient), input, |code|, c);
    StopsExactly(input, |code|);
    if Lower(info.recipient) != "" && NoStopBefore(input, |code|) {
      FirstStopDecides(info, input, |code|);
    }
  }

  // ---- an input that throws ----

  /** A head whose symbol offset wraps back, with one more word for an empty name, throws. */
  lemma WrappingHeadThrows(info: TxInfo, input: string, symbol: nat, url: nat)
    requires |input| == 512 && HeadAt(input, 0) == Some(Head(7 * 32, symbol, url)) && WrapsBack(symbol)
    requires SizeOf(input[448..512]) == Some(0) && Lower(info.recipient) != ""
    ensures Deployment(info, input) == Thrown
  {
    ReadsExactly(input[448..512], 0);
    HeadExactly(input, 0);
    assert TailAt(input, 448, 0);
    assert SomeTail(input, 448);
    assert StopsPast(input, 0);
    PastThrows(info, input, 0);
  }

  lemma EightWords(
      name: nat, symbol: nat, decimals: nat, supply: nat, url: nat, owner: nat, manager: nat, last: string)
    returns (input: string)
    requires |last| == 64
    ensures |input| == 512 && input[448..512] == last
    ensures WordsStand(input, 0, name, symbol, decimals, supply, url, owner, manager)
  {
    var ws := HeadOf(name, symbol, decimals, supply, url, owner, manager);
    input := Flat(ws) + last;
    assert input == "" + Flat(ws) + last;
    SevenWords("", ws, last);
  }

  lemma WrappingInput(symbol: nat, url: nat, supply: nat, name: nat, zero: nat) returns (input: string)
    requires name == 7 * 32 < symbol < url < U64 && symbol % 32 == 0 && url % 32 == 0 && zero == 0
    ensures |input| == 512 && HeadAt(input, 0) == Some(Head(7 * 32, symbol, url)) && SizeOf(input[448..512]) == Some(0)
  {
    input := EightWords(name, symbol, zero, supply, url, zero, zero, Word(zero));
    WordsRead(input, 0, name, symbol, zero, supply, url, zero, zero);
    WordIsSize(zero);
  }

  /** For every contract there is an input that throws: eight words with the offsets 2^63 - 32 and 2^63. */
  lemma SomeInputThrows(info: TxInfo)
    requires Lower(info.recipient) != ""
    ensures exists input: string :: |input| == 512 && Deployment(info, input) == Thrown
  {
    var symbol, url := 0x7FFF_FFFF_FFFF_FFE0, 0x8000_0000_0000_0000;
    assert WrapsBack(symbol);
    var input := WrappingInput(symbol, url, 1, 7 * 32, 0);
    WrappingHeadThrows(info, input, symbol, url);
  }
}
