/**
 Reading an ERC-20 movement out of transaction parameters: the seven-argument constructor appended
 to deployment bytecode, and the four call selectors. Offsets are size_t and wrap as such.
 */
module Erc20Parser {
  import opened Wrappers
  import opened Text
  import opened Chain
  import opened Abi

  /** Accounts are "0x" and 40 digits, the amount is decimal text. */
  datatype Transfer = Transfer(contract: string, from: string, to: string, amount: string)

  // ---- words ----

  function NormalizeHex(value: string): (s: string)
    ensures AllLowerHex(s) && AllHex(s)
  {
    var v := Lower(value);
    var w := if StartsWith(v, "0x") then v[2..] else v;
    if AllHex(w) then
      assert AllLowerHex(w) by {
        forall i | 0 <= i < |w| ensures IsLowerHexDigit(w[i]) {
          var j := if StartsWith(v, "0x") then i + 2 else i;
          assert w[i] == v[j] == LowerChar(value[j]);
        }
      }
      w
    else ""
  }

  /** Decimal text of a hexadecimal number, "" if some character is no digit. */
  function DecOf(s: string): string {
    if AllHex(s) then Decimal(HexValue(s)) else ""
  }

  method HexToDec(value: string) returns (r: string)
    ensures r == DecOf(value)
  {
    var number: nat := 0;
    var i := 0;
    while i < |value|
      invariant i <= |value| && AllHex(value[..i])
      invariant number == HexValue(value[..i])
    {
      var c := value[i];
      if !IsHexDigit(c) {
        return "";
      }
      assert value[..i + 1] == value[..i] + [c];
      assert value[..i + 1][..i] == value[..i];
      number := number * 16 + DigitValue(c);
      i := i + 1;
    }
    assert value[..i] == value;
    r := Decimal(number);
  }

  /** The number in a full lower-case word, if it fits a size_t. */
  function SizeOf(word: string): Option<nat> {
    if |word| == 64 && AllLowerHex(word) && AllHex(word) && HexValue(word) < U64 then Some(HexValue(word)) else None
  }

  method WordToSize(word: string) returns (r: Option<nat>)
    ensures r == SizeOf(word)
  {
    if |word| != 64 {
      return None;
    }
    var value: nat := 0;
    var i := 0;
    while i < |word|
      invariant i <= |word| && AllHex(word[..i]) && AllLowerHex(word[..i])
      invariant value == HexValue(word[..i])
    {
      var c := word[i];
      if !IsLowerHexDigit(c) {
        return None;
      }
      assert word[..i + 1] == word[..i] + [c];
      assert word[..i + 1][..i] == word[..i];
      value := value * 16 + DigitValue(c);
      i := i + 1;
    }
    assert word[..i] == word;
    return if value < U64 then Some(value) else None;
  }

  predicate IsAddressWord(word: string) {
    |word| == 64 && AllZeros(word[..24])
  }

  function AddressFromWord(word: string): string {
    if IsAddressWord(word) then "0x" + word[24..] else ""
  }

  lemma AddressWord(n: nat)
    requires n < ADDRESS_LIMIT
    ensures IsAddressWord(Word(n)) && AddressFromWord(Word(n)) == "0x" + ToHex(n, 40)
  {
    Pow16();
    ToHexSplit(n, 24, 40);
    assert Word(n) == Zeros(24) + ToHex(n, 40);
    assert Word(n)[..24] == Zeros(24) && Word(n)[24..] == ToHex(n, 40);
  }

  // ---- deployment: what one candidate start means ----

  /** std::string::substr: throws past the end, clips at it. */
  function Substr(s: string, pos: nat, n: nat): Outcome<string> {
    if pos > |s| then Thrown
    else if pos + n > |s| then Ok(s[pos..])
    else Ok(s[pos..pos + n])
  }

  function HeadWord(input: string, start: nat, i: nat): string
    requires start + 7 * 64 <= |input| && i < 7
  {
    input[start + i * 64..start + i * 64 + 64]
  }

  /** The three offsets of a head that passes the fixed checks. */
  datatype Head = Head(name: nat, symbol: nat, url: nat)

  function HeadAt(input: string, start: nat): Option<Head>
    requires start + 7 * 64 <= |input|
  {
    match (SizeOf(HeadWord(input, start, 0)), SizeOf(HeadWord(input, start, 1)),
           SizeOf(HeadWord(input, start, 2)), SizeOf(HeadWord(input, start, 4)))
    case (Some(name), Some(symbol), Some(decimals), Some(url)) =>
      if name == 7 * 32 && decimals <= 255
         && IsAddressWord(HeadWord(input, start, 5)) && IsAddressWord(HeadWord(input, start, 6))
         && name < symbol < url && name % 32 == 0 && symbol % 32 == 0 && url % 32 == 0
      then Some(Head(name, symbol, url)) else None
    case _ => None
  }

  /** Where the dynamic tail at `offset` ends, in hex digits from `start`; None where the source rejects it. */
  function DynamicEnd(input: string, start: nat, offset: nat): Outcome<Option<nat>>
    requires start <= |input|
  {
    var abiHexSize := |input| - start;
    var lengthPos := Wrap(offset * 2);
    if Wrap(lengthPos + 64) > abiHexSize then Ok(None) else
      match Substr(input, Wrap(start + lengthPos), 64)
      case Thrown => Thrown
      case Ok(word) =>
        match SizeOf(word)
        case None => Ok(None)
        case Some(length) =>
          if length > Wrap(abiHexSize - lengthPos - 64) / 2 then Ok(None) else
            var paddedEnd := Wrap(lengthPos + 64 + Wrap(Wrap(length + 31) / 32 * 64));
            if paddedEnd <= abiHexSize then Ok(Some(paddedEnd)) else Ok(None)
  }

  /** What the loop does with one start. */
  datatype Verdict = Skip | Match | Throws

  function VerdictAt(input: string, start: nat): Verdict
    requires start + 7 * 64 <= |input|
  {
    match HeadAt(input, start)
    case None => Skip
    case Some(h) => TailsVerdict(input, start, h)
  }

  function TailsVerdict(input: string, start: nat, h: Head): Verdict
    requires start <= |input|
  {
    match DynamicEnd(input, start, h.name)
    case Thrown => Throws
    case Ok(None) => Skip
    case Ok(Some(nameEnd)) =>
      match DynamicEnd(input, start, h.symbol)
      case Thrown => Throws
      case Ok(None) => Skip
      case Ok(Some(symbolEnd)) =>
        match DynamicEnd(input, start, h.url)
        case Thrown => Throws
        case Ok(None) => Skip
        case Ok(Some(urlEnd)) =>
          if nameEnd == Wrap(h.symbol * 2) && symbolEnd == Wrap(h.url * 2) && urlEnd == |input| - start then Match
          else Skip
  }

  /** The mint announced by the head at `start`; a zero supply announces none. */
  function MintAt(contract: string, input: string, start: nat): Option<Transfer>
    requires start + 7 * 64 <= |input|
  {
    var amount := DecOf(HeadWord(input, start, 3));
    var owner := AddressFromWord(HeadWord(input, start, 5));
    if amount == "" || amount == "0" || owner == "" then None
    else Some(Transfer(contract, ZERO_ADDRESS, owner, amount))
  }

  /** An even start that the loop does not pass over. */
  predicate IsHit(input: string, start: nat) {
    start % 2 == 0 && start + 7 * 64 <= |input| && VerdictAt(input, start) != Skip
  }

  function Hits(input: string): nat -> bool {
    (start: nat) => IsHit(input, start)
  }

  ghost predicate IsFirst(hit: nat -> bool, n: nat) {
    hit(n) && forall m: nat :: hit(m) ==> n <= m
  }

  /** The least position with property `hit`. */
  ghost function First(hit: nat -> bool): Option<nat> {
    if n: nat :| IsFirst(hit, n) then Some(n) else None
  }

  lemma FirstIs(hit: nat -> bool, n: nat)
    requires IsFirst(hit, n)
    ensures First(hit) == Some(n)
  {
  }

  /** What the loop returns when it stops at a hit. */
  function StopAt(contract: string, input: string, start: nat): Outcome<Option<Transfer>>
    requires start + 7 * 64 <= |input|
  {
    if VerdictAt(input, start) == Throws then Thrown else Ok(MintAt(contract, input, start))
  }

  /** The first hit decides; without one there is no mint. */
  ghost function Deployment(info: TxInfo, input: string): Outcome<Option<Transfer>> {
    var contract := Lower(info.recipient);
    if contract == "" then Ok(None) else
      match First(Hits(input))
      case None => Ok(None)
      case Some(start) => StopAt(contract, input, start)
  }

  // ---- deployment: the loop ----

  method ReadHead(input: string, start: nat) returns (h: Option<Head>)
    requires start + 7 * 64 <= |input|
    ensures h == HeadAt(input, start)
  {
    var name := WordToSize(HeadWord(input, start, 0));
    if name != Some(7 * 32) { return None; }
    var symbol := WordToSize(HeadWord(input, start, 1));
    if symbol.None? { return None; }
    var decimals := WordToSize(HeadWord(input, start, 2));
    if decimals.None? || decimals.value > 255 { return None; }
    var url := WordToSize(HeadWord(input, start, 4));
    if url.None? || !IsAddressWord(HeadWord(input, start, 5)) || !IsAddressWord(HeadWord(input, start, 6))
       || !(name.value < symbol.value && symbol.value < url.value)
       || name.value % 32 != 0 || symbol.value % 32 != 0 || url.value % 32 != 0
    {
      return None;
    }
    return Some(Head(name.value, symbol.value, url.value));
  }

  method ReadDynamicEnd(input: string, start: nat, offset: nat) returns (r: Outcome<Option<nat>>)
    requires start <= |input|
    ensures r == DynamicEnd(input, start, offset)
  {
    var abiHexSize := |input| - start;
    var lengthPos := Wrap(offset * 2);
    if Wrap(lengthPos + 64) > abiHexSize { return Ok(None); }
    var word := Substr(input, Wrap(start + lengthPos), 64);
    if word.Thrown? { return Thrown; }
    var length := WordToSize(word.value);
    if length.None? { return Ok(None); }
    if length.value > Wrap(abiHexSize - lengthPos - 64) / 2 { return Ok(None); }
    var padded := Wrap(Wrap(length.value + 31) / 32 * 64);
    var paddedEnd := Wrap(lengthPos + 64 + padded);
    return if paddedEnd <= abiHexSize then Ok(Some(paddedEnd)) else Ok(None);
  }

  method ReadTails(input: string, start: nat, h: Head) returns (v: Verdict)
    requires start <= |input|
    ensures v == TailsVerdict(input, start, h)
  {
    var nameEnd := ReadDynamicEnd(input, start, h.name);
    if nameEnd.Thrown? { return Throws; }
    if nameEnd.value.None? { return Skip; }
    var symbolEnd := ReadDynamicEnd(input, start, h.symbol);
    if symbolEnd.Thrown? { return Throws; }
    if symbolEnd.value.None? { return Skip; }
    var urlEnd := ReadDynamicEnd(input, start, h.url);
    if urlEnd.Thrown? { return Throws; }
    if urlEnd.value.None? || nameEnd.value.value != Wrap(h.symbol * 2)
       || symbolEnd.value.value != Wrap(h.url * 2) || urlEnd.value.value != |input| - start
    {
      return Skip;
    }
    return Match;
  }

  method Probe(input: string, start: nat) returns (v: Verdict)
    requires start + 7 * 64 <= |input|
    ensures v == VerdictAt(input, start)
  {
    var h := ReadHead(input, start);
    if h.None? { return Skip; }
    v := ReadTails(input, start, h.value);
  }

  method ReadMint(contract: string, input: string, start: nat) returns (r: Option<Transfer>)
    requires start + 7 * 64 <= |input|
    ensures r == MintAt(contract, input, start)
  {
    var amount := HexToDec(HeadWord(input, start, 3));
    var owner := AddressFromWord(HeadWord(input, start, 5));
    if amount == "" || amount == "0" || owner == "" { return None; }
    return Some(Transfer(contract, ZERO_ADDRESS, owner, amount));
  }

  method ParseDeployment(info: TxInfo, input: string) returns (r: Outcome<Option<Transfer>>)
    ensures r == Deployment(info, input)
  {
    var contract := Lower(info.recipient);
    if contract == "" || |input| < 7 * 64 {
      return Ok(None);
    }
    ghost var hit := Hits(input);
    var start := 0;
    while start + 7 * 64 <= |input|
      invariant start % 2 == 0
      invariant forall s: nat :: hit(s) ==> start <= s && s % 2 == 0
      decreases |input| - start
    {
      var v := Probe(input, start);
      if v != Skip {
        FirstIs(hit, start);
        if v == Throws { return Thrown; }
        var mint := ReadMint(contract, input, start);
        return Ok(mint);
      }
      NextEven(hit, start);
      start := start + 2;
    }
    return Ok(None);
  }

  lemma NextEven(hit: nat -> bool, start: nat)
    requires start % 2 == 0 && !hit(start)
    requires forall s: nat :: hit(s) ==> start <= s && s % 2 == 0
    ensures forall s: nat :: hit(s) ==> start + 2 <= s && s % 2 == 0
  {
  }

  // ---- calls ----

  const TRANSFER: string := "a9059cbb"
  const TRANSFER_FROM: string := "23b872dd"
  const FLOW_IN: string := "388814b3"
  const FLOW_OUT: string := "8e0cb3c1"

  function Selector(input: string): string {
    if |input| >= 8 then input[..8] else ""
  }

  /** Argument word `i` of call data. */
  function Arg(input: string, i: nat): string
    requires |input| >= 8 + 64 * (i + 1)
  {
    input[8 + 64 * i..8 + 64 * i + 64]
  }

  function CallParts(contract: string, sender: string, input: string, callType: string): Option<Transfer> {
    if |input| >= 8 + 64 * 2 && Selector(input) == TRANSFER then
      Some(Transfer(contract, sender, AddressFromWord(Arg(input, 0)), DecOf(Arg(input, 1))))
    else if |input| >= 8 + 64 * 3 && Selector(input) == TRANSFER_FROM then
      Some(Transfer(contract, AddressFromWord(Arg(input, 0)), AddressFromWord(Arg(input, 1)), DecOf(Arg(input, 2))))
    else if |input| >= 8 + 64 && Selector(input) == FLOW_IN && callType == "FlowInTx" then
      Some(Transfer(contract, sender, ZERO_ADDRESS, DecOf(Arg(input, 0))))
    else if |input| >= 8 + 64 * 2 && Selector(input) == FLOW_OUT && callType == "FlowOutTx" then
      Some(Transfer(contract, ZERO_ADDRESS, AddressFromWord(Arg(input, 0)), DecOf(Arg(input, 1))))
    else None
  }

  function Call(tx: Transaction, info: TxInfo, input: string): Option<Transfer> {
    var contract, sender := Lower(info.recipient), Lower(info.sender.GetOr(tx.identity));
    if contract == "" then None else
      match CallParts(contract, sender, input, info.callType)
      case None => None
      case Some(t) => if t.from == "" || t.to == "" || t.amount == "" || t.amount == "0" then None else Some(t)
  }

  ghost function ParameterTransfer(tx: Transaction, info: TxInfo): Outcome<Option<Transfer>> {
    var input := NormalizeHex(info.input);
    if (tx.ty != 7 && tx.ty != 8) || input == "" then Ok(None)
    else if tx.ty == 7 then Deployment(info, input)
    else Ok(Call(tx, info, input))
  }

  method ParseErc20ParameterTransfer(tx: Transaction, info: TxInfo) returns (r: Outcome<Option<Transfer>>)
    ensures r == ParameterTransfer(tx, info)
  {
    if tx.ty != 7 && tx.ty != 8 { return Ok(None); }
    var input := NormalizeHex(info.input);
    if input == "" { return Ok(None); }
    if tx.ty == 7 {
      r := ParseDeployment(info, input);
      return;
    }
    var contract := Lower(info.recipient);
    var sender := Lower(info.sender.GetOr(tx.identity));
    if contract == "" { return Ok(None); }
    var from, to, amount := "", "", "";
    if |input| >= 8 + 64 * 2 && input[..8] == TRANSFER {
      from := sender;
      to := AddressFromWord(input[8..8 + 64]);
      amount := HexToDec(input[8 + 64..8 + 64 * 2]);
    } else if |input| >= 8 + 64 * 3 && input[..8] == TRANSFER_FROM {
      from := AddressFromWord(input[8..8 + 64]);
      to := AddressFromWord(input[8 + 64..8 + 64 * 2]);
      amount := HexToDec(input[8 + 64 * 2..8 + 64 * 3]);
    } else if |input| >= 8 + 64 && input[..8] == FLOW_IN && info.callType == "FlowInTx" {
      from := sender;
      to := ZERO_ADDRESS;
      amount := HexToDec(input[8..8 + 64]);
    } else if |input| >= 8 + 64 * 2 && input[..8] == FLOW_OUT && info.callType == "FlowOutTx" {
      from := ZERO_ADDRESS;
      to := AddressFromWord(input[8..8 + 64]);
      amount := HexToDec(input[8 + 64..8 + 64 * 2]);
    } else {
      return Ok(None);
    }
    if from == "" || to == "" || amount == "" || amount == "0" { return Ok(None); }
    return Ok(Some(Transfer(contract, from, to, amount)));
  }
}
