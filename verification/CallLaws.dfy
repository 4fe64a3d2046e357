/**
 Round trips of the ERC-20 and flow calls (EIP-20, section "Methods"), and agreement between the
 decoders.
 */
module CallLaws {
  import opened Wrappers
  import opened Text
  import opened Chain
  import opened Abi
  import opened Erc20Parser
  import opened DeploymentLaws
  import opened FundParser

  // ---- call data ----

  function CallData(selector: string, ws: seq<string>, tail: string): string {
    selector + Flat(ws) + tail
  }

  lemma CallArg(selector: string, ws: seq<string>, tail: string, i: nat)
    requires |selector| == 8 && AllWords(ws) && i < |ws|
    ensures var data := CallData(selector, ws, tail);
      |data| >= 8 + 64 * |ws| && Selector(data) == selector && Arg(data, i) == ws[i]
  {
    WordAt(selector, ws, tail, i);
    assert CallData(selector, ws, tail)[..8] == selector;
  }

  /** An amount prints exactly, never as "" or "0", and within the 78 digits of its column. */
  lemma AmountText(n: nat)
    requires 0 < n < WORD_LIMIT
    ensures DecOf(Word(n)) == Decimal(n) && Decimal(n) != "" && Decimal(n) != "0" && |Decimal(n)| <= 78
  {
    WordValue(n);
    WordPrintsShort(Word(n));
    DecimalZero(n);
  }

  /** Lower-case hexadecimal text is its own normal form, with or without a "0x" or "0X" in front. */
  lemma NormalForm(data: string)
    requires AllLowerHex(data)
    ensures NormalizeHex(data) == data && NormalizeHex("0x" + data) == data && NormalizeHex("0X" + data) == data
  {
    LowerHexFixed(data);
    assert !StartsWith(data, "0x") by {
      if |data| > 1 { assert IsLowerHexDigit(data[1]); }
    }
    assert Lower("0x" + data) == "0x" + Lower(data);
    assert Lower("0X" + data) == "0x" + Lower(data);
  }

  ghost predicate CallOf(tx: Transaction, info: TxInfo, data: string) {
    tx.ty == 8 && NormalizeHex(info.input) == data && info.recipient != ""
  }

  /** What the selector branch yields is the result, if every part of it is there. */
  lemma CallYields(tx: Transaction, info: TxInfo, data: string, t: Transfer)
    requires CallOf(tx, info, data) && data != ""
    requires CallParts(Lower(info.recipient), Lower(info.sender.GetOr(tx.identity)), data, info.callType) == Some(t)
    requires t.from != "" && t.to != "" && t.amount != "" && t.amount != "0"
    ensures ParameterTransfer(tx, info) == Ok(Some(t))
  {
    assert Lower(info.recipient) != "";
  }

  lemma SelectorsDiffer()
    ensures TRANSFER_FROM != TRANSFER && FLOW_IN != TRANSFER && FLOW_OUT != TRANSFER
    ensures FLOW_IN != TRANSFER_FROM && FLOW_OUT != TRANSFER_FROM && FLOW_OUT != FLOW_IN
  {
    assert TRANSFER[0] == 'a' && TRANSFER_FROM[0] == '2' && FLOW_IN[0] == '3' && FLOW_OUT[0] == '8';
  }

  lemma TransferParts(contract: string, sender: string, callType: string, to: nat, amount: nat, tail: string)
    requires to < ADDRESS_LIMIT && 0 < amount < WORD_LIMIT
    ensures CallParts(contract, sender, CallData(TRANSFER, [Word(to), Word(amount)], tail), callType)
         == Some(Transfer(contract, sender, "0x" + ToHex(to, 40), Decimal(amount)))
  {
    CallArg(TRANSFER, [Word(to), Word(amount)], tail, 0);
    CallArg(TRANSFER, [Word(to), Word(amount)], tail, 1);
    AddressWord(to);
    AmountText(amount);
  }

  lemma TransferFromParts(
      contract: string, sender: string, callType: string, from: nat, to: nat, amount: nat, tail: string)
    requires from < ADDRESS_LIMIT && to < ADDRESS_LIMIT && 0 < amount < WORD_LIMIT
    ensures CallParts(contract, sender, CallData(TRANSFER_FROM, [Word(from), Word(to), Word(amount)], tail), callType)
         == Some(Transfer(contract, "0x" + ToHex(from, 40), "0x" + ToHex(to, 40), Decimal(amount)))
  {
    var ws := [Word(from), Word(to), Word(amount)];
    SelectorsDiffer();
    CallArg(TRANSFER_FROM, ws, tail, 0);
    CallArg(TRANSFER_FROM, ws, tail, 1);
    CallArg(TRANSFER_FROM, ws, tail, 2);
    AddressWord(from);
    AddressWord(to);
    AmountText(amount);
  }

  lemma FlowInParts(contract: string, sender: string, amount: nat, tail: string)
    requires 0 < amount < WORD_LIMIT
    ensures CallParts(contract, sender, CallData(FLOW_IN, [Word(amount)], tail), "FlowInTx")
         == Some(Transfer(contract, sender, ZERO_ADDRESS, Decimal(amount)))
  {
    SelectorsDiffer();
    CallArg(FLOW_IN, [Word(amount)], tail, 0);
    AmountText(amount);
  }

  lemma FlowOutParts(contract: string, sender: string, to: nat, amount: nat, tail: string)
    requires to < ADDRESS_LIMIT && 0 < amount < WORD_LIMIT
    ensures CallParts(contract, sender, CallData(FLOW_OUT, [Word(to), Word(amount)], tail), "FlowOutTx")
         == Some(Transfer(contract, ZERO_ADDRESS, "0x" + ToHex(to, 40), Decimal(amount)))
  {
    SelectorsDiffer();
    CallArg(FLOW_OUT, [Word(to), Word(amount)], tail, 0);
    CallArg(FLOW_OUT, [Word(to), Word(amount)], tail, 1);
    AddressWord(to);
    AmountText(amount);
  }

  lemma TransferRoundTrip(tx: Transaction, info: TxInfo, to: nat, amount: nat, tail: string)
    requires CallOf(tx, info, CallData(TRANSFER, [Word(to), Word(amount)], tail))
    requires to < ADDRESS_LIMIT && 0 < amount < WORD_LIMIT && info.sender.GetOr(tx.identity) != ""
    ensures ParameterTransfer(tx, info) == Ok(Some(Transfer(
      Lower(info.recipient), Lower(info.sender.GetOr(tx.identity)), "0x" + ToHex(to, 40), Decimal(amount))))
  {
    var contract, sender := Lower(info.recipient), Lower(info.sender.GetOr(tx.identity));
    TransferParts(contract, sender, info.callType, to, amount, tail);
    AmountText(amount);
    CallYields(tx, info, CallData(TRANSFER, [Word(to), Word(amount)], tail),
      Transfer(contract, sender, "0x" + ToHex(to, 40), Decimal(amount)));
  }

  lemma TransferFromRoundTrip(tx: Transaction, info: TxInfo, from: nat, to: nat, amount: nat, tail: string)
    requires CallOf(tx, info, CallData(TRANSFER_FROM, [Word(from), Word(to), Word(amount)], tail))
    requires from < ADDRESS_LIMIT && to < ADDRESS_LIMIT && 0 < amount < WORD_LIMIT
    ensures ParameterTransfer(tx, info) == Ok(Some(Transfer(
      Lower(info.recipient), "0x" + ToHex(from, 40), "0x" + ToHex(to, 40), Decimal(amount))))
  {
    var contract, sender := Lower(info.recipient), Lower(info.sender.GetOr(tx.identity));
    TransferFromParts(contract, sender, info.callType, from, to, amount, tail);
    AmountText(amount);
    CallYields(tx, info, CallData(TRANSFER_FROM, [Word(from), Word(to), Word(amount)], tail),
      Transfer(contract, "0x" + ToHex(from, 40), "0x" + ToHex(to, 40), Decimal(amount)));
  }

  lemma FlowInRoundTrip(tx: Transaction, info: TxInfo, amount: nat, tail: string)
    requires CallOf(tx, info, CallData(FLOW_IN, [Word(amount)], tail)) && info.callType == "FlowInTx"
    requires 0 < amount < WORD_LIMIT && info.sender.GetOr(tx.identity) != ""
    ensures ParameterTransfer(tx, info) == Ok(Some(Transfer(
      Lower(info.recipient), Lower(info.sender.GetOr(tx.identity)), ZERO_ADDRESS, Decimal(amount))))
  {
    var contract, sender := Lower(info.recipient), Lower(info.sender.GetOr(tx.identity));
    FlowInParts(contract, sender, amount, tail);
    AmountText(amount);
    CallYields(tx, info, CallData(FLOW_IN, [Word(amount)], tail),
      Transfer(contract, sender, ZERO_ADDRESS, Decimal(amount)));
  }

  lemma FlowOutRoundTrip(tx: Transaction, info: TxInfo, to: nat, amount: nat, tail: string)
    requires CallOf(tx, info, CallData(FLOW_OUT, [Word(to), Word(amount)], tail)) && info.callType == "FlowOutTx"
    requires to < ADDRESS_LIMIT && 0 < amount < WORD_LIMIT
    ensures ParameterTransfer(tx, info) == Ok(Some(Transfer(
      Lower(info.recipient), ZERO_ADDRESS, "0x" + ToHex(to, 40), Decimal(amount))))
  {
    var contract, sender := Lower(info.recipient), Lower(info.sender.GetOr(tx.identity));
    FlowOutParts(contract, sender, to, amount, tail);
    AmountText(amount);
    CallYields(tx, info, CallData(FLOW_OUT, [Word(to), Word(amount)], tail),
      Transfer(contract, ZERO_ADDRESS, "0x" + ToHex(to, 40), Decimal(amount)));
  }

  // ---- agreement of the two transfer decoders ----

  /** The two views of the input coincide except behind an upper-case prefix. */
  lemma InputsAgree(info: TxInfo)
    requires NormalizeHex(info.input) != ""
    ensures FundInput(info) == NormalizeHex(info.input) <==> !StartsWith(info.input, "0X")
    ensures StartsWith(info.input, "0X") ==> StartsWith(FundInput(info), "0x")
  {
    var i := info.input;
    assert Lower(i) != "";
    if StartsWith(i, "0x") {
      assert i[1] == 'x' && Lower(i)[..2] == "0x";
      assert Lower(i)[2..] == Lower(i[2..]);
    } else if StartsWith(i, "0X") {
      assert Lower(i)[..2] == "0x";
      assert |Lower(i)| != |Lower(i)[2..]|;
    } else {
      assert !StartsWith(Lower(i), "0x") by {
        if |i| >= 2 {
          assert Lower(i)[0] == LowerChar(i[0]) && Lower(i)[1] == LowerChar(i[1]);
          assert i[..2] != "0x" && i[..2] != "0X";
        }
      }
    }
  }

  /** What an accepted transfer was read from. */
  lemma AcceptedTransfer(tx: Transaction, info: TxInfo, t: Transfer)
    requires tx.ty == 8 && ParameterTransfer(tx, info) == Ok(Some(t))
    requires Selector(NormalizeHex(info.input)) == TRANSFER
    ensures var input := NormalizeHex(info.input);
      && |input| >= 8 + 64 * 2 && input[..8] == TRANSFER
      && IsAddressWord(Arg(input, 0)) && DecOf(Arg(input, 1)) != ""
      && t == Transfer(Lower(info.recipient), Lower(info.sender.GetOr(tx.identity)),
                       "0x" + Arg(input, 0)[24..], DecOf(Arg(input, 1)))
  {
    SelectorsDiffer();
  }

  /**
   Wherever the parameter parser accepts a transfer, the fund parser makes a record if and only if the
   input is not spelled with "0X", and then recipient and amount are equal and the other accounts are
   equal up to case.
   */
  lemma FundAgrees(tx: Transaction, t: Transfer)
    requires tx.ty == 8 && tx.info.Some? && ParameterTransfer(tx, tx.info.value) == Ok(Some(t))
    requires Selector(NormalizeHex(tx.info.value.input)) == TRANSFER
    ensures FundOf(tx).Some? <==> !StartsWith(tx.info.value.input, "0X")
    ensures FundOf(tx).Some? ==>
      var f := FundOf(tx).value;
      f.recipient == t.to && f.amount == t.amount && Lower(f.contract) == t.contract && Lower(f.sender) == t.from
  {
    var info := tx.info.value;
    AcceptedTransfer(tx, info, t);
    InputsAgree(info);
    if StartsWith(info.input, "0X") {
      assert FundInput(info)[1] == 'x' && TRANSFER[1] == '9';
    }
  }

  lemma FundReads(tx: Transaction, info: TxInfo, input: string, to: string, amount: string)
    requires tx.ty == 8 && tx.info == Some(info) && FundInput(info) == input
    requires |input| >= 8 + 64 + 64 && Selector(input) == TRANSFER && |to| == 64
    requires Arg(input, 0) == to && Arg(input, 1) == amount && DecOf(amount) != ""
    ensures FundOf(tx) == Some(FundRecord(
      tx.hash, info.sender.GetOr(tx.identity), "0x" + to[24..], info.recipient, DecOf(amount), tx.time))
  {
  }

  lemma FundWords(to: nat, amount: nat)
    requires to < ADDRESS_LIMIT && amount < WORD_LIMIT
    ensures "0x" + Word(to)[24..] == "0x" + ToHex(to, 40) && DecOf(Word(amount)) == Decimal(amount) != ""
  {
    AddressWord(to);
    WordValue(amount);
  }

  /** The fund parser reads an encoded transfer back as its recipient and its amount, zero included. */
  lemma FundRoundTrip(tx: Transaction, info: TxInfo, to: nat, amount: nat, tail: string)
    requires tx.ty == 8 && tx.info == Some(info) && !StartsWith(info.input, "0X")
    requires NormalizeHex(info.input) == CallData(TRANSFER, [Word(to), Word(amount)], tail)
    requires to < ADDRESS_LIMIT && amount < WORD_LIMIT
    ensures FundOf(tx) == Some(FundRecord(
      tx.hash, info.sender.GetOr(tx.identity), "0x" + ToHex(to, 40), info.recipient, Decimal(amount), tx.time))
  {
    var input := NormalizeHex(info.input);
    CallArg(TRANSFER, [Word(to), Word(amount)], tail, 0);
    CallArg(TRANSFER, [Word(to), Word(amount)], tail, 1);
    InputsAgree(info);
    FundWords(to, amount);
    FundReads(tx, info, input, Word(to), Word(amount));
  }

  // ---- everything that is accepted ----

  /** `amount` is the decimal text of a positive 256-bit number, which fits its 78-digit column. */
  ghost predicate IsAmount(amount: string) {
    |amount| <= 78 && exists n: nat :: 0 < n < WORD_LIMIT && amount == Decimal(n)
  }

  lemma WordAmount(word: string)
    requires |word| == 64 && DecOf(word) != "" && DecOf(word) != "0"
    ensures IsAmount(DecOf(word))
  {
    WordPrintsShort(word);
    HexBound(word);
    Pow16();
    DecimalZero(HexValue(word));
    assert DecOf(word) == Decimal(HexValue(word));
  }

  lemma CallAmount(contract: string, sender: string, input: string, callType: string, t: Transfer)
    requires CallParts(contract, sender, input, callType) == Some(t) && t.amount != "" && t.amount != "0"
    ensures IsAmount(t.amount) && t.contract == contract
  {
    var i := if Selector(input) == TRANSFER_FROM then 2 else if Selector(input) == FLOW_IN then 0 else 1;
    SelectorsDiffer();
    WordAmount(Arg(input, i));
  }

  /** Whatever the parameters announce names a contract and two accounts and moves a positive amount that fits. */
  lemma AcceptedIsWellFormed(tx: Transaction, info: TxInfo, t: Transfer)
    requires ParameterTransfer(tx, info) == Ok(Some(t))
    ensures t.contract == Lower(info.recipient) != "" && t.from != "" && t.to != "" && IsAmount(t.amount)
  {
    var input := NormalizeHex(info.input);
    if tx.ty == 7 {
      var start := DeploymentStart(info, input, t);
      WordAmount(HeadWord(input, start, 3));
    } else {
      CallAmount(Lower(info.recipient), Lower(info.sender.GetOr(tx.identity)), input, info.callType, t);
    }
  }

  // ---- which inputs are movements ----

  /** What is left of a text behind "0x" or "0X". */
  function Unprefixed(value: string): string {
    if |value| >= 2 && value[0] == '0' && (value[1] == 'x' || value[1] == 'X') then value[2..] else value
  }

  ghost predicate HexText(s: string) {
    forall c :: c in s ==> 48 <= c as int <= 57 || 65 <= c as int <= 70 || 97 <= c as int <= 102
  }

  /** The input is read if nothing but hexadecimal digits stands behind its prefix, with capitals 32 places up. */
  lemma NormalizeExactly(value: string)
    ensures var digits, data := Unprefixed(value), NormalizeHex(value);
      && (!HexText(digits) ==> data == "")
      && (HexText(digits) ==> |data| == |digits| && forall i :: 0 <= i < |digits| ==>
            data[i] as int == digits[i] as int + if 65 <= digits[i] as int <= 70 then 32 else 0)
  {
    var digits, low := Unprefixed(value), Lower(value);
    assert StartsWith(low, "0x") <==> digits != value by {
      if |value| >= 2 { assert low[0] == LowerChar(value[0]) && low[1] == LowerChar(value[1]); }
    }
    var w := if StartsWith(low, "0x") then low[2..] else low;
    forall i | 0 <= i < |digits| ensures w[i] == LowerChar(digits[i]) {
    }
    if HexText(digits) {
      forall i | 0 <= i < |w| ensures IsHexDigit(w[i]) {
        assert digits[i] in digits;
      }
    } else {
      var c :| c in digits && !(48 <= c as int <= 57 || 65 <= c as int <= 70 || 97 <= c as int <= 102);
      var i :| 0 <= i < |digits| && digits[i] == c;
      assert !IsHexDigit(w[i]);
    }
  }

  /** A word with twelve zero bytes in front, and the account in the rest of it. */
  ghost predicate AccountAt(data: string, pos: nat, account: string) {
    ZerosAt(data, pos, 24) && pos + 64 <= |data| && account == "0x" + data[pos + 24..pos + 64]
  }

  /** A word that is not zero, and its number in decimal. */
  ghost predicate AmountAt(data: string, pos: nat, amount: string) {
    && pos + 64 <= |data| && AllHex(data[pos..pos + 64])
    && HexValue(data[pos..pos + 64]) > 0 && amount == Decimal(HexValue(data[pos..pos + 64]))
  }

  /** transfer(address,uint256) */
  ghost predicate Transfers(sender: string, data: string, from: string, to: string, amount: string) {
    "a9059cbb" <= data && sender != "" && from == sender && AccountAt(data, 8, to) && AmountAt(data, 72, amount)
  }

  /** transferFrom(address,address,uint256) */
  ghost predicate TransfersFrom(data: string, from: string, to: string, amount: string) {
    "23b872dd" <= data && AccountAt(data, 8, from) && AccountAt(data, 72, to) && AmountAt(data, 136, amount)
  }

  /** A burn by the sender. */
  ghost predicate FlowsIn(
      sender: string, callType: string, data: string, from: string, to: string, amount: string) {
    && "388814b3" <= data && callType == "FlowInTx" && sender != "" && from == sender
    && to == "0x0000000000000000000000000000000000000000" && AmountAt(data, 8, amount)
  }

  /** A mint to an account. */
  ghost predicate FlowsOut(callType: string, data: string, from: string, to: string, amount: string) {
    && "8e0cb3c1" <= data && callType == "FlowOutTx"
    && from == "0x0000000000000000000000000000000000000000" && AccountAt(data, 8, to) && AmountAt(data, 72, amount)
  }

  /** The four calls that move anything, by their selectors and words. */
  ghost predicate Moves(sender: string, callType: string, data: string, from: string, to: string, amount: string) {
    || Transfers(sender, data, from, to, amount) || TransfersFrom(data, from, to, amount)
    || FlowsIn(sender, callType, data, from, to, amount) || FlowsOut(callType, data, from, to, amount)
  }

  ghost predicate CallMoves(tx: Transaction, info: TxInfo, t: Transfer) {
    && info.recipient != "" && t.contract == Lower(info.recipient)
    && Moves(Lower(info.sender.GetOr(tx.identity)), info.callType, NormalizeHex(info.input), t.from, t.to, t.amount)
  }

  lemma AccountExactly(data: string, pos: nat, account: string)
    requires pos + 64 <= |data|
    ensures AddressFromWord(data[pos..pos + 64]) == account && account != "" <==> AccountAt(data, pos, account)
  {
    ZerosExactly(data, pos);
    assert data[pos..pos + 64][24..] == data[pos + 24..pos + 64];
  }

  lemma AmountExactly(data: string, pos: nat, amount: string)
    requires pos + 64 <= |data|
    ensures DecOf(data[pos..pos + 64]) == amount && amount != "" && amount != "0" <==> AmountAt(data, pos, amount)
  {
    var w := data[pos..pos + 64];
    if AllHex(w) {
      DecimalZero(HexValue(w));
    }
  }

  lemma BySelector(data: string, selector: string)
    requires |selector| == 8
    ensures Selector(data) == selector <==> selector <= data
  {
  }

  /** Nothing is missing from a transfer, and its amount is not zero. */
  ghost predicate Whole(t: Transfer) {
    t.from != "" && t.to != "" && t.amount != "" && t.amount != "0"
  }

  /** A transfer is what its three parts are. */
  lemma ByParts(t: Transfer, from: string, to: string, amount: string, p: bool, q: bool, r: bool)
    requires (from == t.from && t.from != "" <==> p) && (to == t.to && t.to != "" <==> q)
    requires amount == t.amount && t.amount != "" && t.amount != "0" <==> r
    ensures Transfer(t.contract, from, to, amount) == t && Whole(t) <==> p && q && r
  {
  }

  lemma TransferReads(contract: string, sender: string, callType: string, data: string)
    requires "a9059cbb" <= data
    ensures CallParts(contract, sender, data, callType) ==
      if |data| < 136 then None else
        Some(Transfer(contract, sender, AddressFromWord(data[8..72]), DecOf(data[72..136])))
  {
    BySelector(data, TRANSFER);
    SelectorsDiffer();
  }

  lemma TransferExactly(contract: string, sender: string, callType: string, data: string, t: Transfer)
    requires t.contract == contract && "a9059cbb" <= data
    ensures CallParts(contract, sender, data, callType) == Some(t) && Whole(t)
      <==> Transfers(sender, data, t.from, t.to, t.amount)
  {
    TransferReads(contract, sender, callType, data);
    if |data| >= 136 {
      AccountExactly(data, 8, t.to);
      AmountExactly(data, 72, t.amount);
      ByParts(t, sender, AddressFromWord(data[8..72]), DecOf(data[72..136]),
        sender != "" && t.from == sender, AccountAt(data, 8, t.to), AmountAt(data, 72, t.amount));
    }
  }

  lemma TransferFromReads(contract: string, sender: string, callType: string, data: string)
    requires "23b872dd" <= data
    ensures CallParts(contract, sender, data, callType) ==
      if |data| < 200 then None else
        Some(Transfer(contract, AddressFromWord(data[8..72]), AddressFromWord(data[72..136]), DecOf(data[136..200])))
  {
    BySelector(data, TRANSFER_FROM);
    SelectorsDiffer();
  }

  lemma TransferFromExactly(contract: string, sender: string, callType: string, data: string, t: Transfer)
    requires t.contract == contract && "23b872dd" <= data
    ensures CallParts(contract, sender, data, callType) == Some(t) && Whole(t)
      <==> TransfersFrom(data, t.from, t.to, t.amount)
  {
    TransferFromReads(contract, sender, callType, data);
    if |data| >= 200 {
      AccountExactly(data, 8, t.from);
      AccountExactly(data, 72, t.to);
      AmountExactly(data, 136, t.amount);
      ByParts(t, AddressFromWord(data[8..72]), AddressFromWord(data[72..136]), DecOf(data[136..200]),
        AccountAt(data, 8, t.from), AccountAt(data, 72, t.to), AmountAt(data, 136, t.amount));
    }
  }

  lemma FlowInReads(contract: string, sender: string, callType: string, data: string)
    requires "388814b3" <= data
    ensures CallParts(contract, sender, data, callType) ==
      if |data| < 72 || callType != "FlowInTx" then None else
        Some(Transfer(contract, sender, ZERO_ADDRESS, DecOf(data[8..72])))
  {
    BySelector(data, FLOW_IN);
    SelectorsDiffer();
  }

  lemma FlowInExactly(contract: string, sender: string, callType: string, data: string, t: Transfer)
    requires t.contract == contract && "388814b3" <= data
    ensures CallParts(contract, sender, data, callType) == Some(t) && Whole(t)
      <==> FlowsIn(sender, callType, data, t.from, t.to, t.amount)
  {
    FlowInReads(contract, sender, callType, data);
    if |data| >= 72 && callType == "FlowInTx" {
      AmountExactly(data, 8, t.amount);
      ByParts(t, sender, ZERO_ADDRESS, DecOf(data[8..72]),
        sender != "" && t.from == sender, t.to == ZERO_ADDRESS, AmountAt(data, 8, t.amount));
    }
  }

  lemma FlowOutReads(contract: string, sender: string, callType: string, data: string)
    requires "8e0cb3c1" <= data
    ensures CallParts(contract, sender, data, callType) ==
      if |data| < 136 || callType != "FlowOutTx" then None else
        Some(Transfer(contract, ZERO_ADDRESS, AddressFromWord(data[8..72]), DecOf(data[72..136])))
  {
    BySelector(data, FLOW_OUT);
    SelectorsDiffer();
  }

  lemma FlowOutExactly(contract: string, sender: string, callType: string, data: string, t: Transfer)
    requires t.contract == contract && "8e0cb3c1" <= data
    ensures CallParts(contract, sender, data, callType) == Some(t) && Whole(t)
      <==> FlowsOut(callType, data, t.from, t.to, t.amount)
  {
    FlowOutReads(contract, sender, callType, data);
    if |data| >= 136 && callType == "FlowOutTx" {
      AccountExactly(data, 8, t.to);
      AmountExactly(data, 72, t.amount);
      ByParts(t, ZERO_ADDRESS, AddressFromWord(data[8..72]), DecOf(data[72..136]),
        t.from == ZERO_ADDRESS, AccountAt(data, 8, t.to), AmountAt(data, 72, t.amount));
    }
  }

  lemma PartsExactly(contract: string, sender: string, callType: string, data: string, t: Transfer)
    requires t.contract == contract
    ensures CallParts(contract, sender, data, callType) == Some(t) && Whole(t)
      <==> Moves(sender, callType, data, t.from, t.to, t.amount)
  {
    SelectorsDiffer();
    if TRANSFER <= data {
      TransferExactly(contract, sender, callType, data, t);
    } else if TRANSFER_FROM <= data {
      TransferFromExactly(contract, sender, callType, data, t);
    } else if FLOW_IN <= data {
      FlowInExactly(contract, sender, callType, data, t);
    } else if FLOW_OUT <= data {
      FlowOutExactly(contract, sender, callType, data, t);
    }
  }

  /**
   A call moves something exactly if it is one of the four, long enough, with proper accounts, a non-zero amount and,
   for the flows, their call type; every other call announces nothing.
   */
  lemma CallExactly(tx: Transaction, info: TxInfo)
    requires tx.ty == 8
    ensures forall t :: ParameterTransfer(tx, info) == Ok(Some(t)) <==> CallMoves(tx, info, t)
    ensures ParameterTransfer(tx, info) == Ok(None) <==> forall t :: !CallMoves(tx, info, t)
  {
    var contract, sender := Lower(info.recipient), Lower(info.sender.GetOr(tx.identity));
    var data := NormalizeHex(info.input);
    assert contract == "" <==> info.recipient == "";
    forall t ensures ParameterTransfer(tx, info) == Ok(Some(t)) <==> CallMoves(tx, info, t) {
      PartsExactly(contract, sender, info.callType, data, t.(contract := contract));
    }
    if ParameterTransfer(tx, info) != Ok(None) {
      var t := ParameterTransfer(tx, info).value.value;
      assert CallMoves(tx, info, t);
    }
  }

  /** Other types than deployments and calls announce nothing. */
  lemma OtherTypesAnnounceNothing(tx: Transaction, info: TxInfo)
    requires tx.ty != 7 && tx.ty != 8
    ensures ParameterTransfer(tx, info) == Ok(None)
  {
  }

  // ---- which calls are funds ----

  /**
   A fund record is made exactly of a transfer call, by its selector behind an optional lower-case "0x", with both words
   there and an amount in digits, zero included; the account word is not looked at.
   */
  lemma FundExactly(tx: Transaction, f: FundRecord)
    ensures FundOf(tx) == Some(f) <==>
      && tx.ty == 8 && tx.info.Some?
      && var i := tx.info.value;
        var data := Lower(if "0x" <= i.input then i.input[2..] else i.input);
        && |data| >= 136 && "a9059cbb" <= data && AllHex(data[72..136])
        && f == FundRecord(tx.hash, i.sender.GetOr(tx.identity), "0x" + data[32..72], i.recipient,
                           Decimal(HexValue(data[72..136])), tx.time)
  {
    if tx.info.Some? {
      var data := FundInput(tx.info.value);
      if |data| >= 136 {
        assert data[8..72][24..] == data[32..72];
      }
    }
  }
}
