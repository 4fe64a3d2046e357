/** From encoded parameters and logs to balances: what an encoded call does to the ERC-20 tables. */
module Erc20Calls {
  import opened Wrappers
  import opened Text
  import opened Chain
  import opened Abi
  import opened Erc20Parser
  import opened DeploymentLaws
  import opened CallLaws
  import opened Erc20Ledger
  import opened Erc20Laws

  // ---- logs ----

  lemma PaddedTopic(prefix: string, n: nat)
    requires n < ADDRESS_LIMIT
    ensures TopicAddress(prefix + Word(n)) == "0x" + ToHex(n, 40)
  {
    Pow16();
    ToHexSplit(n, 24, 40);
    var topic := prefix + Word(n);
    assert topic == prefix + Zeros(24) + ToHex(n, 40);
    assert topic[|topic| - 40..] == ToHex(n, 40);
    LowerHexFixed(ToHex(n, 40));
  }

  /** An address is the last 40 characters of a topic, with capitals 32 places up, and "" if there are fewer. */
  lemma TopicExactly(topic: string)
    ensures var a := TopicAddress(topic);
      if |topic| < 40 then a == "" else
        |a| == 42 && a[..2] == "0x" && forall i :: 2 <= i < 42 ==>
          a[i] as int == topic[|topic| - 42 + i] as int + if 65 <= topic[|topic| - 42 + i] as int <= 90 then 32 else 0
  {
    if |topic| >= 40 {
      var digits := topic[|topic| - 40..];
      forall i | 2 <= i < 42 ensures TopicAddress(topic)[i] == LowerChar(topic[|topic| - 42 + i]) {
        assert TopicAddress(topic)[i] == Lower(digits)[i - 2] == LowerChar(digits[i - 2]);
      }
    }
  }

  /** The hexadecimal digits of a text. */
  function Kept(s: string): (digits: string)
    ensures AllHex(digits)
  {
    if s == "" then "" else
      var c := s[|s| - 1];
      Kept(s[..|s| - 1]) + if IsHexDigit(c) then [c] else ""
  }

  lemma LooseSnoc(s: string, c: char)
    requires c != 'x' && c != 'X'
    ensures LooseHex(s + [c]) == if IsHexDigit(c) then LooseHex(s) * 16 + DigitValue(c) else LooseHex(s)
  {
    assert (s + [c])[..|s|] == s;
  }

  lemma HexSnoc(digits: string, c: char)
    requires AllHex(digits) && IsHexDigit(c)
    ensures AllHex(digits + [c]) && HexValue(digits + [c]) == HexValue(digits) * 16 + DigitValue(c)
  {
    assert (digits + [c])[..|digits|] == digits;
  }

  lemma KeptSnoc(s: string, c: char)
    ensures Kept(s + [c]) == if IsHexDigit(c) then Kept(s) + [c] else Kept(s)
  {
    assert (s + [c])[..|s|] == s && Kept(s) + "" == Kept(s);
  }

  /** A number is that of the digits behind the last 'x', or of all digits if there is none. */
  lemma {:induction false} LooseHexExactly(pre: string, s: string)
    requires 'x' !in s && 'X' !in s && (pre == "" || pre[|pre| - 1] == 'x' || pre[|pre| - 1] == 'X')
    ensures LooseHex(pre + s) == HexValue(Kept(s))
  {
    if s == "" {
      assert pre + s == pre;
    } else {
      var init, c := s[..|s| - 1], s[|s| - 1];
      assert s == init + [c] && pre + s == pre + init + [c];
      assert c in s && 'x' !in init && 'X' !in init;
      LooseHexExactly(pre, init);
      LooseSnoc(pre + init, c);
      KeptSnoc(init, c);
      if IsHexDigit(c) {
        HexSnoc(Kept(init), c);
      }
    }
  }

  lemma PaddedAmount(n: nat)
    requires n < WORD_LIMIT
    ensures LooseHex(Word(n)) == n && LooseHex("0x" + Word(n)) == n
  {
    WordValue(n);
    LooseHexOfDigits(Word(n));
    LooseHexOfPrefixed(Word(n));
  }

  /**
   A Transfer event log (EIP-20, section "Events") is read back as its accounts and its amount, with or
   without "0x" in front of its words.
   */
  lemma LogRoundTrip(log: Log, a: string, b: string, c: string, from: nat, to: nat, amount: nat)
    requires |log.topics| == 3 && Lower(log.topics[0]) == TRANSFER_TOPIC
    requires log.topics[1] == a + Word(from) && log.topics[2] == b + Word(to) && log.data == c + Word(amount)
    requires c == "" || c == "0x"
    requires from < ADDRESS_LIMIT && to < ADDRESS_LIMIT && amount < WORD_LIMIT
    ensures IsTransferLog(log)
    ensures LogTransfer(log)
         == Transfer(TopicAddress(log.creator), "0x" + ToHex(from, 40), "0x" + ToHex(to, 40), Decimal(amount))
  {
    PaddedTopic(a, from);
    PaddedTopic(b, to);
    PaddedAmount(amount);
    assert "" + Word(amount) == Word(amount);
  }

  // ---- parameters ----

  /**
   The balance of one account after moving `amount` between two accounts of a contract; void accounts hold
   nothing.
   */
  function Moved(t: Tables, contract: string, from: string, to: string, amount: nat, c: string, a: string): int {
    BalanceOf(t, c, a)
      - (if c == contract && a == from && !IsVoid(a) then amount else 0)
      + (if c == contract && a == to && !IsVoid(a) then amount else 0)
  }

  lemma OneMovement(t: Tables, m: Movement)
    ensures ApplyMovements(t, [m]) == ApplyMovement(t, m)
  {
    assert [m][..0] == [];
    assert ApplyMovements(t, []) == Ok(t);
  }

  /** Announced parameters are one movement, whatever the logs say. */
  lemma AnnouncedIsOneMovement(
      t: Tables, tx: Transaction, info: TxInfo, logs: seq<Log>,
      contract: string, from: string, to: string, amount: nat)
    returns (m: Movement)
    requires tx.info == Some(info) && (tx.ty == 7 || tx.ty == 8)
    requires ParameterTransfer(tx, info) == Ok(Some(Transfer(contract, from, to, Decimal(amount))))
    ensures m.contract == contract && m.from == from && m.to == to && m.amount == amount
    ensures m.row == ContractRow(if tx.ty == 7 then tx.hash else "", info.sender.GetOr(""))
    ensures KeyOf(m) == EventKey(tx.hash, 0) && ApplyTx(t, tx, logs) == ApplyMovement(t, m)
  {
    m := MovementOf(tx, info, Transfer(contract, from, to, Decimal(amount)), 0);
    DecimalRoundTrip(amount);
    OneMovement(t, m);
  }

  lemma MovementMoves(t: Tables, m: Movement)
    requires KeyOf(m) !in t.events
    ensures ApplyMovement(t, m).Thrown? <==> !IsVoid(m.from) && BalanceOf(t, m.contract, m.from) < m.amount
    ensures ApplyMovement(t, m).Ok? ==>
      && m.contract in ApplyMovement(t, m).value.contracts
      && forall c, a ::
          BalanceOf(ApplyMovement(t, m).value, c, a) == Moved(t, m.contract, m.from, m.to, m.amount, c, a)
  {
    MovementEffect(t, m);
    if ApplyMovement(t, m).Ok? {
      MovementEvents(t, m);
    }
  }

  /** What the parameters announce happens, unless the sender cannot pay; the logs are not looked at. */
  lemma AnnouncedMoves(
      t: Tables, tx: Transaction, info: TxInfo, logs: seq<Log>,
      contract: string, from: string, to: string, amount: nat)
    requires tx.info == Some(info) && (tx.ty == 7 || tx.ty == 8) && EventKey(tx.hash, 0) !in t.events
    requires ParameterTransfer(tx, info) == Ok(Some(Transfer(contract, from, to, Decimal(amount))))
    ensures ApplyTx(t, tx, logs).Thrown? <==> !IsVoid(from) && BalanceOf(t, contract, from) < amount
    ensures ApplyTx(t, tx, logs).Ok? ==>
      && contract in ApplyTx(t, tx, logs).value.contracts
      && forall c, a :: BalanceOf(ApplyTx(t, tx, logs).value, c, a) == Moved(t, contract, from, to, amount, c, a)
  {
    var m := AnnouncedIsOneMovement(t, tx, info, logs, contract, from, to, amount);
    MovementMoves(t, m);
  }

  lemma MovementRecords(t: Tables, m: Movement)
    requires KeyOf(m) !in t.events && ApplyMovement(t, m).Ok?
    ensures ApplyMovement(t, m).value.events == t.events[KeyOf(m) := m.contract]
    ensures ApplyMovement(t, m).value.contracts
         == if m.contract in t.contracts then t.contracts else t.contracts[m.contract := m.row]
  {
  }

  /** It is recorded as event 0 of the transaction, and its contract is registered if it was not. */
  lemma AnnouncedIsRecorded(
      t: Tables, tx: Transaction, info: TxInfo, logs: seq<Log>,
      contract: string, from: string, to: string, amount: nat)
    requires tx.info == Some(info) && (tx.ty == 7 || tx.ty == 8) && EventKey(tx.hash, 0) !in t.events
    requires ParameterTransfer(tx, info) == Ok(Some(Transfer(contract, from, to, Decimal(amount))))
    requires ApplyTx(t, tx, logs).Ok?
    ensures var t' := ApplyTx(t, tx, logs).value;
      && t'.events == t.events[EventKey(tx.hash, 0) := contract]
      && t'.contracts == if contract in t.contracts then t.contracts else
           t.contracts[contract := ContractRow(if tx.ty == 7 then tx.hash else "", info.sender.GetOr(""))]
  {
    var m := AnnouncedIsOneMovement(t, tx, info, logs, contract, from, to, amount);
    MovementRecords(t, m);
  }

  lemma AnnouncedMint(
      t: Tables, tx: Transaction, info: TxInfo, logs: seq<Log>, contract: string, owner: string, amount: nat)
    requires tx.info == Some(info) && (tx.ty == 7 || tx.ty == 8) && EventKey(tx.hash, 0) !in t.events
    requires ParameterTransfer(tx, info) == Ok(Some(Transfer(contract, ZERO_ADDRESS, owner, Decimal(amount))))
    requires ApplyTx(t, tx, logs).Ok?
    ensures Erc20Laws.Supply(ApplyTx(t, tx, logs).value, contract)
         == Erc20Laws.Supply(t, contract) + if IsVoid(owner) then 0 else amount
  {
    var m := AnnouncedIsOneMovement(t, tx, info, logs, contract, ZERO_ADDRESS, owner, amount);
    MovementSupply(t, m, contract);
  }

  /** An encoded transfer moves exactly its amount from the sender to the recipient. */
  lemma TransferMoves(t: Tables, tx: Transaction, info: TxInfo, logs: seq<Log>, to: nat, amount: nat, tail: string)
    requires tx.info == Some(info) && CallOf(tx, info, CallData(TRANSFER, [Word(to), Word(amount)], tail))
    requires to < ADDRESS_LIMIT && 0 < amount < WORD_LIMIT && info.sender.GetOr(tx.identity) != ""
    requires EventKey(tx.hash, 0) !in t.events
    ensures var c, from := Lower(info.recipient), Lower(info.sender.GetOr(tx.identity));
      && (ApplyTx(t, tx, logs).Thrown? <==> !IsVoid(from) && BalanceOf(t, c, from) < amount)
      && (ApplyTx(t, tx, logs).Ok? ==> forall d, a ::
            BalanceOf(ApplyTx(t, tx, logs).value, d, a) == Moved(t, c, from, "0x" + ToHex(to, 40), amount, d, a))
  {
    TransferRoundTrip(tx, info, to, amount, tail);
    AnnouncedMoves(t, tx, info, logs,
      Lower(info.recipient), Lower(info.sender.GetOr(tx.identity)), "0x" + ToHex(to, 40), amount);
  }

  /** An encoded deployment mints exactly the supply to the owner, and the contract's total grows by it. */
  lemma DeploymentMints(t: Tables, tx: Transaction, info: TxInfo, logs: seq<Log>, code: string, ctor: Ctor)
    requires tx.info == Some(info) && tx.ty == 7 && Lower(info.recipient) != ""
    requires NormalizeHex(info.input) == code + EncodeCtor(ctor)
    requires ValidCtor(ctor) && |code| % 2 == 0 && |code| + EncodedLength(ctor) < MAX_INPUT
    requires NoStopBefore(code + EncodeCtor(ctor), |code|)
    requires EventKey(tx.hash, 0) !in t.events
    ensures ApplyTx(t, tx, logs).Ok?
    ensures var c, owner, t' := Lower(info.recipient), "0x" + ToHex(ctor.owner, 40), ApplyTx(t, tx, logs).value;
      && c in t'.contracts
      && (forall d, a :: BalanceOf(t', d, a) == Moved(t, c, ZERO_ADDRESS, owner, ctor.supply, d, a))
      && Erc20Laws.Supply(t', c) == Erc20Laws.Supply(t, c) + (if IsVoid(owner) then 0 else ctor.supply)
  {
    var c, owner := Lower(info.recipient), "0x" + ToHex(ctor.owner, 40);
    EncodingHasLength(ctor);
    DeploymentRoundTrip(info, code, ctor);
    assert code + EncodeCtor(ctor) != "";
    AnnouncedMoves(t, tx, info, logs, c, ZERO_ADDRESS, owner, ctor.supply);
    AnnouncedMint(t, tx, info, logs, c, owner, ctor.supply);
  }

  // ---- logs as the fallback ----

  /** A Transfer event, in whatever case its topic is spelled. */
  predicate IsEvent(log: Log) {
    |log.topics| >= 3 && Lower(log.topics[0]) == "ddf252ad1be2c89b69c2b068fc378daa952ba7f163c4a11628f55a4df523b3ef"
  }

  /** A deployment or call whose parameters announce nothing. */
  ghost predicate FallsBack(tx: Transaction, info: TxInfo) {
    tx.info == Some(info) && (tx.ty == 7 || tx.ty == 8) && ParameterTransfer(tx, info) == Ok(None)
  }

  lemma {:induction false} LogsPrefix(tx: Transaction, info: TxInfo, logs: seq<Log>, log: Log, n: nat)
    requires n <= |logs|
    ensures LogMovements(tx, info, logs + [log], n) == LogMovements(tx, info, logs, n)
  {
    if n > 0 {
      LogsPrefix(tx, info, logs, log, n - 1);
    }
  }

  /** What an event log moves: its amount, between its accounts, under its position. */
  function EventMovement(tx: Transaction, info: TxInfo, log: Log, index: U32): Movement
    requires |log.topics| >= 3
  {
    Movement(tx.hash, ContractRow(if tx.ty == 7 then tx.hash else "", info.sender.GetOr("")),
             TopicAddress(log.creator), TopicAddress(log.topics[1]), TopicAddress(log.topics[2]),
             LooseHex(log.data), index)
  }

  lemma EventIsTransfer(tx: Transaction, info: TxInfo, log: Log, index: U32)
    ensures IsEvent(log) <==> IsTransferLog(log)
    ensures IsEvent(log) ==> MovementOf(tx, info, LogTransfer(log), index) == EventMovement(tx, info, log, index)
  {
    if IsEvent(log) {
      DecimalRoundTrip(LooseHex(log.data));
    }
  }

  lemma LogStep(tx: Transaction, info: TxInfo, logs: seq<Log>, n: U32)
    requires n < |logs|
    ensures LogMovements(tx, info, logs, n + 1) ==
      var before := LogMovements(tx, info, logs, n);
      if IsTransferLog(logs[n]) then before + [MovementOf(tx, info, LogTransfer(logs[n]), n)] else before
  {
    assert ToU32(n) == n;
  }

  lemma OneMoreMovement(tx: Transaction, info: TxInfo, logs: seq<Log>, log: Log)
    requires |logs| < TWO32
    ensures var before := LogMovements(tx, info, logs, |logs|);
      LogMovements(tx, info, logs + [log], |logs| + 1) ==
        if IsEvent(log) then before + [EventMovement(tx, info, log, |logs|)] else before
  {
    var n: U32 := |logs|;
    LogsPrefix(tx, info, logs, log, n);
    LogStep(tx, info, logs + [log], n);
    EventIsTransfer(tx, info, log, n);
  }

  lemma LogsApply(t: Tables, tx: Transaction, info: TxInfo, logs: seq<Log>, ms: seq<Movement>)
    requires FallsBack(tx, info) && LogMovements(tx, info, logs, |logs|) == ms
    ensures ApplyTx(t, tx, logs) == ApplyMovements(t, ms)
  {
  }

  /** One more log: an event is applied after the others, anything else changes nothing. */
  lemma OneMoreLog(t: Tables, tx: Transaction, info: TxInfo, logs: seq<Log>, log: Log)
    requires FallsBack(tx, info) && |logs| < TWO32
    ensures ApplyTx(t, tx, logs + [log]) ==
      match ApplyTx(t, tx, logs)
      case Thrown => Thrown
      case Ok(t') => if IsEvent(log) then ApplyMovement(t', EventMovement(tx, info, log, |logs|)) else Ok(t')
  {
    var ms := LogMovements(tx, info, logs, |logs|);
    OneMoreMovement(tx, info, logs, log);
    LogsApply(t, tx, info, logs, ms);
    if IsEvent(log) {
      var m := EventMovement(tx, info, log, |logs|);
      LogsApply(t, tx, info, logs + [log], ms + [m]);
      ApplySnoc(t, ms, m);
    } else {
      LogsApply(t, tx, info, logs + [log], ms);
    }
  }

  ghost predicate Quiet(logs: seq<Log>) {
    forall i :: 0 <= i < |logs| ==> !IsEvent(logs[i])
  }

  lemma OneMoreQuiet(t: Tables, tx: Transaction, info: TxInfo, logs: seq<Log>, log: Log)
    requires FallsBack(tx, info) && |logs| < TWO32 && !IsEvent(log)
    ensures ApplyTx(t, tx, logs + [log]) == ApplyTx(t, tx, logs)
  {
    OneMoreLog(t, tx, info, logs, log);
  }

  lemma {:induction false} QuietLogs(t: Tables, tx: Transaction, info: TxInfo, logs: seq<Log>, more: seq<Log>)
    requires FallsBack(tx, info) && |logs| + |more| <= TWO32 && Quiet(more)
    ensures ApplyTx(t, tx, logs + more) == ApplyTx(t, tx, logs)
  {
    if more == [] {
      assert logs + more == logs;
    } else {
      var init, last := more[..|more| - 1], more[|more| - 1];
      QuietLogs(t, tx, info, logs, init);
      assert logs + more == (logs + init) + [last];
      OneMoreQuiet(t, tx, info, logs + init, last);
    }
  }

  lemma NoLogs(t: Tables, tx: Transaction, info: TxInfo)
    requires FallsBack(tx, info)
    ensures ApplyTx(t, tx, []) == Ok(t)
  {
  }

  /** An encoded Transfer event of amount `amount` from account `from` to account `to`. */
  ghost predicate Encodes(log: Log, from: nat, to: nat, amount: nat) {
    && IsEvent(log) && |log.topics| == 3 && |log.creator| >= 40
    && from < ADDRESS_LIMIT && to < ADDRESS_LIMIT && amount < WORD_LIMIT
    && |log.topics[1]| >= 64 && log.topics[1][|log.topics[1]| - 64..] == Word(from)
    && |log.topics[2]| >= 64 && log.topics[2][|log.topics[2]| - 64..] == Word(to)
    && (log.data == Word(amount) || log.data == "0x" + Word(amount))
  }

  function ContractOf(log: Log): string
    requires |log.creator| >= 40
  {
    "0x" + Lower(log.creator[|log.creator| - 40..])
  }

  function AccountOf(n: nat): string {
    "0x" + ToHex(n, 40)
  }

  /** What moving `amount` adds to one account of one contract; account 0 holds nothing. */
  function Shift(contract: string, from: nat, to: nat, amount: nat, c: string, a: string): int {
    (if c == contract && a == AccountOf(to) && to != 0 then amount else 0)
    - (if c == contract && a == AccountOf(from) && from != 0 then amount else 0)
  }

  /** Every account of `t'` has what it had in `t`, and what moving `amount` adds. */
  ghost predicate Shifted(t: Tables, t': Tables, contract: string, from: nat, to: nat, amount: nat) {
    forall c, a :: BalanceOf(t', c, a) == BalanceOf(t, c, a) + Shift(contract, from, to, amount, c, a)
  }

  lemma ToHexIsZeros(n: nat)
    requires n < ADDRESS_LIMIT
    ensures ToHex(n, 40) == Zeros(40) <==> n == 0
  {
    Pow16();
    LowerHexFixed(ToHex(n, 40));
    HexRoundTrip(n, 40);
    ToHexZero(40);
    AllZerosIsZero(Zeros(40));
  }

  lemma VoidIsZero(n: nat)
    requires n < ADDRESS_LIMIT
    ensures IsVoid(AccountOf(n)) <==> n == 0
  {
    ZeroAddressDigits();
    ToHexIsZeros(n);
    assert AccountOf(n)[2..] == ToHex(n, 40) && ("0x" + Zeros(40))[2..] == Zeros(40);
  }

  lemma EventReads(tx: Transaction, info: TxInfo, log: Log, index: U32, from: nat, to: nat, amount: nat)
    requires Encodes(log, from, to, amount)
    ensures var m := EventMovement(tx, info, log, index);
      m.contract == ContractOf(log) && m.from == AccountOf(from) && m.to == AccountOf(to) && m.amount == amount
  {
    var a, b := log.topics[1], log.topics[2];
    assert a == a[..|a| - 64] + Word(from) && b == b[..|b| - 64] + Word(to);
    PaddedTopic(a[..|a| - 64], from);
    PaddedTopic(b[..|b| - 64], to);
    PaddedAmount(amount);
  }

  lemma ShiftIsNet(m: Movement, contract: string, from: nat, to: nat, amount: nat, c: string, a: string)
    requires m.contract == contract && m.from == AccountOf(from) && m.to == AccountOf(to) && m.amount == amount
    requires from < ADDRESS_LIMIT && to < ADDRESS_LIMIT
    ensures Credit(m, c, a) - Debit(m, c, a) == Shift(contract, from, to, amount, c, a)
  {
    VoidIsZero(from);
    VoidIsZero(to);
  }

  lemma EventMoves(t: Tables, m: Movement, contract: string, from: nat, to: nat, amount: nat)
    requires m.contract == contract && m.from == AccountOf(from) && m.to == AccountOf(to) && m.amount == amount
    requires from < ADDRESS_LIMIT && to < ADDRESS_LIMIT && KeyOf(m) !in t.events
    ensures ApplyMovement(t, m).Thrown? <==> from != 0 && BalanceOf(t, contract, AccountOf(from)) < amount
    ensures ApplyMovement(t, m).Ok? ==> (
      var t' := ApplyMovement(t, m).value;
      && t'.events == t.events[EventKey(m.txHash, m.index) := contract]
      && t'.contracts == (if contract in t.contracts then t.contracts else t.contracts[contract := m.row])
      && Shifted(t, t', contract, from, to, amount))
  {
    VoidIsZero(from);
    MovementEffect(t, m);
    if ApplyMovement(t, m).Ok? {
      var t' := ApplyMovement(t, m).value;
      MovementRecords(t, m);
      forall c, a ensures BalanceOf(t', c, a) == BalanceOf(t, c, a) + Shift(contract, from, to, amount, c, a) {
        ShiftIsNet(m, contract, from, to, amount, c, a);
      }
    }
  }

  /**
   Logs do count: one event among others that are none throws exactly when its sender cannot pay, and else moves its
   amount, registers its contract and is recorded under its position in the whole array.
   */
  lemma LogMoves(
      t: Tables, tx: Transaction, info: TxInfo, pre: seq<Log>, log: Log, post: seq<Log>,
      from: nat, to: nat, amount: nat)
    requires FallsBack(tx, info) && |pre| + 1 + |post| <= TWO32 && Encodes(log, from, to, amount)
    requires Quiet(pre) && Quiet(post)
    requires EventKey(tx.hash, |pre|) !in t.events
    ensures var r, contract := ApplyTx(t, tx, pre + [log] + post), ContractOf(log);
      && (r.Thrown? <==> from != 0 && BalanceOf(t, contract, AccountOf(from)) < amount)
      && (r.Ok? ==>
            && r.value.events == t.events[EventKey(tx.hash, |pre|) := contract]
            && r.value.contracts == (if contract in t.contracts then t.contracts else
                 t.contracts[contract := ContractRow(if tx.ty == 7 then tx.hash else "", info.sender.GetOr(""))])
            && Shifted(t, r.value, contract, from, to, amount))
  {
    var m := EventMovement(tx, info, log, |pre|);
    assert [] + pre == pre;
    QuietLogs(t, tx, info, [], pre);
    NoLogs(t, tx, info);
    OneMoreLog(t, tx, info, pre, log);
    QuietLogs(t, tx, info, pre + [log], post);
    EventReads(tx, info, log, |pre|, from, to, amount);
    EventMoves(t, m, ContractOf(log), from, to, amount);
  }

  /** An event behind any logs is applied to what they led to. */
  lemma NextLogMoves(
      t: Tables, tx: Transaction, info: TxInfo, logs: seq<Log>, log: Log, from: nat, to: nat, amount: nat)
    requires FallsBack(tx, info) && |logs| < TWO32 && Encodes(log, from, to, amount)
    requires ApplyTx(t, tx, logs).Ok? ==> EventKey(tx.hash, |logs|) !in ApplyTx(t, tx, logs).value.events
    ensures ApplyTx(t, tx, logs + [log]).Ok? ==> (
      && ApplyTx(t, tx, logs).Ok?
      && var t1, t2 := ApplyTx(t, tx, logs).value, ApplyTx(t, tx, logs + [log]).value;
        && t2.events == t1.events[EventKey(tx.hash, |logs|) := ContractOf(log)]
        && Shifted(t1, t2, ContractOf(log), from, to, amount))
  {
    OneMoreLog(t, tx, info, logs, log);
    if ApplyTx(t, tx, logs).Ok? {
      EventReads(tx, info, log, |logs|, from, to, amount);
      EventMoves(ApplyTx(t, tx, logs).value, EventMovement(tx, info, log, |logs|), ContractOf(log), from, to, amount);
    }
  }

  lemma FirstLogMoves(
      t: Tables, tx: Transaction, info: TxInfo, log: Log, mid: seq<Log>, from: nat, to: nat, amount: nat)
    requires FallsBack(tx, info) && 1 + |mid| <= TWO32 && Encodes(log, from, to, amount)
    requires EventKey(tx.hash, 0) !in t.events && Quiet(mid)
    requires ApplyTx(t, tx, [log] + mid).Ok?
    ensures var t' := ApplyTx(t, tx, [log] + mid).value;
      t'.events == t.events[EventKey(tx.hash, 0) := ContractOf(log)]
      && Shifted(t, t', ContractOf(log), from, to, amount)
  {
    assert [] + [log] + mid == [log] + mid;
    LogMoves(t, tx, info, [], log, mid, from, to, amount);
  }

  lemma LastLogMoves(
      t: Tables, tx: Transaction, info: TxInfo, logs: seq<Log>, log: Log, from: nat, to: nat, amount: nat)
    requires FallsBack(tx, info) && |logs| < TWO32 && Encodes(log, from, to, amount)
    requires ApplyTx(t, tx, logs + [log]).Ok?
    ensures ApplyTx(t, tx, logs).Ok?
    ensures var t1, t2 := ApplyTx(t, tx, logs).value, ApplyTx(t, tx, logs + [log]).value;
      EventKey(tx.hash, |logs|) !in t1.events ==>
        && t2.events == t1.events[EventKey(tx.hash, |logs|) := ContractOf(log)]
        && Shifted(t1, t2, ContractOf(log), from, to, amount)
  {
    OneMoreLog(t, tx, info, logs, log);
    if EventKey(tx.hash, |logs|) !in ApplyTx(t, tx, logs).value.events {
      NextLogMoves(t, tx, info, logs, log, from, to, amount);
    }
  }

  /** Two events of one transaction both count, whatever stands between them. */
  lemma BothLogsMove(
      t: Tables, tx: Transaction, info: TxInfo, first: Log, mid: seq<Log>, second: Log,
      from: nat, to: nat, amount: nat, from': nat, to': nat, amount': nat)
    requires FallsBack(tx, info) && |mid| + 2 <= TWO32 && Quiet(mid)
    requires Encodes(first, from, to, amount) && Encodes(second, from', to', amount')
    requires EventKey(tx.hash, 0) !in t.events && EventKey(tx.hash, |mid| + 1) !in t.events
    requires ApplyTx(t, tx, [first] + mid + [second]).Ok?
    ensures var t' := ApplyTx(t, tx, [first] + mid + [second]).value;
      && t'.events.Keys == t.events.Keys + {EventKey(tx.hash, 0), EventKey(tx.hash, |mid| + 1)}
      && forall c, a :: BalanceOf(t', c, a) == BalanceOf(t, c, a)
           + Shift(ContractOf(first), from, to, amount, c, a) + Shift(ContractOf(second), from', to', amount', c, a)
  {
    LastLogMoves(t, tx, info, [first] + mid, second, from', to', amount');
    FirstLogMoves(t, tx, info, first, mid, from, to, amount);
  }

  /** Transactions of other types, or without readable data, move nothing. */
  lemma OtherTypesMoveNothing(t: Tables, tx: Transaction, logs: seq<Log>)
    requires (tx.ty != 7 && tx.ty != 8) || tx.info.None?
    ensures ApplyTx(t, tx, logs) == Ok(t)
  {
  }
}
