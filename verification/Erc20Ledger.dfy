/** ERC-20 balances per contract, with an event table that keeps a replayed transaction from counting twice. */
module Erc20Ledger {
  import opened Wrappers
  import opened Text
  import opened Chain
  import opened Abi
  import opened Erc20Parser

  const TRANSFER_TOPIC: string := "ddf252ad1be2c89b69c2b068fc378daa952ba7f163c4a11628f55a4df523b3ef"

  // ---- log text ----

  /** The last 40 digits of a topic as an account, "" when there are fewer. */
  function TopicAddress(topic: string): string {
    if |topic| < 40 then "" else "0x" + Lower(topic[|topic| - 40..])
  }

  /** A number read leniently: other characters are ignored, and an 'x' starts over. */
  function LooseHex(s: string): nat {
    if s == "" then 0 else
      var n, c := LooseHex(s[..|s| - 1]), s[|s| - 1];
      if c == 'x' || c == 'X' then 0
      else if IsHexDigit(c) then n * 16 + DigitValue(c)
      else n
  }

  method LooseHexToDec(hex: string) returns (r: string)
    ensures r == Decimal(LooseHex(hex))
  {
    var n: nat := 0;
    var i := 0;
    while i < |hex|
      invariant i <= |hex| && n == LooseHex(hex[..i])
    {
      var c := hex[i];
      assert hex[..i + 1] == hex[..i] + [c];
      assert hex[..i + 1][..i] == hex[..i];
      i := i + 1;
      if c == 'x' || c == 'X' {
        n := 0;
        continue;
      }
      if IsHexDigit(c) {
        n := n * 16 + DigitValue(c);
      }
    }
    assert hex[..i] == hex;
    r := Decimal(n);
  }

  lemma {:induction false} LooseHexOfDigits(s: string)
    requires AllHex(s)
    ensures LooseHex(s) == HexValue(s)
  {
    if s != "" {
      LooseHexOfDigits(s[..|s| - 1]);
    }
  }

  lemma {:induction false} LooseHexOfPrefixed(s: string)
    requires AllHex(s)
    ensures LooseHex("0x" + s) == HexValue(s)
  {
    if s == "" {
      assert "0x"[..1] == "0";
    } else {
      LooseHexOfPrefixed(s[..|s| - 1]);
      assert ("0x" + s)[..|s| + 1] == "0x" + s[..|s| - 1];
    }
  }

  /** On hexadecimal digits the lenient reader, the strict one and the fund parser's print the same number. */
  lemma HexReadersAgree(s: string)
    requires AllHex(s)
    ensures Decimal(LooseHex(s)) == DecOf(s) && Decimal(LooseHex("0x" + s)) == DecOf(s)
  {
    LooseHexOfDigits(s);
    LooseHexOfPrefixed(s);
  }

  /** Decimal text as a number. */
  function AmountOf(s: string): nat {
    if AllDigits(s) then DecimalValue(s) else 0
  }

  // ---- the tables and one movement ----

  datatype EventKey = EventKey(txHash: string, index: U32)
  datatype Account = Account(contract: string, account: string)
  datatype ContractRow = ContractRow(deployTx: string, deployer: string)

  datatype Tables = Tables(
    contracts: map<string, ContractRow>, events: map<EventKey, string>, balances: map<Account, nat>)

  /** One apply_transfer: the transaction's row data and what moves. */
  datatype Movement = Movement(
    txHash: string, row: ContractRow, contract: string, from: string, to: string, amount: nat, index: U32)

  function KeyOf(m: Movement): EventKey {
    EventKey(m.txHash, m.index)
  }

  /** Accounts that hold nothing: the zero address, and an address that could not be read. */
  predicate IsVoid(account: string) {
    account == "" || account == ZERO_ADDRESS
  }

  function BalanceOf(t: Tables, c: string, a: string): nat {
    if Account(c, a) in t.balances then t.balances[Account(c, a)] else 0
  }

  function Adjust(t: Tables, contract: string, account: string, delta: int): Outcome<Tables> {
    if IsVoid(account) then Ok(t) else
      var value := BalanceOf(t, contract, account) + delta;
      if value < 0 then Thrown else Ok(t.(balances := t.balances[Account(contract, account) := value]))
  }

  function AddContract(t: Tables, m: Movement): Tables {
    if m.contract in t.contracts then t else t.(contracts := t.contracts[m.contract := m.row])
  }

  function ApplyMovement(t: Tables, m: Movement): Outcome<Tables> {
    var known := AddContract(t, m);
    if KeyOf(m) in t.events then Ok(known) else
      var recorded := known.(events := t.events[KeyOf(m) := m.contract]);
      match Adjust(recorded, m.contract, m.from, 0 - m.amount)
      case Thrown => Thrown
      case Ok(debited) => Adjust(debited, m.contract, m.to, m.amount)
  }

  function ApplyMovements(t: Tables, ms: seq<Movement>): Outcome<Tables> {
    if ms == [] then Ok(t) else
      match ApplyMovements(t, ms[..|ms| - 1])
      case Thrown => Thrown
      case Ok(t') => ApplyMovement(t', ms[|ms| - 1])
  }

  // ---- what a transaction moves ----

  function RowOf(tx: Transaction, info: TxInfo): ContractRow {
    ContractRow(if tx.ty == 7 then tx.hash else "", info.sender.GetOr(""))
  }

  function MovementOf(tx: Transaction, info: TxInfo, t: Transfer, index: U32): Movement {
    Movement(tx.hash, RowOf(tx, info), t.contract, t.from, t.to, AmountOf(t.amount), index)
  }

  predicate IsTransferLog(log: Log) {
    |log.topics| >= 3 && Lower(log.topics[0]) == TRANSFER_TOPIC
  }

  function LogTransfer(log: Log): Transfer
    requires IsTransferLog(log)
  {
    Transfer(TopicAddress(log.creator), TopicAddress(log.topics[1]), TopicAddress(log.topics[2]),
             Decimal(LooseHex(log.data)))
  }

  /** The transfer logs among the first `n`, under their position in the whole log array. */
  function LogMovements(tx: Transaction, info: TxInfo, logs: seq<Log>, n: nat): seq<Movement>
    requires n <= |logs|
  {
    if n == 0 then [] else
      var before := LogMovements(tx, info, logs, n - 1);
      if IsTransferLog(logs[n - 1]) then
        before + [MovementOf(tx, info, LogTransfer(logs[n - 1]), ToU32(n - 1))]
      else before
  }

  /** Parameters come first; logs are read only where the parameters say nothing. */
  ghost function Movements(tx: Transaction, logs: seq<Log>): Outcome<seq<Movement>> {
    if (tx.ty != 7 && tx.ty != 8) || tx.info.None? then Ok([]) else
      match ParameterTransfer(tx, tx.info.value)
      case Thrown => Thrown
      case Ok(Some(t)) => Ok([MovementOf(tx, tx.info.value, t, 0)])
      case Ok(None) => Ok(LogMovements(tx, tx.info.value, logs, |logs|))
  }

  ghost function ApplyTx(t: Tables, tx: Transaction, logs: seq<Log>): Outcome<Tables> {
    match Movements(tx, logs)
    case Thrown => Thrown
    case Ok(ms) => ApplyMovements(t, ms)
  }

  // ---- the methods ----

  /** An exception at one log is the exception of the whole array. */
  lemma {:induction false} ThrownStays(t: Tables, tx: Transaction, info: TxInfo, logs: seq<Log>, i: nat)
    requires i <= |logs| && ApplyMovements(t, LogMovements(tx, info, logs, i)).Thrown?
    ensures ApplyMovements(t, LogMovements(tx, info, logs, |logs|)).Thrown?
    decreases |logs| - i
  {
    if i < |logs| {
      var before := LogMovements(tx, info, logs, i);
      if IsTransferLog(logs[i]) {
        var m := MovementOf(tx, info, LogTransfer(logs[i]), ToU32(i));
        assert LogMovements(tx, info, logs, i + 1) == before + [m];
        assert (before + [m])[..|before|] == before;
      }
      ThrownStays(t, tx, info, logs, i + 1);
    }
  }

  class Erc20Ledger {
    var contracts: map<string, ContractRow>
    var events: map<EventKey, string>
    var balances: map<Account, nat>

    constructor ()
      ensures Content() == Tables(map[], map[], map[])
    {
      contracts, events, balances := map[], map[], map[];
    }

    function Content(): Tables
      reads this
    {
      Tables(contracts, events, balances)
    }

    /** Put an earlier content back: the rollback of the enclosing transaction. */
    method Restore(saved: Tables)
      modifies this
      ensures Content() == saved
    {
      contracts, events, balances := saved.contracts, saved.events, saved.balances;
    }

    method Apply(contract: string, account: string, delta: int) returns (r: Outcome<()>)
      modifies this`balances
      ensures Adjust(old(Content()), contract, account, delta) == if r.Ok? then Ok(Content()) else Thrown
    {
      if account == "" || account == ZERO_ADDRESS {
        return Ok(());
      }
      var key := Account(contract, account);
      var value := (if key in balances then balances[key] else 0) + delta;
      if value < 0 {
        return Thrown;
      }
      balances := balances[key := value];
      return Ok(());
    }

    method ApplyTransfer(m: Movement) returns (r: Outcome<()>)
      modifies this
      ensures ApplyMovement(old(Content()), m) == if r.Ok? then Ok(Content()) else Thrown
    {
      if m.contract !in contracts {
        contracts := contracts[m.contract := m.row];
      }
      if EventKey(m.txHash, m.index) in events {
        return Ok(());
      }
      events := events[EventKey(m.txHash, m.index) := m.contract];
      r := Apply(m.contract, m.from, 0 - m.amount);
      if r.Thrown? {
        return;
      }
      r := Apply(m.contract, m.to, m.amount);
    }

    method ApplyLogs(tx: Transaction, info: TxInfo, logs: seq<Log>) returns (r: Outcome<()>)
      modifies this
      ensures ApplyMovements(old(Content()), LogMovements(tx, info, logs, |logs|))
        == if r.Ok? then Ok(Content()) else Thrown
    {
      var i := 0;
      while i < |logs|
        invariant i <= |logs|
        invariant ApplyMovements(old(Content()), LogMovements(tx, info, logs, i)) == Ok(Content())
      {
        var log := logs[i];
        ghost var before := LogMovements(tx, info, logs, i);
        i := i + 1;
        if |log.topics| < 3 || Lower(log.topics[0]) != TRANSFER_TOPIC {
          continue;
        }
        var amount := LooseHexToDec(log.data);
        var t := Transfer(TopicAddress(log.creator), TopicAddress(log.topics[1]), TopicAddress(log.topics[2]), amount);
        var m := MovementOf(tx, info, t, ToU32(i - 1));
        assert LogMovements(tx, info, logs, i) == before + [m];
        assert (before + [m])[..|before|] == before;
        r := ApplyTransfer(m);
        if r.Thrown? {
          ThrownStays(old(Content()), tx, info, logs, i);
          return;
        }
      }
      return Ok(());
    }

    /** A thrown result leaves the tables to the caller, who rolls the block back. */
    method ApplyErc20Transfers(tx: Transaction, logs: seq<Log>) returns (r: Outcome<()>)
      modifies this
      ensures ApplyTx(old(Content()), tx, logs) == if r.Ok? then Ok(Content()) else Thrown
    {
      if (tx.ty != 7 && tx.ty != 8) || tx.info.None? {
        return Ok(());
      }
      var info := tx.info.value;
      var t := ParseErc20ParameterTransfer(tx, info);
      if t.Thrown? {
        return Thrown;
      }
      if t.value.Some? {
        var m := MovementOf(tx, info, t.value.value, 0);
        ghost var before := Content();
        r := ApplyTransfer(m);
        assert [m][..0] == [];
        assert ApplyMovements(before, []) == Ok(before);
        return;
      }
      r := ApplyLogs(tx, info, logs);
    }
  }
}
