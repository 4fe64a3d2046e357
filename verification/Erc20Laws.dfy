/** Conservation and replay over whole runs of ERC-20 transactions. */
module Erc20Laws {
  import opened Wrappers
  import opened Sums
  import opened Chain
  import opened Erc20Ledger

  // ---- one movement ----

  /** How much `m` takes from, and how much it gives to, an account of its contract. */
  function Debit(m: Movement, c: string, a: string): nat {
    if m.contract == c && m.from == a && !IsVoid(a) then m.amount else 0
  }

  function Credit(m: Movement, c: string, a: string): nat {
    if m.contract == c && m.to == a && !IsVoid(a) then m.amount else 0
  }

  /**
   A recorded movement throws exactly when its sender cannot pay; else every account moves by its debit and
   credit.
   */
  lemma MovementEffect(t: Tables, m: Movement)
    requires KeyOf(m) !in t.events
    ensures ApplyMovement(t, m).Thrown? <==> !IsVoid(m.from) && BalanceOf(t, m.contract, m.from) < m.amount
    ensures ApplyMovement(t, m).Ok? ==> forall c, a ::
      BalanceOf(ApplyMovement(t, m).value, c, a) == BalanceOf(t, c, a) - Debit(m, c, a) + Credit(m, c, a)
  {
  }

  /** Neither unreadable nor the zero address. */
  predicate Holder(account: string) {
    account != "" && account != "0x0000000000000000000000000000000000000000"
  }

  /** A movement of a new event throws exactly if its sender is a holder who cannot pay; else both holders get rows. */
  lemma MovementRows(t: Tables, m: Movement)
    requires EventKey(m.txHash, m.index) !in t.events
    ensures ApplyMovement(t, m).Thrown? <==> Holder(m.from) && BalanceOf(t, m.contract, m.from) < m.amount
    ensures ApplyMovement(t, m).Ok? ==>
      ApplyMovement(t, m).value.balances.Keys == t.balances.Keys
        + (if Holder(m.from) then {Account(m.contract, m.from)} else {})
        + (if Holder(m.to) then {Account(m.contract, m.to)} else {})
  {
  }

  /** A movement whose event is there registers its contract, if that is new, and does nothing else. */
  lemma AgainRegisters(t: Tables, m: Movement)
    requires EventKey(m.txHash, m.index) in t.events
    ensures ApplyMovement(t, m) == Ok(t.(contracts :=
      if m.contract in t.contracts then t.contracts else t.contracts[m.contract := m.row]))
  {
  }

  ghost predicate HoldersOnly(t: Tables) {
    forall k :: k in t.balances ==> Holder(k.account)
  }

  lemma {:induction false} MovementsKeepHolders(t: Tables, ms: seq<Movement>)
    requires HoldersOnly(t) && ApplyMovements(t, ms).Ok?
    ensures HoldersOnly(ApplyMovements(t, ms).value)
  {
    if ms != [] {
      var init, m := ms[..|ms| - 1], ms[|ms| - 1];
      MovementsKeepHolders(t, init);
      var before := ApplyMovements(t, init).value;
      if KeyOf(m) in before.events {
        AgainRegisters(before, m);
      } else {
        MovementRows(before, m);
      }
    }
  }

  /** A transfer to oneself leaves the account as it was. */
  lemma SelfTransfer(t: Tables, m: Movement)
    requires m.from == m.to && ApplyMovement(t, m).Ok?
    ensures forall c, a :: BalanceOf(ApplyMovement(t, m).value, c, a) == BalanceOf(t, c, a)
  {
    if KeyOf(m) !in t.events {
      MovementEffect(t, m);
    }
  }

  // ---- conservation ----

  ghost function InContract(c: string): (Account, nat) -> int {
    (k: Account, v: nat) => if k.contract == c then v else 0
  }

  /** All balances of one contract. */
  ghost function Supply(t: Tables, c: string): int {
    Total(t.balances, InContract(c))
  }

  /** What a movement mints into the contract, or, if negative, burns out of it. */
  function Minted(m: Movement, c: string): int {
    if m.contract != c then 0
    else (if IsVoid(m.from) then m.amount else 0) - (if IsVoid(m.to) then m.amount else 0)
  }

  function Net(ms: seq<Movement>, c: string): int {
    if ms == [] then 0 else Net(ms[..|ms| - 1], c) + Minted(ms[|ms| - 1], c)
  }

  lemma AdjustSupply(t: Tables, contract: string, account: string, delta: int, c: string)
    requires Adjust(t, contract, account, delta).Ok?
    ensures Supply(Adjust(t, contract, account, delta).value, c)
         == Supply(t, c) + if contract == c && !IsVoid(account) then delta else 0
  {
    if !IsVoid(account) {
      var value: nat := BalanceOf(t, contract, account) + delta;
      TotalUpdate(t.balances, InContract(c), Account(contract, account), value);
    }
  }

  lemma MovementSupply(t: Tables, m: Movement, c: string)
    requires ApplyMovement(t, m).Ok?
    ensures Supply(ApplyMovement(t, m).value, c) == Supply(t, c) + if KeyOf(m) in t.events then 0 else Minted(m, c)
  {
    if KeyOf(m) !in t.events {
      var recorded := AddContract(t, m).(events := t.events[KeyOf(m) := m.contract]);
      AdjustSupply(recorded, m.contract, m.from, 0 - m.amount, c);
      AdjustSupply(Adjust(recorded, m.contract, m.from, 0 - m.amount).value, m.contract, m.to, m.amount, c);
    }
  }

  /** The movements of a run that were recorded, that is, whose event key was new. */
  function Recorded(t: Tables, ms: seq<Movement>): seq<Movement>
    requires ApplyMovements(t, ms).Ok?
  {
    if ms == [] then [] else
      var init, m := ms[..|ms| - 1], ms[|ms| - 1];
      if KeyOf(m) in ApplyMovements(t, init).value.events then Recorded(t, init) else Recorded(t, init) + [m]
  }

  /** Every contract's balances change by exactly what the recorded movements mint and burn. */
  lemma {:induction false} SupplyFollowsRecord(t: Tables, ms: seq<Movement>, c: string)
    requires ApplyMovements(t, ms).Ok?
    ensures Supply(ApplyMovements(t, ms).value, c) == Supply(t, c) + Net(Recorded(t, ms), c)
  {
    if ms != [] {
      var init, m := ms[..|ms| - 1], ms[|ms| - 1];
      SupplyFollowsRecord(t, init, c);
      MovementSupply(ApplyMovements(t, init).value, m, c);
      var before := Recorded(t, init);
      assert (before + [m])[..|before|] == before;
    }
  }

  ghost function KeysOf(ms: seq<Movement>): set<EventKey> {
    set m | m in ms :: KeyOf(m)
  }

  ghost predicate DistinctKeys(ms: seq<Movement>) {
    forall i, j :: 0 <= i < j < |ms| ==> KeyOf(ms[i]) != KeyOf(ms[j])
  }

  lemma KeysOfSnoc(ms: seq<Movement>, m: Movement)
    ensures KeysOf(ms + [m]) == KeysOf(ms) + {KeyOf(m)}
    ensures DistinctKeys(ms) && KeyOf(m) !in KeysOf(ms) ==> DistinctKeys(ms + [m])
  {
    assert m in ms + [m];
    forall k | k in KeysOf(ms + [m]) ensures k in KeysOf(ms) + {KeyOf(m)} {
    }
    forall k | k in KeysOf(ms) ensures k in KeysOf(ms + [m]) {
      var n :| n in ms && KeyOf(n) == k;
      assert n in ms + [m];
    }
    forall i | 0 <= i < |ms| ensures KeyOf(ms[i]) in KeysOf(ms) {
      assert ms[i] in ms;
    }
  }

  lemma MovementEvents(t: Tables, m: Movement)
    requires ApplyMovement(t, m).Ok?
    ensures ApplyMovement(t, m).value.events.Keys == t.events.Keys + {KeyOf(m)}
    ensures ApplyMovement(t, m).value.contracts.Keys == t.contracts.Keys + {m.contract}
  {
  }

  /** The record is the event table: each event key once, no key that was there before, and nothing else added. */
  lemma {:induction false} RecordIsEventTable(t: Tables, ms: seq<Movement>)
    requires ApplyMovements(t, ms).Ok?
    ensures ApplyMovements(t, ms).value.events.Keys == t.events.Keys + KeysOf(Recorded(t, ms))
    ensures KeysOf(Recorded(t, ms)) !! t.events.Keys
    ensures DistinctKeys(Recorded(t, ms))
  {
    if ms != [] {
      var init, m := ms[..|ms| - 1], ms[|ms| - 1];
      RecordIsEventTable(t, init);
      MovementEvents(ApplyMovements(t, init).value, m);
      KeysOfSnoc(Recorded(t, init), m);
    }
  }

  // ---- runs of transactions ----

  datatype Step = Step(tx: Transaction, logs: seq<Log>)

  ghost function ApplySteps(t: Tables, steps: seq<Step>): Outcome<Tables> {
    if steps == [] then Ok(t) else
      match ApplySteps(t, steps[..|steps| - 1])
      case Thrown => Thrown
      case Ok(t') => ApplyTx(t', steps[|steps| - 1].tx, steps[|steps| - 1].logs)
  }

  ghost predicate Readable(steps: seq<Step>) {
    forall i :: 0 <= i < |steps| ==> Movements(steps[i].tx, steps[i].logs).Ok?
  }

  ghost function AllMovements(steps: seq<Step>): seq<Movement>
    requires Readable(steps)
  {
    if steps == [] then [] else
      AllMovements(steps[..|steps| - 1]) + Movements(steps[|steps| - 1].tx, steps[|steps| - 1].logs).value
  }

  lemma ApplySnoc(t: Tables, ms: seq<Movement>, m: Movement)
    ensures ApplyMovements(t, ms + [m]) ==
      match ApplyMovements(t, ms) case Thrown => Thrown case Ok(t') => ApplyMovement(t', m)
  {
    assert (ms + [m])[..|ms|] == ms;
  }

  lemma {:induction false} ApplyConcat(t: Tables, a: seq<Movement>, b: seq<Movement>)
    ensures ApplyMovements(t, a + b) ==
      match ApplyMovements(t, a) case Thrown => Thrown case Ok(t') => ApplyMovements(t', b)
  {
    if b == [] {
      assert a + b == a;
    } else {
      var init, last := b[..|b| - 1], b[|b| - 1];
      ApplyConcat(t, a, init);
      assert a + b == (a + init) + [last];
      ApplySnoc(t, a + init, last);
    }
  }

  /** A run of transactions is the run of all their movements. */
  lemma {:induction false} StepsAreMovements(t: Tables, steps: seq<Step>)
    requires ApplySteps(t, steps).Ok?
    ensures Readable(steps) && ApplyMovements(t, AllMovements(steps)) == ApplySteps(t, steps)
  {
    if steps != [] {
      var init := steps[..|steps| - 1];
      StepsAreMovements(t, init);
      ApplyConcat(t, AllMovements(init), Movements(steps[|steps| - 1].tx, steps[|steps| - 1].logs).value);
      assert steps == init + [steps[|steps| - 1]];
    }
  }

  const EMPTY: Tables := Tables(map[], map[], map[])

  /**
   Conservation: after any run from empty tables, each contract's balances add up to what the recorded
   movements credited from the zero or unreadable account, minus what they debited to it.
   */
  lemma Conservation(steps: seq<Step>, c: string)
    requires ApplySteps(EMPTY, steps).Ok?
    ensures Readable(steps) && ApplyMovements(EMPTY, AllMovements(steps)).Ok?
    ensures Supply(ApplySteps(EMPTY, steps).value, c) == Net(Recorded(EMPTY, AllMovements(steps)), c)
  {
    StepsAreMovements(EMPTY, steps);
    SupplyFollowsRecord(EMPTY, AllMovements(steps), c);
  }

  /** After any run nothing is held by the zero address or by an account that could not be read. */
  lemma OnlyHoldersHold(steps: seq<Step>, k: Account)
    requires ApplySteps(EMPTY, steps).Ok? && k in ApplySteps(EMPTY, steps).value.balances
    ensures k.account != "" && k.account != "0x0000000000000000000000000000000000000000"
  {
    StepsAreMovements(EMPTY, steps);
    MovementsKeepHolders(EMPTY, AllMovements(steps));
  }

  // ---- replay ----

  /** Everything `ms` would record or register is already there. */
  ghost predicate Covers(t: Tables, ms: seq<Movement>) {
    forall i :: 0 <= i < |ms| ==> KeyOf(ms[i]) in t.events && ms[i].contract in t.contracts
  }

  ghost predicate Grows(t: Tables, t': Tables) {
    t.events.Keys <= t'.events.Keys && t.contracts.Keys <= t'.contracts.Keys
  }

  lemma CoversMore(before: Tables, now: Tables, ms: seq<Movement>, m: Movement)
    requires Covers(before, ms) && Grows(before, now) && KeyOf(m) in now.events && m.contract in now.contracts
    ensures Covers(now, ms + [m])
  {
  }

  lemma {:induction false} MovementsGrow(t: Tables, ms: seq<Movement>)
    requires ApplyMovements(t, ms).Ok?
    ensures Grows(t, ApplyMovements(t, ms).value) && Covers(ApplyMovements(t, ms).value, ms)
  {
    if ms != [] {
      var init, m := ms[..|ms| - 1], ms[|ms| - 1];
      var before, now := ApplyMovements(t, init).value, ApplyMovements(t, ms).value;
      MovementsGrow(t, init);
      MovementEvents(before, m);
      CoversMore(before, now, init, m);
      assert ms == init + [m];
    }
  }

  lemma {:induction false} CoveredChangesNothing(t: Tables, ms: seq<Movement>)
    requires Covers(t, ms)
    ensures ApplyMovements(t, ms) == Ok(t)
  {
    if ms != [] {
      var init := ms[..|ms| - 1];
      assert forall i :: 0 <= i < |init| ==> ms[i] == init[i];
      CoveredChangesNothing(t, init);
    }
  }

  /**
   Replay: a transaction applied once and applied again at any later point of the run, through its
   parameters or its logs, changes no balance, event or contract row, and does not throw.
   */
  lemma ReplayChangesNothing(t: Tables, tx: Transaction, logs: seq<Log>, later: seq<Step>)
    requires ApplyTx(t, tx, logs).Ok? && ApplySteps(ApplyTx(t, tx, logs).value, later).Ok?
    ensures var now := ApplySteps(ApplyTx(t, tx, logs).value, later).value;
      ApplyTx(now, tx, logs) == Ok(now)
  {
    var ms, first := Movements(tx, logs).value, ApplyTx(t, tx, logs).value;
    var now := ApplySteps(first, later).value;
    MovementsGrow(t, ms);
    StepsAreMovements(first, later);
    MovementsGrow(first, AllMovements(later));
    CoveredChangesNothing(now, ms);
  }
}
