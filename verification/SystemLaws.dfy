/**
 What holds of everything the indexer stores, after any sequence of blocks, whether or not each one was
 stored without an exception.
 */
module SystemLaws {
  import opened Wrappers
  import opened Chain
  import opened UtxoStore
  import opened UtxoBooks
  import opened SpendLaws
  import opened BlockParser
  import Balances = BalanceRepo
  import Native = NativeLedger
  import Erc20 = Erc20Ledger
  import Erc20Runs = Erc20Laws
  import Gov = Governance

  /** A run of ParseAndStore calls from an empty database, with the outcome of each. */
  ghost predicate IsRun(states: seq<State>, blocks: seq<Block>, outcomes: seq<Outcome<()>>) {
    && |states| == |blocks| + 1 == |outcomes| + 1
    && states[0] == EMPTY
    && forall i :: 0 <= i < |blocks| ==> Stored(states[i], blocks[i], states[i + 1], outcomes[i])
  }

  function TxsOf(blocks: seq<Block>): seq<seq<Transaction>> {
    seq(|blocks|, i requires 0 <= i < |blocks| => blocks[i].txs)
  }

  // ---- the business part of a block ----

  lemma {:induction false} StepsIgnoreTxs(t: Business, b: Block, c: Block, txs: seq<Transaction>, n: nat)
    requires n <= |txs| && b.height == c.height && b.logs == c.logs
    ensures After(Steps(b), t, txs, n) == After(Steps(c), t, txs, n)
  {
    if n > 0 {
      StepsIgnoreTxs(t, b, c, txs, n - 1);
    }
  }

  /** A block without transactions: the verdicts alone. */
  lemma NoTransaction(t: Business, b: Block)
    requires b.txs == []
    ensures BusinessBlock(t, b) == Ok(t.(governance := Gov.Finalize(t.governance, b.height, b.time)))
  {
  }

  /**
   One more transaction in a block: the ERC-20 movements, with the log array that the block holds under its hash, and
   then the governance tables, on what the others led to.
   */
  lemma OneMoreTransaction(t: Business, b: Block, tx: Transaction)
    ensures BusinessBlock(t, b.(txs := b.txs + [tx])) ==
      match BusinessBlock(t, b)
      case Thrown => Thrown
      case Ok(t') =>
        match Erc20.ApplyTx(t'.erc20, tx, if tx.hash in b.logs then b.logs[tx.hash] else [])
        case Thrown => Thrown
        case Ok(erc20) => Ok(Business(erc20, Gov.ApplyTx(t'.governance, tx, b.height)))
  {
    var c, n := b.(txs := b.txs + [tx]), |b.txs|;
    var begun := t.(governance := Gov.Finalize(t.governance, b.height, b.time));
    StepsIgnoreTxs(begun, b, c, c.txs, n);
    AfterPrefix(Steps(b), begun, b.txs, [tx], n);
    BusinessOneMore(begun, c, n);
  }

  // ---- the native ledger ----

  /** In every block every reference is harmless when its turn comes. */
  ghost predicate AllHarmless(states: seq<State>, blocks: seq<Block>)
    requires |blocks| < |states|
  {
    forall i :: 0 <= i < |blocks| ==> BlockHarmless(states[i].live, blocks[i].txs)
  }

  /** The native part of each state. */
  ghost function Natives(states: seq<State>): (run: seq<Native.Ledger>)
    ensures |run| == |states|
  {
    seq(|states|, i requires 0 <= i < |states| => NativePart(states[i]))
  }

  lemma NativeStep(states: seq<State>, blocks: seq<Block>, outcomes: seq<Outcome<()>>, i: nat)
    requires IsRun(states, blocks, outcomes) && i < |blocks| && BlockHarmless(states[i].live, blocks[i].txs)
    ensures Native.Next(NativePart(states[i]), blocks[i].txs, NativePart(states[i + 1]))
  {
    assert Stored(states[i], blocks[i], states[i + 1], outcomes[i]);
    StoredIsNext(states[i], blocks[i], states[i + 1], outcomes[i]);
  }

  lemma NativesStep(states: seq<State>, blocks: seq<Block>, outcomes: seq<Outcome<()>>, i: nat)
    requires IsRun(states, blocks, outcomes) && i < |blocks| && BlockHarmless(states[i].live, blocks[i].txs)
    ensures Native.Next(Natives(states)[i], TxsOf(blocks)[i], Natives(states)[i + 1])
  {
    assert Natives(states)[i] == NativePart(states[i]) && Natives(states)[i + 1] == NativePart(states[i + 1]);
    assert TxsOf(blocks)[i] == blocks[i].txs;
    NativeStep(states, blocks, outcomes, i);
  }

  lemma NativesAreRun(states: seq<State>, blocks: seq<Block>, outcomes: seq<Outcome<()>>)
    requires IsRun(states, blocks, outcomes) && AllHarmless(states, blocks)
    ensures Native.IsRun(Natives(states), TxsOf(blocks))
  {
    var run, txs := Natives(states), TxsOf(blocks);
    forall i | 0 <= i < |txs| ensures Native.Next(run[i], txs[i], run[i + 1]) {
      NativesStep(states, blocks, outcomes, i);
    }
  }

  /**
   After any blocks, repeated ones and ones whose business part threw included: each balance is the sum of the
   unspent outputs plus the value of what was overwritten.
   */
  lemma NativeInvariant(states: seq<State>, blocks: seq<Block>, outcomes: seq<Outcome<()>>, n: nat)
    requires IsRun(states, blocks, outcomes) && AllHarmless(states, blocks) && n <= |blocks|
    ensures forall k ::
      Balances.Balance(states[n].balances, k)
        == Unspent(states[n].live, k) + Native.ReplacedSoFar(Natives(states), TxsOf(blocks), n, k)
    ensures forall k :: Balances.Balance(states[n].balances, k) >= Unspent(states[n].live, k)
  {
    NativesAreRun(states, blocks, outcomes);
    forall k
      ensures Balances.Balance(states[n].balances, k)
        == Unspent(states[n].live, k) + Native.ReplacedSoFar(Natives(states), TxsOf(blocks), n, k)
      ensures Balances.Balance(states[n].balances, k) >= Unspent(states[n].live, k)
    {
      Native.DriftOverRun(Natives(states), TxsOf(blocks), n, k);
    }
  }

  /**
   The balances are the unspent sums, and every total the supply, exactly as long as no transaction puts an
   output over a live one of some value.
   */
  lemma ViewOfSystem(states: seq<State>, blocks: seq<Block>, outcomes: seq<Outcome<()>>, n: nat)
    requires IsRun(states, blocks, outcomes) && AllHarmless(states, blocks) && n <= |blocks|
    requires Native.NoWrapsIn(TxsOf(blocks))
    ensures var overwrites := Native.RunOverwrites(Natives(states), TxsOf(blocks), n);
      && (!overwrites <==> forall k :: Balances.Balance(states[n].balances, k) == Unspent(states[n].live, k))
      && (!overwrites ==> forall a :: Balances.RowsTotal(states[n].balances, a) == Native.Supply(states[n].live, a))
  {
    NativesAreRun(states, blocks, outcomes);
    Native.RunIsCovered(Natives(states), TxsOf(blocks), n);
    Native.ViewOverRun(Natives(states), TxsOf(blocks), n);
    Native.SupplyOverRun(Natives(states), TxsOf(blocks), n);
  }

  /** The only exception is that of the business part: no scan throws, and no balance goes below zero. */
  lemma OnlyBusinessThrows(states: seq<State>, blocks: seq<Block>, outcomes: seq<Outcome<()>>, n: nat)
    requires IsRun(states, blocks, outcomes) && AllHarmless(states, blocks) && n < |blocks|
    ensures outcomes[n].Thrown? <==> BusinessBlock(states[n].business, blocks[n]).Thrown?
  {
    NativesAreRun(states, blocks, outcomes);
    Native.RunIsCovered(Natives(states), TxsOf(blocks), n);
    Native.NeverNegative(Natives(states)[n], blocks[n].txs);
    assert Stored(states[n], blocks[n], states[n + 1], outcomes[n]);
    StoredIsNext(states[n], blocks[n], states[n + 1], outcomes[n]);
  }

  ghost function AllHashes(blocks: seq<Block>): set<string> {
    set b, tx | b in blocks && tx in b.txs :: tx.hash
  }

  /** No hash that the chain refers to has another of its hashes going on with a colon behind it. */
  ghost predicate NoNesting(blocks: seq<Block>) {
    forall b, tx :: b in blocks && tx in b.txs ==> ApartFrom(AllHashes(blocks), tx)
  }

  lemma BlockOfUnnested(live: map<OutRef, Entry>, blocks: seq<Block>, b: Block)
    requires NoNesting(blocks) && b in blocks && HashesIn(live, AllHashes(blocks))
    ensures BlockHarmless(live, b.txs) && HashesIn(ProcessAll(live, b.txs).live, AllHashes(blocks))
  {
    forall tx | tx in b.txs ensures tx.hash in AllHashes(blocks) && ApartFrom(AllHashes(blocks), tx) {
    }
    ApartBlockIsHarmless(live, b.txs, AllHashes(blocks));
  }

  /** In particular: every reference of a chain without nested hashes is harmless. */
  lemma {:induction false} UnnestedIsHarmless(
      states: seq<State>, blocks: seq<Block>, outcomes: seq<Outcome<()>>, n: nat)
    requires IsRun(states, blocks, outcomes) && NoNesting(blocks) && n <= |blocks|
    ensures HashesIn(states[n].live, AllHashes(blocks))
    ensures forall i :: 0 <= i < n ==> BlockHarmless(states[i].live, blocks[i].txs)
  {
    if n > 0 {
      var i := n - 1;
      UnnestedIsHarmless(states, blocks, outcomes, i);
      BlockOfUnnested(states[i].live, blocks, blocks[i]);
      NativeStep(states, blocks, outcomes, i);
    }
  }

  // ---- the business tables ----

  /** The blocks whose business transaction was committed. */
  function Committed(blocks: seq<Block>, outcomes: seq<Outcome<()>>, n: nat): seq<Block>
    requires n <= |blocks| && n <= |outcomes|
  {
    if n == 0 then [] else
      Committed(blocks, outcomes, n - 1) + if outcomes[n - 1].Ok? then [blocks[n - 1]] else []
  }

  function AllSteps(blocks: seq<Block>): seq<Erc20Runs.Step> {
    if blocks == [] then [] else
      AllSteps(blocks[..|blocks| - 1]) + StepsOf(blocks[|blocks| - 1], |blocks[|blocks| - 1].txs|)
  }

  lemma StepsSnoc(t: Erc20.Tables, steps: seq<Erc20Runs.Step>, s: Erc20Runs.Step)
    ensures Erc20Runs.ApplySteps(t, steps + [s]) ==
      match Erc20Runs.ApplySteps(t, steps) case Thrown => Thrown case Ok(t') => Erc20.ApplyTx(t', s.tx, s.logs)
  {
    assert (steps + [s])[..|steps|] == steps;
  }

  lemma {:induction false} StepsConcat(t: Erc20.Tables, a: seq<Erc20Runs.Step>, b: seq<Erc20Runs.Step>)
    ensures Erc20Runs.ApplySteps(t, a + b) ==
      match Erc20Runs.ApplySteps(t, a) case Thrown => Thrown case Ok(t') => Erc20Runs.ApplySteps(t', b)
  {
    if b == [] {
      assert a + b == a;
    } else {
      var init, last := b[..|b| - 1], b[|b| - 1];
      StepsConcat(t, a, init);
      assert a + b == (a + init) + [last];
      StepsSnoc(t, a + init, last);
    }
  }

  /** A committed block moves both business parts by its own transactions. */
  lemma CommitSplits(s: State, b: Block, s': State, r: Outcome<()>)
    requires Stored(s, b, s', r) && r.Ok?
    ensures s'.business.governance == Gov.ApplyBlock(s.business.governance, b)
    ensures Erc20Runs.ApplySteps(s.business.erc20, StepsOf(b, |b.txs|)) == Ok(s'.business.erc20)
  {
    BusinessSplits(s.business.(governance := Gov.Finalize(s.business.governance, b.height, b.time)), b, |b.txs|);
    assert b.txs[..|b.txs|] == b.txs;
  }

  /** The tables a run of exactly these blocks ends with. */
  ghost predicate Follows(t: Business, blocks: seq<Block>) {
    t.governance == Gov.Run(blocks) && Erc20Runs.ApplySteps(Erc20Runs.EMPTY, AllSteps(blocks)) == Ok(t.erc20)
  }

  lemma CommitExtends(s: State, before: seq<Block>, b: Block, s': State, r: Outcome<()>)
    requires Follows(s.business, before) && Stored(s, b, s', r) && r.Ok?
    ensures Follows(s'.business, before + [b])
  {
    var after := before + [b];
    CommitSplits(s, b, s', r);
    assert after[..|before|] == before;
    StepsConcat(Erc20Runs.EMPTY, AllSteps(before), StepsOf(b, |b.txs|));
  }

  /** The business tables are those of a run of the committed blocks alone. */
  lemma {:induction false} BusinessIsCommitted(
      states: seq<State>, blocks: seq<Block>, outcomes: seq<Outcome<()>>, n: nat)
    requires IsRun(states, blocks, outcomes) && n <= |blocks|
    ensures Follows(states[n].business, Committed(blocks, outcomes, n))
  {
    if n > 0 {
      var i := n - 1;
      BusinessIsCommitted(states, blocks, outcomes, i);
      assert Stored(states[i], blocks[i], states[i + 1], outcomes[i]);
      var before := Committed(blocks, outcomes, i);
      if outcomes[i].Ok? {
        CommitExtends(states[i], before, blocks[i], states[n], outcomes[i]);
      } else {
        assert before + [] == before;
      }
    }
  }

  /**
   ERC-20 conservation for the stored tables: every contract's balances are what the recorded movements
   minted less what they burned.
   */
  lemma Erc20Invariant(states: seq<State>, blocks: seq<Block>, outcomes: seq<Outcome<()>>, n: nat, c: string)
    requires IsRun(states, blocks, outcomes) && n <= |blocks|
    ensures var steps := AllSteps(Committed(blocks, outcomes, n));
      && Erc20Runs.Readable(steps) && Erc20.ApplyMovements(Erc20Runs.EMPTY, Erc20Runs.AllMovements(steps)).Ok?
      && Erc20Runs.Supply(states[n].business.erc20, c)
          == Erc20Runs.Net(Erc20Runs.Recorded(Erc20Runs.EMPTY, Erc20Runs.AllMovements(steps)), c)
  {
    BusinessIsCommitted(states, blocks, outcomes, n);
    Erc20Runs.Conservation(AllSteps(Committed(blocks, outcomes, n)), c);
  }
}
