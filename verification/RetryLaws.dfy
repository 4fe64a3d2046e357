/**
 What handing blocks over again does: after an exception the progress stays where it was, so the next round
 starts with the blocks that were stored before the one that threw.
 */
module RetryLaws {
  import opened Wrappers
  import opened Chain
  import opened UtxoStore
  import opened UtxoBooks
  import opened SpendLaws
  import opened TransactionLaws
  import opened BlockParser
  import opened SystemLaws
  import opened SyncScheduler
  import Native = NativeLedger
  import Parameters = Erc20Parser
  import Deployments = DeploymentLaws
  import Erc20 = Erc20Ledger
  import Erc20Runs = Erc20Laws
  import Gov = Governance

  // ---- ERC-20 tables under replay ----

  lemma {:induction false} CoveredSteps(t: Erc20.Tables, steps: seq<Erc20Runs.Step>)
    requires Erc20Runs.Readable(steps) && Erc20Runs.Covers(t, Erc20Runs.AllMovements(steps))
    ensures Erc20Runs.ApplySteps(t, steps) == Ok(t)
  {
    if steps != [] {
      var init, last := steps[..|steps| - 1], steps[|steps| - 1];
      var before, ms := Erc20Runs.AllMovements(init), Erc20.Movements(last.tx, last.logs).value;
      CoversParts(t, before, ms);
      CoveredSteps(t, init);
      Erc20Runs.CoveredChangesNothing(t, ms);
    }
  }

  lemma CoversParts(t: Erc20.Tables, a: seq<Erc20.Movement>, b: seq<Erc20.Movement>)
    requires Erc20Runs.Covers(t, a + b)
    ensures Erc20Runs.Covers(t, a) && Erc20Runs.Covers(t, b)
  {
    forall i | 0 <= i < |a| ensures Erc20.KeyOf(a[i]) in t.events && a[i].contract in t.contracts {
      assert (a + b)[i] == a[i];
    }
    forall i | 0 <= i < |b| ensures Erc20.KeyOf(b[i]) in t.events && b[i].contract in t.contracts {
      assert (a + b)[|a| + i] == b[i];
    }
  }

  /** A run of transactions applied again to the tables it led to changes nothing. */
  lemma ReplayedSteps(t: Erc20.Tables, steps: seq<Erc20Runs.Step>, t': Erc20.Tables)
    requires Erc20Runs.ApplySteps(t, steps) == Ok(t')
    ensures Erc20Runs.ApplySteps(t', steps) == Ok(t')
  {
    Erc20Runs.StepsAreMovements(t, steps);
    Erc20Runs.MovementsGrow(t, Erc20Runs.AllMovements(steps));
    CoveredSteps(t', steps);
  }

  // ---- the business tables over blocks ----

  ghost function Commit(): (Business, Block) -> Outcome<Business> {
    (t: Business, b: Block) => BusinessBlock(t, b)
  }

  /** Business transactions of consecutive blocks, up to the first that throws. */
  ghost function AfterBlocks(t: Business, blocks: seq<Block>): Outcome<Business> {
    After(Commit(), t, blocks, |blocks|)
  }

  lemma AfterSnoc(t: Business, blocks: seq<Block>, b: Block)
    ensures AfterBlocks(t, blocks + [b]) ==
      match AfterBlocks(t, blocks) case Thrown => Thrown case Ok(t') => BusinessBlock(t', b)
  {
    AfterPrefix(Commit(), t, blocks, [b], |blocks|);
  }

  lemma PrefixIsCommitted(t: Business, blocks: seq<Block>, i: nat)
    requires i <= |blocks| && AfterBlocks(t, blocks).Ok?
    ensures AfterBlocks(t, blocks[..i]).Ok?
  {
    assert blocks[..i] + blocks[i..] == blocks;
    PrefixIsOk(Commit(), t, blocks[..i], blocks[i..]);
  }

  lemma PrefixIsOk<S, T>(step: (S, T) -> Outcome<S>, s: S, xs: seq<T>, ys: seq<T>)
    requires After(step, s, xs + ys, |xs + ys|).Ok?
    ensures After(step, s, xs, |xs|).Ok?
  {
    AfterPrefix(step, s, xs, ys, |xs|);
    if After(step, s, xs, |xs|).Thrown? {
      ThrownForGood(step, s, xs + ys, |xs|);
    }
  }

  /** Only ERC-20 movements throw, so the ERC-20 tables alone decide whether blocks are committed. */
  lemma {:induction false} Erc20Decides(t: Business, blocks: seq<Block>)
    ensures match AfterBlocks(t, blocks)
      case Thrown => Erc20Runs.ApplySteps(t.erc20, AllSteps(blocks)).Thrown?
      case Ok(t') => Erc20Runs.ApplySteps(t.erc20, AllSteps(blocks)) == Ok(t'.erc20)
  {
    if blocks != [] {
      var init, b := blocks[..|blocks| - 1], blocks[|blocks| - 1];
      assert blocks == init + [b];
      Erc20Decides(t, init);
      AfterSnoc(t, init, b);
      StepsConcat(t.erc20, AllSteps(init), StepsOf(b, |b.txs|));
      if AfterBlocks(t, init).Ok? {
        var mid := AfterBlocks(t, init).value;
        BusinessSplits(mid.(governance := Gov.Finalize(mid.governance, b.height, b.time)), b, |b.txs|);
      }
    }
  }

  lemma ReplayKeepsErc20(t: Business, done: seq<Block>, t': Business)
    requires AfterBlocks(t, done) == Ok(t')
    ensures AfterBlocks(t', done).Ok? && AfterBlocks(t', done).value.erc20 == t'.erc20
  {
    Erc20Decides(t, done);
    ReplayedSteps(t.erc20, AllSteps(done), t'.erc20);
    Erc20Decides(t', done);
  }

  lemma AllStepsSnoc(blocks: seq<Block>, b: Block)
    ensures AllSteps(blocks + [b]) == AllSteps(blocks) + StepsOf(b, |b.txs|)
  {
    assert (blocks + [b])[..|blocks|] == blocks;
  }

  /**
   After blocks were committed, and handed over again, the next block is committed exactly if it would have been
   before.
   */
  lemma NextBlockAfterReplay(t: Business, done: seq<Block>, t': Business, b: Block)
    requires AfterBlocks(t, done) == Ok(t')
    ensures AfterBlocks(t', done + [b]).Ok? <==> AfterBlocks(t, done + [b]).Ok?
  {
    var steps, more := AllSteps(done), StepsOf(b, |b.txs|);
    ReplayKeepsErc20(t, done, t');
    Erc20Decides(t, done);
    Erc20Decides(t', done);
    Erc20Decides(t, done + [b]);
    Erc20Decides(t', done + [b]);
    AllStepsSnoc(done, b);
    StepsConcat(t.erc20, steps, more);
    StepsConcat(t'.erc20, steps, more);
  }

  // ---- rounds over the business tables ----

  /** The parser as a round meets it: it takes a block when the blocks before it and then this one are committed. */
  ghost function Taking(t: Business): Parser {
    (done: seq<Block>, b: Block) => AfterBlocks(t, done + [b]).Ok?
  }

  ghost function Meeting(fetch: Node, t: Business): World {
    World(fetch, Taking(t))
  }

  lemma {:induction false} TakenAreCommitted(t: Business, done: seq<Block>)
    requires Taken(Taking(t), done)
    ensures AfterBlocks(t, done).Ok?
  {
    if done != [] {
      var n := |done| - 1;
      assert Taking(t)(done[..n], done[n]);
      assert done[..n] + [done[n]] == done;
    }
  }

  lemma SnocPrefix<T>(xs: seq<T>, i: nat)
    requires i < |xs|
    ensures xs[..i] + [xs[i]] == xs[..i + 1]
  {
  }

  lemma CommittedAreTaken(t: Business, done: seq<Block>)
    requires AfterBlocks(t, done).Ok?
    ensures Taken(Taking(t), done)
  {
    forall i | 0 <= i < |done| ensures Taking(t)(done[..i], done[i]) {
      SnocPrefix(done, i);
      PrefixIsCommitted(t, done, i + 1);
    }
  }

  lemma AgreeAfterReplay(t: Business, done: seq<Block>, t': Business)
    requires AfterBlocks(t, done) == Ok(t')
    ensures AgreeOn(Taking(t), Taking(t'), done)
  {
    CommittedAreTaken(t, done);
    ReplayKeepsErc20(t, done, t');
    CommittedAreTaken(t', done);
    forall b ensures Taking(t)(done, b) == Taking(t')(done, b) {
      NextBlockAfterReplay(t, done, t', b);
    }
  }

  /**
   A retry is the same round: from the tables the first attempt left, the same ranges give the same blocks, and
   an exception comes at the same one. What it stopped at is never committed.
   */
  lemma RetryIsTheSame(fetch: Node, t: Business, batch: nat, local: nat, latest: nat, polls: nat)
    requires batch > 0
    ensures var r := RoundTrace(Meeting(fetch, t), batch, local, latest, polls);
      && AfterBlocks(t, r.processed).Ok?
      && RoundTrace(Meeting(fetch, AfterBlocks(t, r.processed).value), batch, local, latest, polls) == r
  {
    var w, start := Meeting(fetch, t), Trace([], [], polls, false);
    var r := RoundTrace(w, batch, local, latest, polls);
    RoundsAreTaken(w, batch, latest, local + 1, start);
    TakenAreCommitted(t, r.processed);
    var t' := AfterBlocks(t, r.processed).value;
    AgreeAfterReplay(t, r.processed, t');
    RoundReplays(w, Meeting(fetch, t'), batch, latest, local + 1, start);
  }

  // ---- what ParseAndStore does with a round ----

  /** A block moves the business tables, or throws and leaves them. */
  ghost predicate Fares(t: Business, b: Block, t': Business, r: Outcome<()>) {
    match BusinessBlock(t, b)
    case Ok(after) => r.Ok? && t' == after
    case Thrown => r.Thrown? && t' == t
  }

  ghost predicate IsBusinessRun(ts: seq<Business>, blocks: seq<Block>, outcomes: seq<Outcome<()>>) {
    && |ts| == |blocks| + 1 == |outcomes| + 1
    && forall i :: 0 <= i < |blocks| ==> Fares(ts[i], blocks[i], ts[i + 1], outcomes[i])
  }

  ghost function Businesses(states: seq<State>): (ts: seq<Business>)
    ensures |ts| == |states|
  {
    seq(|states|, i requires 0 <= i < |states| => states[i].business)
  }

  lemma StoredFares(s: State, b: Block, s': State, r: Outcome<()>)
    requires Stored(s, b, s', r) && (r.Thrown? <==> BusinessBlock(s.business, b).Thrown?)
    ensures Fares(s.business, b, s'.business, r)
  {
  }

  /** ParseAndStore moves the business tables by their own part alone: outputs and balances never stop a block. */
  lemma BusinessesAreRun(states: seq<State>, blocks: seq<Block>, outcomes: seq<Outcome<()>>)
    requires IsRun(states, blocks, outcomes) && AllHarmless(states, blocks)
    ensures IsBusinessRun(Businesses(states), blocks, outcomes)
  {
    var ts := Businesses(states);
    forall i | 0 <= i < |blocks| ensures Fares(ts[i], blocks[i], ts[i + 1], outcomes[i]) {
      OnlyBusinessThrows(states, blocks, outcomes, i);
      assert Stored(states[i], blocks[i], states[i + 1], outcomes[i]);
      StoredFares(states[i], blocks[i], states[i + 1], outcomes[i]);
    }
  }

  predicate AllOk(outcomes: seq<Outcome<()>>, i: nat, j: nat)
    requires i <= j <= |outcomes|
  {
    forall n :: i <= n < j ==> outcomes[n].Ok?
  }

  /** After committed blocks the next one fares as the business tables say. */
  lemma StoredNext(t: Business, done: seq<Block>, now: Business, b: Block, next: Business, r: Outcome<()>)
    requires AfterBlocks(t, done) == Ok(now) && Fares(now, b, next, r)
    ensures r.Ok? <==> Taking(t)(done, b)
    ensures r.Ok? ==> AfterBlocks(t, done + [b]) == Ok(next)
  {
    AfterSnoc(t, done, b);
  }

  /** Blocks stored without an exception are committed one after the other. */
  lemma {:induction false} StoredBlocks(
      ts: seq<Business>, blocks: seq<Block>, outcomes: seq<Outcome<()>>, i: nat, j: nat)
    requires IsBusinessRun(ts, blocks, outcomes) && i <= j <= |blocks| && AllOk(outcomes, i, j)
    ensures AfterBlocks(ts[i], blocks[i..j]) == Ok(ts[j])
    decreases j
  {
    if i < j {
      var n := j - 1;
      StoredBlocks(ts, blocks, outcomes, i, n);
      assert Fares(ts[n], blocks[n], ts[n + 1], outcomes[n]);
      StoredNext(ts[i], blocks[i..n], ts[n], blocks[n], ts[n + 1], outcomes[n]);
      assert blocks[i..j] == blocks[i..n] + [blocks[n]];
    }
  }

  lemma NextFares(ts: seq<Business>, blocks: seq<Block>, outcomes: seq<Outcome<()>>, i: nat, j: nat)
    requires IsBusinessRun(ts, blocks, outcomes) && i <= j < |blocks| && AllOk(outcomes, i, j)
    ensures outcomes[j].Ok? <==> Taking(ts[i])(blocks[i..j], blocks[j])
  {
    StoredBlocks(ts, blocks, outcomes, i, j);
    assert Fares(ts[j], blocks[j], ts[j + 1], outcomes[j]);
    StoredNext(ts[i], blocks[i..j], ts[j], blocks[j], ts[j + 1], outcomes[j]);
  }

  /**
   `Taking` is the parser: blocks stored without an exception lead to the committed tables, and what ParseAndStore
   makes of the next one is what `Taking` says.
   */
  lemma TakingIsStoring(states: seq<State>, blocks: seq<Block>, outcomes: seq<Outcome<()>>, i: nat, j: nat)
    requires IsRun(states, blocks, outcomes) && AllHarmless(states, blocks)
    requires i <= j <= |blocks| && AllOk(outcomes, i, j)
    ensures AfterBlocks(states[i].business, blocks[i..j]) == Ok(states[j].business)
    ensures j < |blocks| ==> (outcomes[j].Ok? <==> Taking(states[i].business)(blocks[i..j], blocks[j]))
  {
    BusinessesAreRun(states, blocks, outcomes);
    StoredBlocks(Businesses(states), blocks, outcomes, i, j);
    if j < |blocks| {
      NextFares(Businesses(states), blocks, outcomes, i, j);
    }
  }

  lemma TakenAtIsStored(
      ts: seq<Business>, blocks: seq<Block>, outcomes: seq<Outcome<()>>, i: nat, n: nat, done: seq<Block>)
    requires IsBusinessRun(ts, blocks, outcomes) && i <= n < |blocks| && AllOk(outcomes, i, n)
    requires n - i < |done| && blocks[i..n] == done[..n - i] && blocks[n] == done[n - i]
    requires Taken(Taking(ts[i]), done)
    ensures outcomes[n].Ok?
  {
    assert Taking(ts[i])(done[..n - i], done[n - i]);
    NextFares(ts, blocks, outcomes, i, n);
  }

  lemma {:induction false} TakenAreStored(
      ts: seq<Business>, blocks: seq<Block>, outcomes: seq<Outcome<()>>, i: nat, j: nat, done: seq<Block>)
    requires IsBusinessRun(ts, blocks, outcomes) && i <= j <= |blocks| && blocks[i..j] <= done
    requires Taken(Taking(ts[i]), done)
    ensures AllOk(outcomes, i, j)
    decreases j
  {
    if i < j {
      var n := j - 1;
      assert blocks[i..n] == blocks[i..j][..n - i] == done[..n - i];
      assert blocks[n] == blocks[i..j][n - i] == done[n - i];
      TakenAreStored(ts, blocks, outcomes, i, n, done);
      TakenAtIsStored(ts, blocks, outcomes, i, n, done);
    }
  }

  /** What a round processes is stored, and leads to the tables of the next round. */
  lemma ProcessedAreStored(
      ts: seq<Business>, blocks: seq<Block>, outcomes: seq<Outcome<()>>, i: nat, j: nat,
      w: World, batch: nat, local: nat, latest: nat, polls: nat)
    requires IsBusinessRun(ts, blocks, outcomes) && batch > 0 && i <= j <= |blocks| && w.takes == Taking(ts[i])
    requires RoundTrace(w, batch, local, latest, polls).processed == blocks[i..j]
    ensures AllOk(outcomes, i, j) && AfterBlocks(ts[i], blocks[i..j]) == Ok(ts[j])
  {
    RoundsAreTaken(w, batch, latest, local + 1, Trace([], [], polls, false));
    TakenAreStored(ts, blocks, outcomes, i, j, blocks[i..j]);
    StoredBlocks(ts, blocks, outcomes, i, j);
  }

  lemma BusinessRoundRepeats(
      ts: seq<Business>, blocks: seq<Block>, outcomes: seq<Outcome<()>>, i: nat, j: nat,
      fetch: Node, batch: nat, local: nat, latest: nat, polls: nat, r: Trace)
    requires IsBusinessRun(ts, blocks, outcomes) && batch > 0 && i <= j <= |blocks|
    requires r == RoundTrace(Meeting(fetch, ts[i]), batch, local, latest, polls) && r.processed == blocks[i..j]
    ensures AllOk(outcomes, i, j) && RoundTrace(Meeting(fetch, ts[j]), batch, local, latest, polls) == r
    ensures j < |blocks| && outcomes[j].Thrown? ==> ts[j + 1] == ts[j]
  {
    ProcessedAreStored(ts, blocks, outcomes, i, j, Meeting(fetch, ts[i]), batch, local, latest, polls);
    RetryIsTheSame(fetch, ts[i], batch, local, latest, polls);
    if j < |blocks| {
      assert Fares(ts[j], blocks[j], ts[j + 1], outcomes[j]);
    }
  }

  /**
   The system under a round: the blocks it processes are stored without an exception, and when the next one throws,
   the same round over the same heights is the same again, from the state that ParseAndStore left.
   */
  lemma StoredRoundRepeats(
      states: seq<State>, blocks: seq<Block>, outcomes: seq<Outcome<()>>, i: nat, j: nat,
      fetch: Node, batch: nat, local: nat, latest: nat, polls: nat, r: Trace)
    requires IsRun(states, blocks, outcomes) && AllHarmless(states, blocks) && batch > 0 && i <= j <= |blocks|
    requires r == RoundTrace(Meeting(fetch, states[i].business), batch, local, latest, polls)
    requires r.processed == blocks[i..j]
    ensures AllOk(outcomes, i, j)
    ensures RoundTrace(Meeting(fetch, states[j].business), batch, local, latest, polls) == r
    ensures j < |blocks| && outcomes[j].Thrown? ==>
      RoundTrace(Meeting(fetch, states[j + 1].business), batch, local, latest, polls) == r
  {
    var ts := Businesses(states);
    BusinessesAreRun(states, blocks, outcomes);
    assert ts[i] == states[i].business && ts[j] == states[j].business;
    BusinessRoundRepeats(ts, blocks, outcomes, i, j, fetch, batch, local, latest, polls, r);
    assert j < |blocks| ==> ts[j + 1] == states[j + 1].business;
  }

  // ---- attempt after attempt ----

  /** An attempt: the blocks from `i` on are stored, up to the one at `j`, which throws. */
  predicate FailedAttempt(outcomes: seq<Outcome<()>>, i: nat, j: nat)
    requires i <= j < |outcomes|
  {
    AllOk(outcomes, i, j) && outcomes[j].Thrown?
  }

  /** Block `x` is handed over again `len` blocks later, if the chain goes on that long. */
  predicate ComesAgain(blocks: seq<Block>, x: nat, len: nat) {
    x + len < |blocks| ==> blocks[x + len] == blocks[x]
  }

  lemma AgainInParts(blocks: seq<Block>, i: nat, len: nat, n: nat)
    requires i + len + n <= |blocks| && forall x :: i <= x < i + n ==> ComesAgain(blocks, x, len)
    ensures blocks[i + len..i + len + n] == blocks[i..i + n]
  {
    var again, once := blocks[i + len..i + len + n], blocks[i..i + n];
    forall x | 0 <= x < n ensures again[x] == once[x] {
      assert ComesAgain(blocks, i + x, len);
    }
  }

  /** Blocks committed once are taken again, and the next one exactly if it would have been before. */
  lemma TakenAgain(t: Business, done: seq<Block>, t': Business, b: Block, n: nat)
    requires AfterBlocks(t, done) == Ok(t') && n <= |done|
    ensures n < |done| ==> Taking(t')(done[..n], done[n])
    ensures Taking(t')(done, b) <==> Taking(t)(done, b)
  {
    AgreeAfterReplay(t, done, t');
  }

  /** A block that ended an attempt leaves the tables that the blocks before it led to. */
  lemma AttemptEnds(ts: seq<Business>, blocks: seq<Block>, outcomes: seq<Outcome<()>>, i: nat, j: nat)
    requires IsBusinessRun(ts, blocks, outcomes) && i <= j < |blocks| && FailedAttempt(outcomes, i, j)
    ensures AfterBlocks(ts[i], blocks[i..j]) == Ok(ts[j + 1]) && !Taking(ts[i])(blocks[i..j], blocks[j])
  {
    StoredBlocks(ts, blocks, outcomes, i, j);
    NextFares(ts, blocks, outcomes, i, j);
    assert Fares(ts[j], blocks[j], ts[j + 1], outcomes[j]);
  }

  /** In the second attempt block `n` is taken if it is not the last. */
  lemma SecondTakes(t: Business, done: seq<Block>, t': Business, b: Block, n: nat, c: Block)
    requires AfterBlocks(t, done) == Ok(t') && !Taking(t)(done, b) && n <= |done|
    requires c == if n < |done| then done[n] else b
    ensures Taking(t')(done[..n], c) <==> n < |done|
  {
    if n == |done| {
      assert done[..n] == done;
    }
    TakenAgain(t, done, t', b, n);
  }

  lemma SecondAttemptAt(
      ts: seq<Business>, blocks: seq<Block>, outcomes: seq<Outcome<()>>, i: nat, j: nat, m: nat, n: nat)
    requires IsBusinessRun(ts, blocks, outcomes)
    requires i <= j < m < |blocks| && FailedAttempt(outcomes, i, j) && n == m - j - 1 <= j - i
    requires AllOk(outcomes, j + 1, m)
    requires blocks[j + 1..m] == blocks[i..j][..n] && blocks[m] == if n < j - i then blocks[i..j][n] else blocks[j]
    ensures outcomes[m].Ok? <==> n < j - i
  {
    AttemptEnds(ts, blocks, outcomes, i, j);
    NextFares(ts, blocks, outcomes, j + 1, m);
    SecondTakes(ts[i], blocks[i..j], ts[j + 1], blocks[j], n, blocks[m]);
  }

  /** The second attempt follows the first: its blocks fare as they did, each in its turn. */
  lemma {:induction false} SecondAttempt(
      ts: seq<Business>, blocks: seq<Block>, outcomes: seq<Outcome<()>>, i: nat, len: nat, n: nat)
    requires IsBusinessRun(ts, blocks, outcomes)
    requires n < len && i + len + n < |blocks| && FailedAttempt(outcomes, i, i + len - 1)
    requires forall x :: i <= x <= i + n ==> ComesAgain(blocks, x, len)
    ensures AllOk(outcomes, i + len, i + len + n) && (outcomes[i + len + n].Ok? <==> n < len - 1)
  {
    var j := i + len - 1;
    if n > 0 {
      SecondAttempt(ts, blocks, outcomes, i, len, n - 1);
    }
    AgainInParts(blocks, i, len, n);
    assert blocks[i..j][..n] == blocks[i..i + n];
    assert ComesAgain(blocks, i + n, len);
    SecondAttemptAt(ts, blocks, outcomes, i, j, i + len + n, n);
  }

  /** When it has failed in its turn, it has left the ERC-20 tables alone. */
  lemma SecondLeavesErc20(ts: seq<Business>, blocks: seq<Block>, outcomes: seq<Outcome<()>>, i: nat, j: nat)
    requires IsBusinessRun(ts, blocks, outcomes) && i <= j < |blocks| && FailedAttempt(outcomes, i, j)
    requires j + 1 + (j - i) < |blocks| && FailedAttempt(outcomes, j + 1, j + 1 + (j - i))
    requires blocks[j + 1..j + 1 + (j - i)] == blocks[i..j]
    ensures ts[j + 1 + (j - i) + 1].erc20 == ts[j + 1].erc20
  {
    AttemptEnds(ts, blocks, outcomes, i, j);
    AttemptEnds(ts, blocks, outcomes, j + 1, j + 1 + (j - i));
    ReplayKeepsErc20(ts[i], blocks[i..j], ts[j + 1]);
  }

  /** From `i` on the chain that is handed over repeats itself every `len` blocks. */
  ghost predicate Repeats(blocks: seq<Block>, i: nat, len: nat) {
    forall x :: i <= x ==> ComesAgain(blocks, x, len)
  }

  /** Block `x` fares as the one `len` blocks before. */
  predicate FaresAsBefore(outcomes: seq<Outcome<()>>, x: nat, len: nat)
    requires len <= x < |outcomes|
  {
    outcomes[x].Ok? <==> outcomes[x - len].Ok?
  }

  lemma NextAttempt(
      ts: seq<Business>, blocks: seq<Block>, outcomes: seq<Outcome<()>>, i: nat, len: nat, x: nat)
    requires IsBusinessRun(ts, blocks, outcomes) && Repeats(blocks, i, len)
    requires len > 0 && i + len <= |blocks| && FailedAttempt(outcomes, i, i + len - 1)
    requires i + len <= x < |blocks| && x < i + len + len
    ensures FaresAsBefore(outcomes, x, len)
  {
    SecondAttempt(ts, blocks, outcomes, i, len, x - i - len);
  }

  lemma AttemptFails(ts: seq<Business>, blocks: seq<Block>, outcomes: seq<Outcome<()>>, i: nat, len: nat)
    requires IsBusinessRun(ts, blocks, outcomes) && Repeats(blocks, i, len)
    requires len > 0 && i + len + len <= |blocks| && FailedAttempt(outcomes, i, i + len - 1)
    ensures FailedAttempt(outcomes, i + len, i + len + len - 1)
    ensures ts[i + len + len].erc20 == ts[i + len].erc20
  {
    forall m | i + len <= m < i + len + len - 1 ensures outcomes[m].Ok? {
      NextAttempt(ts, blocks, outcomes, i, len, m);
    }
    NextAttempt(ts, blocks, outcomes, i, len, i + len + len - 1);
    AgainInParts(blocks, i, len, len - 1);
    SecondLeavesErc20(ts, blocks, outcomes, i, i + len - 1);
  }

  lemma {:induction false} BusinessAttemptsFail(
      ts: seq<Business>, blocks: seq<Block>, outcomes: seq<Outcome<()>>, i: nat, len: nat, x: nat)
    requires IsBusinessRun(ts, blocks, outcomes) && Repeats(blocks, i, len)
    requires len > 0 && i + len <= |blocks| && FailedAttempt(outcomes, i, i + len - 1)
    requires i + len <= x < |blocks|
    ensures FaresAsBefore(outcomes, x, len)
    ensures outcomes[x].Thrown? ==> ts[x + 1].erc20 == ts[i + len].erc20
    decreases |blocks| - i
  {
    if x < i + len + len {
      NextAttempt(ts, blocks, outcomes, i, len, x);
    }
    if i + len + len <= x + 1 {
      AttemptFails(ts, blocks, outcomes, i, len);
      if i + len + len <= x {
        BusinessAttemptsFail(ts, blocks, outcomes, i + len, len, x);
      }
    }
  }

  /**
   Every attempt: while the blocks up to one that threw are handed over again and again, each fares as it did the
   time before, and every attempt leaves the ERC-20 tables of the first.
   */
  lemma EveryAttemptFails(
      states: seq<State>, blocks: seq<Block>, outcomes: seq<Outcome<()>>, i: nat, len: nat, x: nat)
    requires IsRun(states, blocks, outcomes) && AllHarmless(states, blocks) && Repeats(blocks, i, len)
    requires len > 0 && i + len <= |blocks| && FailedAttempt(outcomes, i, i + len - 1)
    requires i + len <= x < |blocks|
    ensures FaresAsBefore(outcomes, x, len)
    ensures outcomes[x].Thrown? ==> states[x + 1].business.erc20 == states[i + len].business.erc20
  {
    BusinessesAreRun(states, blocks, outcomes);
    BusinessAttemptsFail(Businesses(states), blocks, outcomes, i, len, x);
  }

  lemma AttemptIsTheRound(
      ts: seq<Business>, blocks: seq<Block>, outcomes: seq<Outcome<()>>, i: nat, j: nat,
      fetch: Node, batch: nat, local: nat, latest: nat, polls: nat, r: Trace)
    requires IsBusinessRun(ts, blocks, outcomes) && i <= j < |blocks| && FailedAttempt(outcomes, i, j) && batch > 0
    requires r == RoundTrace(Meeting(fetch, ts[i]), batch, local, latest, polls) && r.processed == blocks[i..j]
    ensures RoundTrace(Meeting(fetch, ts[j + 1]), batch, local, latest, polls) == r
  {
    AttemptEnds(ts, blocks, outcomes, i, j);
    RetryIsTheSame(fetch, ts[i], batch, local, latest, polls);
  }

  lemma {:induction false} BusinessRetries(
      ts: seq<Business>, blocks: seq<Block>, outcomes: seq<Outcome<()>>, i: nat, len: nat, x: nat,
      fetch: Node, batch: nat, local: nat, latest: nat, polls: nat, r: Trace)
    requires IsBusinessRun(ts, blocks, outcomes) && Repeats(blocks, i, len) && batch > 0
    requires len > 0 && i + len <= x <= |blocks| && FailedAttempt(outcomes, i, i + len - 1) && outcomes[x - 1].Thrown?
    requires r == RoundTrace(Meeting(fetch, ts[i]), batch, local, latest, polls)
    requires r.processed == blocks[i..i + len - 1]
    ensures RoundTrace(Meeting(fetch, ts[x]), batch, local, latest, polls) == r
    decreases |blocks| - i
  {
    AttemptIsTheRound(ts, blocks, outcomes, i, i + len - 1, fetch, batch, local, latest, polls, r);
    if x > i + len {
      if x < i + len + len {
        NextAttempt(ts, blocks, outcomes, i, len, x - 1);
      }
      AttemptFails(ts, blocks, outcomes, i, len);
      AgainInParts(blocks, i, len, len - 1);
      BusinessRetries(ts, blocks, outcomes, i + len, len, x, fetch, batch, local, latest, polls, r);
    }
  }

  /**
   However often a round that threw is repeated, from the state that its last exception left: it processes the same
   blocks, throws again, and the progress stays where it was.
   */
  lemma RetriesNeverPass(
      states: seq<State>, blocks: seq<Block>, outcomes: seq<Outcome<()>>, i: nat, len: nat, x: nat,
      fetch: Node, batch: nat, local: nat, latest: nat, polls: nat, r: Trace)
    requires IsRun(states, blocks, outcomes) && AllHarmless(states, blocks) && Repeats(blocks, i, len)
    requires batch > 0 && local < latest
    requires len > 0 && i + len <= x <= |blocks| && FailedAttempt(outcomes, i, i + len - 1) && outcomes[x - 1].Thrown?
    requires r == RoundTrace(Meeting(fetch, states[i].business), batch, local, latest, polls) && r.thrown
    requires r.processed == blocks[i..i + len - 1]
    ensures RoundTrace(Meeting(fetch, states[x].business), batch, local, latest, polls) == r
    ensures Recorded(Meeting(fetch, states[x].business), batch, local, latest, polls) == local
  {
    var ts := Businesses(states);
    BusinessesAreRun(states, blocks, outcomes);
    assert ts[i] == states[i].business && ts[x] == states[x].business;
    BusinessRetries(ts, blocks, outcomes, i, len, x, fetch, batch, local, latest, polls, r);
  }

  // ---- native balances under replay ----

  /** Storing a block drifts the balances exactly when one of its transactions overwrites something of value. */
  lemma StoringDriftsExactly(s: State, b: Block, s': State, r: Outcome<()>)
    requires Native.Covered(NativePart(s)) && Stored(s, b, s', r)
    requires BlockHarmless(s.live, b.txs) && NoWraps(b.txs)
    ensures Native.Drifts(NativePart(s), NativePart(s')) <==> BlockOverwrites(s.live, b.txs)
  {
    StoredIsNext(s, b, s', r);
    Native.DriftsExactly(NativePart(s), b.txs, NativePart(s'));
  }

  /**
   A block stored again, with or without an exception in between: the second time some balance drifts exactly if
   one of its transactions overwrites something of value that the first time left live.
   */
  lemma RepeatedBlockDrifts(s: State, b: Block, s1: State, r1: Outcome<()>, s2: State, r2: Outcome<()>)
    requires Native.Covered(NativePart(s)) && Stored(s, b, s1, r1) && Stored(s1, b, s2, r2) && NoWraps(b.txs)
    requires BlockHarmless(s.live, b.txs) && BlockHarmless(s1.live, b.txs)
    ensures Native.Drifts(NativePart(s1), NativePart(s2)) <==> BlockOverwrites(ProcessAll(s.live, b.txs).live, b.txs)
  {
    StoredIsNext(s, b, s1, r1);
    Native.StaysCovered(NativePart(s), b.txs, NativePart(s1));
    StoringDriftsExactly(s1, b, s2, r2);
  }

  // ---- blocks that are never committed ----

  lemma {:induction false} UnreadableStep(t: Erc20.Tables, b: Block, i: nat, n: nat)
    requires i < n <= |b.txs| && Erc20.Movements(b.txs[i], LogsOf(b, b.txs[i])).Thrown?
    ensures Erc20Runs.ApplySteps(t, StepsOf(b, n)).Thrown?
    decreases n
  {
    assert StepsOf(b, n)[..n - 1] == StepsOf(b, n - 1);
    if i < n - 1 {
      UnreadableStep(t, b, i, n - 1);
    }
  }

  /** A block with a transaction whose parameters cannot be read without an exception is committed from no state. */
  lemma UnreadableIsNeverCommitted(s: State, b: Block, s': State, r: Outcome<()>, i: nat)
    requires Stored(s, b, s', r) && i < |b.txs| && Erc20.Movements(b.txs[i], LogsOf(b, b.txs[i])).Thrown?
    ensures r.Thrown? && s'.business == s.business
  {
    var start := s.business.(governance := Gov.Finalize(s.business.governance, b.height, b.time));
    UnreadableStep(s.business.erc20, b, i, |b.txs|);
    BusinessSplits(start, b, |b.txs|);
  }

  /** In particular one with a deployment at which the scan of the constructor arguments throws. */
  lemma ThrowingDeploymentIsNeverCommitted(s: State, b: Block, s': State, r: Outcome<()>, i: nat)
    requires Stored(s, b, s', r) && i < |b.txs| && b.txs[i].ty == 7 && b.txs[i].info.Some?
    requires Parameters.Deployment(b.txs[i].info.value, Parameters.NormalizeHex(b.txs[i].info.value.input)) == Thrown
    ensures r.Thrown? && s'.business == s.business
  {
    Deployments.ParametersThrowExactly(b.txs[i], b.txs[i].info.value);
    UnreadableIsNeverCommitted(s, b, s', r, i);
  }
}
