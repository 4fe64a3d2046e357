/** Storing a block: outputs, then balances, then one transaction over all business tables. */
module BlockParser {
  import opened Wrappers
  import opened Chain
  import opened UtxoStore
  import opened UtxoBooks
  import opened UtxoProcessor
  import opened SpendLaws
  import Balances = BalanceRepo
  import Native = NativeLedger
  import Erc20 = Erc20Ledger
  import Erc20Runs = Erc20Laws
  import Gov = Governance
  import GovRepos = GovernanceRepos

  /** Everything the indexer persists, as far as it is modelled. */
  datatype State = State(live: map<OutRef, Entry>, balances: Balances.Tables, business: Business)

  const EMPTY: State := State(map[], Balances.Tables(map[], map[]), Business(Erc20Runs.EMPTY, Gov.EMPTY))

  /** The tables of the business transaction. */
  datatype Business = Business(erc20: Erc20.Tables, governance: Gov.Tables)

  /** One transaction: its ERC-20 movements first, which may throw, then the modules. */
  ghost function BusinessTx(t: Business, b: Block, tx: Transaction): Outcome<Business> {
    match Erc20.ApplyTx(t.erc20, tx, LogsOf(b, tx))
    case Thrown => Thrown
    case Ok(erc20) => Ok(Business(erc20, Gov.ApplyTx(t.governance, tx, b.height)))
  }

  /** The first `n` items, each as `step` applies it; an exception ends them all. */
  ghost function After<S, T>(step: (S, T) -> Outcome<S>, s: S, xs: seq<T>, n: nat): Outcome<S>
    requires n <= |xs|
  {
    if n == 0 then Ok(s) else
      match After(step, s, xs, n - 1)
      case Thrown => Thrown
      case Ok(s') => step(s', xs[n - 1])
  }

  ghost function Steps(b: Block): (Business, Transaction) -> Outcome<Business> {
    (t, tx) => BusinessTx(t, b, tx)
  }

  /** Verdicts first, then every transaction. */
  ghost function BusinessBlock(t: Business, b: Block): Outcome<Business> {
    After(Steps(b), t.(governance := Gov.Finalize(t.governance, b.height, b.time)), b.txs, |b.txs|)
  }

  lemma {:induction false} ThrownForGood<S, T>(step: (S, T) -> Outcome<S>, s: S, xs: seq<T>, i: nat)
    requires i <= |xs| && After(step, s, xs, i).Thrown?
    ensures After(step, s, xs, |xs|).Thrown?
    decreases |xs| - i
  {
    if i < |xs| {
      ThrownForGood(step, s, xs, i + 1);
    }
  }

  lemma {:induction false} AfterPrefix<S, T>(step: (S, T) -> Outcome<S>, s: S, xs: seq<T>, ys: seq<T>, n: nat)
    requires n <= |xs|
    ensures After(step, s, xs + ys, n) == After(step, s, xs, n)
  {
    if n > 0 {
      AfterPrefix(step, s, xs, ys, n - 1);
    }
  }

  /** The transactions of a block, each with the logs of its execution result. */
  function StepsOf(b: Block, n: nat): (steps: seq<Erc20Runs.Step>)
    requires n <= |b.txs|
    ensures |steps| == n
  {
    if n == 0 then [] else StepsOf(b, n - 1) + [Erc20Runs.Step(b.txs[n - 1], LogsOf(b, b.txs[n - 1]))]
  }

  lemma Erc20OneMore(t: Erc20.Tables, b: Block, i: nat)
    requires i < |b.txs|
    ensures Erc20Runs.ApplySteps(t, StepsOf(b, i + 1)) ==
      match Erc20Runs.ApplySteps(t, StepsOf(b, i))
      case Thrown => Thrown
      case Ok(t') => Erc20.ApplyTx(t', b.txs[i], LogsOf(b, b.txs[i]))
  {
    assert StepsOf(b, i + 1)[..i] == StepsOf(b, i);
  }

  lemma GovernanceOneMore(t: Gov.Tables, b: Block, i: nat)
    requires i < |b.txs|
    ensures Gov.ApplyTxs(t, b.txs[..i + 1], b.height)
      == Gov.ApplyTx(Gov.ApplyTxs(t, b.txs[..i], b.height), b.txs[i], b.height)
  {
    assert b.txs[..i + 1][..i] == b.txs[..i];
  }

  lemma BusinessOneMore(t: Business, b: Block, i: nat)
    requires i < |b.txs|
    ensures After(Steps(b), t, b.txs, i + 1) ==
      match After(Steps(b), t, b.txs, i) case Thrown => Thrown case Ok(t') => BusinessTx(t', b, b.txs[i])
  {
  }

  lemma BusinessGoesOn(t: Business, b: Block, i: nat, before: Business, after: Outcome<Business>)
    requires i < |b.txs| && After(Steps(b), t, b.txs, i) == Ok(before) && BusinessTx(before, b, b.txs[i]) == after
    ensures After(Steps(b), t, b.txs, i + 1) == after
    ensures after.Thrown? ==> After(Steps(b), t, b.txs, |b.txs|).Thrown?
  {
    BusinessOneMore(t, b, i);
    if after.Thrown? {
      ThrownForGood(Steps(b), t, b.txs, i + 1);
    }
  }

  /** Two parts that have come so far go on independently. */
  function Joined(erc20: Outcome<Erc20.Tables>, governance: Gov.Tables): Outcome<Business> {
    match erc20
    case Thrown => Thrown
    case Ok(tables) => Ok(Business(tables, governance))
  }

  lemma SideBySide(erc20: Outcome<Erc20.Tables>, governance: Gov.Tables, b: Block, tx: Transaction)
    ensures (match Joined(erc20, governance) case Thrown => Thrown case Ok(t) => BusinessTx(t, b, tx)) ==
      Joined(match erc20 case Thrown => Thrown case Ok(t) => Erc20.ApplyTx(t, tx, LogsOf(b, tx)),
             Gov.ApplyTx(governance, tx, b.height))
  {
  }

  /** ERC-20 and governance do not touch each other's tables, so the interleaving is the two runs side by side. */
  lemma {:induction false} BusinessSplits(t: Business, b: Block, n: nat)
    requires n <= |b.txs|
    ensures After(Steps(b), t, b.txs, n)
      == Joined(Erc20Runs.ApplySteps(t.erc20, StepsOf(b, n)), Gov.ApplyTxs(t.governance, b.txs[..n], b.height))
  {
    if n > 0 {
      var i := n - 1;
      BusinessSplits(t, b, i);
      Erc20OneMore(t.erc20, b, i);
      GovernanceOneMore(t.governance, b, i);
      BusinessOneMore(t, b, i);
      SideBySide(Erc20Runs.ApplySteps(t.erc20, StepsOf(b, i)), Gov.ApplyTxs(t.governance, b.txs[..i], b.height),
                 b, b.txs[i]);
    }
  }

  ghost function NativePart(s: State): Native.Ledger {
    Native.Ledger(s.live, s.balances)
  }

  /** The block got past its output and balance steps. */
  ghost predicate Folds(s: State, b: Block) {
    var w := WalkAll(s.live, b.txs);
    !w.thrown && Balances.Affordable(s.balances, w.books.deltas)
  }

  /**
   One ParseAndStore. The outputs move in any case, as far as the scans come; the balances fold the deltas
   unless a scan threw or some balance would go below zero; the business tables move when that worked and
   nothing in the business part throws.
   */
  ghost predicate Stored(s: State, b: Block, s': State, r: Outcome<()>) {
    var w, business := WalkAll(s.live, b.txs), BusinessBlock(s.business, b);
    && s'.live == w.books.live
    && Balances.Separated(s'.balances)
    && (if Folds(s, b) then Balances.Folded(s.balances, w.books.deltas, s'.balances) else s'.balances == s.balances)
    && (if Folds(s, b) && business.Ok? then r.Ok? && s'.business == business.value
        else r.Thrown? && s'.business == s.business)
  }

  /** Where every reference is harmless the output and balance steps are a step of the native ledger. */
  lemma StoredIsNext(s: State, b: Block, s': State, r: Outcome<()>)
    requires Stored(s, b, s', r) && BlockHarmless(s.live, b.txs)
    ensures Native.Next(NativePart(s), b.txs, NativePart(s'))
    ensures r.Thrown? <==>
      !Balances.Affordable(s.balances, ProcessAll(s.live, b.txs).deltas) || BusinessBlock(s.business, b).Thrown?
  {
    WalkIsBooks(s.live, b.txs);
  }

  class BlockParser {
    const processor: UtxoProcessor
    const balances: Balances.BalanceRepo
    const erc20: Erc20.Erc20Ledger
    const proposals: GovRepos.ProposalModule
    const votes: GovRepos.VoteModule

    constructor ()
      ensures Valid() && Content() == EMPTY
    {
      var store := new UtxoStore();
      var voteRepo := new GovRepos.VoteRepo();
      var proposalRepo := new GovRepos.ProposalRepo(voteRepo);
      processor := new UtxoProcessor(store);
      balances := new Balances.BalanceRepo();
      erc20 := new Erc20.Erc20Ledger();
      proposals := new GovRepos.ProposalModule(proposalRepo);
      votes := new GovRepos.VoteModule(proposalRepo, voteRepo);
    }

    ghost predicate Valid()
      reads processor.store, balances
    {
      && processor.store.Valid()
      && Balances.Separated(balances.Content())
      && Wired()
    }

    /** Both governance modules work on the same two repositories. */
    ghost predicate Wired() {
      votes.proposals == proposals.repo && proposals.repo.voteRepo == votes.votes
    }

    ghost function Tables(): Business
      reads erc20, proposals.repo, votes.votes
    {
      Business(erc20.Content(), Gov.Tables(proposals.repo.proposals, votes.votes.votes))
    }

    ghost function Content(): State
      reads processor.store, balances, erc20, proposals.repo, votes.votes
    {
      State(processor.store.contents, balances.Content(), Tables())
    }

    method ProcessTransaction(b: Block, tx: Transaction) returns (r: Outcome<()>)
      requires Wired()
      modifies erc20, proposals.repo, votes.votes
      ensures BusinessTx(old(Tables()), b, tx) == if r.Ok? then Ok(Tables()) else Thrown
    {
      r := erc20.ApplyErc20Transfers(tx, LogsOf(b, tx));
      if r.Thrown? {
        return;
      }
      proposals.Process(tx, b.height);
      votes.Process(tx, b.height);
    }

    /** The transaction loop. */
    method ProcessTransactions(b: Block) returns (r: Outcome<()>)
      requires Wired()
      modifies erc20, proposals.repo, votes.votes
      ensures After(Steps(b), old(Tables()), b.txs, |b.txs|) == if r.Ok? then Ok(Tables()) else Thrown
    {
      ghost var start := Tables();
      var i := 0;
      while i < |b.txs|
        invariant i <= |b.txs|
        invariant After(Steps(b), start, b.txs, i) == Ok(Tables())
      {
        ghost var before := Tables();
        r := ProcessTransaction(b, b.txs[i]);
        BusinessGoesOn(start, b, i, before, if r.Ok? then Ok(Tables()) else Thrown);
        if r.Thrown? {
          return;
        }
        i := i + 1;
      }
      return Ok(());
    }

    /** The business transaction over one block, before commit or rollback. */
    method ProcessBusiness(b: Block) returns (r: Outcome<()>)
      requires Wired()
      modifies erc20, proposals.repo, votes.votes
      ensures BusinessBlock(old(Tables()), b) == if r.Ok? then Ok(Tables()) else Thrown
    {
      proposals.OnBlockStart(b.height, b.time);
      r := ProcessTransactions(b);
    }

    method ParseAndStore(b: Block) returns (r: Outcome<()>)
      requires Valid()
      modifies processor.store, balances, erc20, proposals.repo, votes.votes
      ensures Valid()
      ensures Stored(old(Content()), b, Content(), r)
    {
      var deltas := processor.ProcessBlock(b.txs);
      if deltas.Thrown? {
        return Thrown;
      }
      var folded := balances.ApplyDeltas(deltas.value);
      if folded.Thrown? {
        return Thrown;
      }
      var savedErc20, savedProposals, savedVotes := erc20.Content(), proposals.repo.proposals, votes.votes.votes;
      r := ProcessBusiness(b);
      if r.Thrown? {
        erc20.Restore(savedErc20);
        proposals.repo.proposals := savedProposals;
        votes.votes.votes := savedVotes;
      }
    }
  }
}
