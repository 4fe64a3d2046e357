/** The running vote_count against the recount of the votes table. */
module VoteCountLaws {
  import opened Wrappers
  import opened Sums
  import opened Chain
  import opened Governance
  import opened GovernanceLaws

  /** Approving and rejecting numbers as the verdict's query adds them up. */
  ghost function Recount(votes: map<string, Vote>, asset: string): nat {
    Tally(votes, asset, 1) + Tally(votes, asset, 0)
  }

  ghost predicate CountsAgree(t: Tables) {
    forall a :: a in t.proposals ==> t.proposals[a].voteCount == Recount(t.votes, a)
  }

  // ---- references ----

  /** The two normalisations of a reference differ on the bare prefix only. */
  lemma NormalisationsAgree(ref: string)
    ensures NormalizeVoteRef(ref) == QueryRef(ref) <==> ref != "0x" && ref != "0X"
  {
    if HasHexPrefix(ref) && |ref| == 2 {
      assert ref == "0x" || ref == "0X";
      assert ref[2..] == "";
      assert |QueryRef(ref)| == 0 && |NormalizeVoteRef(ref)| == 2;
    }
  }

  /** A vote's counter and its recount name the same proposal. */
  lemma ReferenceResolves(ref: string)
    requires var a := NormalizeProposalAsset(ref); a != "0x" && a != "0X"
    ensures QueryRef(ref) == NormalizeVoteRef(NormalizeProposalAsset(ref))
  {
    NormalisationsAgree(ref);
    if NormalizeProposalAsset(ref) != ref {
      assert ref[2..] == OHI;
    }
  }

  // ---- one step ----

  /** The recount of `asset` would include this vote. */
  predicate Recounted(t: Tables, hash: string, v: Vote, asset: string) {
    hash !in t.votes && v.voteType <= 1 && QueryRef(v.ref) == NormalizeVoteRef(asset)
  }

  /** The transactions after which counter and recount still agree. */
  ghost predicate CountSafe(t: Tables, tx: Transaction, height: nat) {
    if IsProposal(tx) then
      Taken(t.proposals, AssetOf(t, tx), tx.hash) || Recount(t.votes, AssetOf(t, tx)) == 0
    else if IsVote(tx) then
      var v := VoteOf(tx, height);
      v.number == 0 || forall a :: a in t.proposals ==>
        (NormalizeProposalAsset(v.ref) == a <==> Recounted(t, tx.hash, v, a))
    else true
  }

  lemma RecountAfterVote(t: Tables, tx: Transaction, height: nat, asset: string)
    requires IsVote(tx)
    ensures var v := VoteOf(tx, height);
      Recount(CastVote(t, tx, height).votes, asset)
        == Recount(t.votes, asset) + if Recounted(t, tx.hash, v, asset) then v.number else 0
  {
    var v, target := VoteOf(tx, height), NormalizeVoteRef(asset);
    if tx.hash !in t.votes {
      TotalUpdate(t.votes, Cast(target, 1), tx.hash, v);
      TotalUpdate(t.votes, Cast(target, 0), tx.hash, v);
    }
  }

  lemma VoteExact(t: Tables, tx: Transaction, height: nat)
    requires CountsAgree(t) && IsVote(tx)
    ensures CountsAgree(CastVote(t, tx, height)) <==> CountSafe(t, tx, height)
  {
    var t' := CastVote(t, tx, height);
    var v := VoteOf(tx, height);
    assert t'.proposals.Keys == t.proposals.Keys;
    forall a | a in t.proposals
      ensures t'.proposals[a].voteCount == Recount(t'.votes, a)
         <==> v.number == 0 || (NormalizeProposalAsset(v.ref) == a <==> Recounted(t, tx.hash, v, a))
    {
      RecountAfterVote(t, tx, height, a);
    }
  }

  lemma ProposeExact(t: Tables, tx: Transaction, height: nat)
    requires CountsAgree(t) && IsProposal(tx)
    ensures CountsAgree(Propose(t, tx, height)) <==> CountSafe(t, tx, height)
  {
    var t', a := Propose(t, tx, height), AssetOf(t, tx);
    if !Taken(t.proposals, a, tx.hash) {
      assert t'.proposals[a].voteCount == 0;
    }
  }

  /** Exactly when a transaction keeps every counter equal to its recount. */
  lemma TxExact(t: Tables, tx: Transaction, height: nat)
    requires CountsAgree(t)
    ensures CountsAgree(ApplyTx(t, tx, height)) <==> CountSafe(t, tx, height)
  {
    if IsProposal(tx) {
      ProposeExact(t, tx, height);
    } else if IsVote(tx) {
      VoteExact(t, tx, height);
    }
  }

  /** Verdicts touch neither counters nor votes. */
  lemma FinalizeKeepsCounts(t: Tables, height: nat, time: nat)
    ensures CountsAgree(Finalize(t, height, time)) <==> CountsAgree(t)
  {
    var t' := Finalize(t, height, time);
    forall a | a in t.proposals ensures a in t'.proposals && t'.proposals[a].voteCount == t.proposals[a].voteCount {
    }
  }

  // ---- runs ----

  /** Every transaction is safe when its turn comes. */
  ghost predicate TxsSafe(t: Tables, txs: seq<Transaction>, height: nat) {
    forall i :: 0 <= i < |txs| ==> CountSafe(ApplyTxs(t, txs[..i], height), txs[i], height)
  }

  /** Counter and recount agree before the first transaction and after each one. */
  ghost predicate CountsAgreeThroughout(t: Tables, txs: seq<Transaction>, height: nat) {
    forall i :: 0 <= i <= |txs| ==> CountsAgree(ApplyTxs(t, txs[..i], height))
  }

  lemma OneMoreTx(t: Tables, txs: seq<Transaction>, height: nat, i: nat)
    requires i < |txs| && CountsAgree(ApplyTxs(t, txs[..i], height))
    ensures CountsAgree(ApplyTxs(t, txs[..i + 1], height))
       <==> CountSafe(ApplyTxs(t, txs[..i], height), txs[i], height)
  {
    assert txs[..i + 1][..i] == txs[..i];
    TxExact(ApplyTxs(t, txs[..i], height), txs[i], height);
  }

  lemma {:induction false} SafeUpTo(t: Tables, txs: seq<Transaction>, height: nat, n: nat)
    requires n <= |txs| && CountsAgree(t) && TxsSafe(t, txs, height)
    ensures CountsAgree(ApplyTxs(t, txs[..n], height))
  {
    if n > 0 {
      SafeUpTo(t, txs, height, n - 1);
      OneMoreTx(t, txs, height, n - 1);
    }
  }

  /** Over a block: the counts agree throughout if and only if each transaction is safe in its turn. */
  lemma TxsExact(t: Tables, txs: seq<Transaction>, height: nat)
    requires CountsAgree(t)
    ensures CountsAgreeThroughout(t, txs, height) <==> TxsSafe(t, txs, height)
  {
    if TxsSafe(t, txs, height) {
      forall i | 0 <= i <= |txs| ensures CountsAgree(ApplyTxs(t, txs[..i], height)) {
        SafeUpTo(t, txs, height, i);
      }
    }
    if CountsAgreeThroughout(t, txs, height) {
      forall i | 0 <= i < |txs| ensures CountSafe(ApplyTxs(t, txs[..i], height), txs[i], height) {
        OneMoreTx(t, txs, height, i);
      }
    }
  }

  /** The tables on which the transactions of the last block start. */
  ghost function Opened(before: seq<Block>, b: Block): Tables {
    Finalize(Run(before), b.height, b.time)
  }

  ghost predicate RunSafe(blocks: seq<Block>) {
    blocks == [] ||
    var before, b := blocks[..|blocks| - 1], blocks[|blocks| - 1];
    RunSafe(before) && TxsSafe(Opened(before, b), b.txs, b.height)
  }

  ghost predicate RunAgrees(blocks: seq<Block>) {
    blocks == [] ||
    var before, b := blocks[..|blocks| - 1], blocks[|blocks| - 1];
    RunAgrees(before) && CountsAgreeThroughout(Opened(before, b), b.txs, b.height)
  }

  /**
   Over a whole run: every vote_count is its recount after every transaction of every block if and only if each
   transaction is safe in its turn.
   */
  lemma {:induction false} RunExact(blocks: seq<Block>)
    ensures RunAgrees(blocks) <==> RunSafe(blocks)
    ensures RunAgrees(blocks) ==> CountsAgree(Run(blocks))
  {
    if blocks != [] {
      var before, b := blocks[..|blocks| - 1], blocks[|blocks| - 1];
      RunExact(before);
      if RunAgrees(before) {
        FinalizeKeepsCounts(Run(before), b.height, b.time);
        TxsExact(Opened(before, b), b.txs, b.height);
        if RunAgrees(blocks) {
          assert b.txs[..|b.txs|] == b.txs;
        }
      }
    }
  }

  // ---- orderly runs ----

  /** No two proposals are one after vote-reference normalisation, and every recorded vote names a proposal. */
  ghost predicate Settled(t: Tables) {
    && (forall a :: a in t.proposals ==> a != "0x" && a != "0X")
    && (forall a, b :: a in t.proposals && b in t.proposals && NormalizeVoteRef(a) == NormalizeVoteRef(b) ==> a == b)
    && (forall h :: h in t.votes ==> NormalizeProposalAsset(t.votes[h].ref) in t.proposals)
  }

  /** Votes have new hashes, types 0 or 1 and an existing proposal; new proposals a new normal form. */
  ghost predicate OrderlyTx(t: Tables, tx: Transaction) {
    && (IsVote(tx) ==>
          var i := tx.info.value;
          tx.hash !in t.votes && i.voteType <= 1 && NormalizeProposalAsset(i.voteHash) in t.proposals)
    && (IsProposal(tx) && !Taken(t.proposals, AssetOf(t, tx), tx.hash) ==>
          && AssetOf(t, tx) != "0x" && AssetOf(t, tx) != "0X"
          && forall a :: a in t.proposals ==> NormalizeVoteRef(a) != NormalizeVoteRef(AssetOf(t, tx)))
  }

  ghost predicate Orderly(t: Tables, txs: seq<Transaction>, height: nat) {
    forall i :: 0 <= i < |txs| ==> OrderlyTx(ApplyTxs(t, txs[..i], height), txs[i])
  }

  ghost predicate OrderlyRun(blocks: seq<Block>) {
    forall k :: 0 <= k < |blocks| ==>
      Orderly(Finalize(Run(blocks[..k]), blocks[k].height, blocks[k].time), blocks[k].txs, blocks[k].height)
  }

  lemma NothingToRecount(t: Tables, asset: string)
    requires Settled(t) && forall a :: a in t.proposals ==> NormalizeVoteRef(a) != NormalizeVoteRef(asset)
    ensures Recount(t.votes, asset) == 0
  {
    var target := NormalizeVoteRef(asset);
    forall h | h in t.votes ensures QueryRef(t.votes[h].ref) != target {
      ReferenceResolves(t.votes[h].ref);
    }
    TotalZero(t.votes, Cast(target, 1));
    TotalZero(t.votes, Cast(target, 0));
  }

  lemma OrderlyIsSafe(t: Tables, tx: Transaction, height: nat)
    requires Settled(t) && OrderlyTx(t, tx)
    ensures CountSafe(t, tx, height)
  {
    if IsProposal(tx) {
      if !Taken(t.proposals, AssetOf(t, tx), tx.hash) {
        NothingToRecount(t, AssetOf(t, tx));
      }
    } else if IsVote(tx) {
      ReferenceResolves(VoteOf(tx, height).ref);
    }
  }

  lemma OrderlyStaysSettled(t: Tables, tx: Transaction, height: nat)
    requires Settled(t) && OrderlyTx(t, tx)
    ensures Settled(ApplyTx(t, tx, height))
  {
    var t' := ApplyTx(t, tx, height);
    assert forall a :: a in t.proposals ==> a in t'.proposals;
  }

  lemma {:induction false} OrderlyTxs(t: Tables, txs: seq<Transaction>, height: nat)
    requires Settled(t) && CountsAgree(t) && Orderly(t, txs, height)
    ensures Settled(ApplyTxs(t, txs, height)) && CountsAgree(ApplyTxs(t, txs, height))
  {
    if txs != [] {
      var n, init := |txs| - 1, txs[..|txs| - 1];
      assert forall i :: 0 <= i < n ==> init[..i] == txs[..i] && init[i] == txs[i];
      OrderlyTxs(t, init, height);
      var mid := ApplyTxs(t, init, height);
      OrderlyIsSafe(mid, txs[n], height);
      TxExact(mid, txs[n], height);
      OrderlyStaysSettled(mid, txs[n], height);
    }
  }

  /** Over every orderly run each vote_count is the recount of the votes table. */
  lemma {:induction false} CountsOverRun(blocks: seq<Block>, k: nat)
    requires OrderlyRun(blocks) && k <= |blocks|
    ensures Settled(Run(blocks[..k])) && CountsAgree(Run(blocks[..k]))
  {
    if k > 0 {
      CountsOverRun(blocks, k - 1);
      RunStep(blocks, k - 1);
      var t, b := Run(blocks[..k - 1]), blocks[k - 1];
      FinalizeKeepsCounts(t, b.height, b.time);
      OrderlyTxs(Finalize(t, b.height, b.time), b.txs, b.height);
    }
  }

  // ---- what breaks the counter ----

  /** A vote that spells a proposal's bare hash with "0x" is recounted but never added to the counter. */
  lemma PrefixedReferenceDrifts(t: Tables, tx: Transaction, height: nat, asset: string)
    requires CountsAgree(t) && IsVote(tx) && asset in t.proposals
    requires asset != OHI && !HasHexPrefix(asset) && tx.info.value.voteHash == "0x" + asset
    requires tx.hash !in t.votes && tx.info.value.voteType <= 1 && tx.info.value.voteNumber > 0
    ensures !CountsAgree(CastVote(t, tx, height))
  {
    var ref := "0x" + asset;
    assert ref[2..] == asset;
    assert NormalizeProposalAsset(ref) == ref && |ref| == |asset| + 2;
    NormalisationsAgree(asset);
    VoteExact(t, tx, height);
    assert Recounted(t, tx.hash, VoteOf(tx, height), asset);
  }

  /** A vote that is stored already, handed over again for a proposal, moves the counter and not the recount. */
  lemma ReplayedVoteDrifts(t: Tables, tx: Transaction, height: nat)
    requires CountsAgree(t) && IsVote(tx) && tx.hash in t.votes
    requires tx.info.value.voteNumber > 0 && NormalizeProposalAsset(tx.info.value.voteHash) in t.proposals
    ensures !CountsAgree(CastVote(t, tx, height))
  {
    VoteExact(t, tx, height);
    assert !Recounted(t, tx.hash, VoteOf(tx, height), NormalizeProposalAsset(tx.info.value.voteHash));
  }

  const BALLOT: TxInfo := TxInfo(Absent, Absent, Absent, "", "", None, "", NO_INFO, "", "0xOHI", 11, 1, 3)
  const PROPOSING: Transaction := Transaction("p", "", 0, 11, [Utxo(["A"], [], [], "OHI")], Some(BALLOT))
  const VOTING: Transaction := Transaction("v", "", 0, 13, [], Some(BALLOT))

  /** One vote delivered twice: the row is dropped the second time, the counter moves twice. */
  lemma RepeatedVoteDrifts(height: nat)
    ensures var t := ApplyTxs(EMPTY, [PROPOSING, VOTING, VOTING], height);
      OHI in t.proposals && t.proposals[OHI].voteCount == 6 && Recount(t.votes, OHI) == 3
  {
    var txs := [PROPOSING, VOTING, VOTING];
    assert txs[..2][..1] == [PROPOSING] && txs[..2] == [PROPOSING, VOTING] && [PROPOSING][..0] == [];
    var t1 := ApplyTx(EMPTY, PROPOSING, height);
    assert ApplyTxs(EMPTY, [], height) == EMPTY;
    assert ApplyTxs(EMPTY, [PROPOSING], height) == t1;
    var t2 := ApplyTx(t1, VOTING, height);
    assert ApplyTxs(EMPTY, [PROPOSING, VOTING], height) == t2;
    assert ApplyTxs(EMPTY, txs, height) == ApplyTx(t2, VOTING, height);
    RecountAfterVote(t1, VOTING, height, OHI);
    RecountAfterVote(t2, VOTING, height, OHI);
    ReferenceResolves("0xOHI");
    assert "0xOHI"[2..] == OHI;
  }
}
