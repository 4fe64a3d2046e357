/** Finality, timing of verdicts, and the vote counter, over whole runs of blocks. */
module GovernanceLaws {
  import opened Wrappers
  import opened Chain
  import opened Governance

  // ---- what transactions leave alone ----

  /** Everything a verdict writes, and the text it reads. */
  predicate SameVerdict(p: Proposal, q: Proposal) {
    q.flow == p.flow && q.isRevoked == p.isRevoked && q.info == p.info
    && q.finalizedHeight == p.finalizedHeight && q.finalizedTime == p.finalizedTime
  }

  /** No row disappears and no transaction decides one. */
  ghost predicate VerdictsKept(t: Tables, t': Tables) {
    forall a :: a in t.proposals ==> a in t'.proposals && SameVerdict(t.proposals[a], t'.proposals[a])
  }

  lemma {:induction false} TxsKeepVerdicts(t: Tables, txs: seq<Transaction>, height: nat)
    ensures VerdictsKept(t, ApplyTxs(t, txs, height))
  {
    if txs != [] {
      TxsKeepVerdicts(t, txs[..|txs| - 1], height);
    }
  }

  // ---- finality ----

  /** The only moves there are: pending to a verdict, active to revoked. */
  predicate Edge(from: Flow, to: Flow) {
    from == to
    || (from == Pending && (to == Active || to == Missing || to == Ineligible))
    || (from == Active && to == Revoked)
  }

  predicate Terminal(f: Flow) {
    f == Missing || f == Ineligible || f == Revoked
  }

  /** A block moves a proposal along at most one edge. */
  lemma BlockIsOneEdge(t: Tables, b: Block, a: string)
    requires a in t.proposals
    ensures a in ApplyBlock(t, b).proposals
    ensures Edge(t.proposals[a].flow, ApplyBlock(t, b).proposals[a].flow)
  {
    TxsKeepVerdicts(Finalize(t, b.height, b.time), b.txs, b.height);
    assert a in Finalize(t, b.height, b.time).proposals;
  }

  /** What any number of edges can lead to. */
  predicate Later(from: Flow, to: Flow) {
    && (Terminal(from) ==> to == from)
    && (from == Active ==> to == Active || to == Revoked)
    && (to == Pending ==> from == Pending)
  }

  /** The tables before each block, and after the last. */
  ghost function TablesOf(blocks: seq<Block>): nat -> Tables {
    (n: nat) => if n <= |blocks| then Run(blocks[..n]) else EMPTY
  }

  ghost predicate EdgeAt(run: nat -> Tables, n: nat, a: string) {
    a in run(n).proposals ==>
      a in run(n + 1).proposals && Edge(run(n).proposals[a].flow, run(n + 1).proposals[a].flow)
  }

  lemma {:induction false} EdgesLead(run: nat -> Tables, i: nat, j: nat, a: string)
    requires i <= j && a in run(i).proposals && forall n :: i <= n < j ==> EdgeAt(run, n, a)
    ensures a in run(j).proposals && Later(run(i).proposals[a].flow, run(j).proposals[a].flow)
    decreases j
  {
    if i < j {
      EdgesLead(run, i, j - 1, a);
      assert EdgeAt(run, j - 1, a);
    }
  }

  lemma RunHasEdges(blocks: seq<Block>, n: nat, a: string)
    requires n < |blocks|
    ensures EdgeAt(TablesOf(blocks), n, a)
  {
    RunStep(blocks, n);
    if a in Run(blocks[..n]).proposals {
      BlockIsOneEdge(Run(blocks[..n]), blocks[n], a);
    }
  }

  /** Terminal states last for ever, whatever votes, revocations and blocks follow; nothing returns to pending. */
  lemma Finality(blocks: seq<Block>, i: nat, j: nat, a: string)
    requires i <= j <= |blocks| && a in Run(blocks[..i]).proposals
    ensures a in Run(blocks[..j]).proposals
    ensures Later(Run(blocks[..i]).proposals[a].flow, Run(blocks[..j]).proposals[a].flow)
  {
    forall n | i <= n < j ensures EdgeAt(TablesOf(blocks), n, a) {
      RunHasEdges(blocks, n, a);
    }
    EdgesLead(TablesOf(blocks), i, j, a);
  }

  lemma RunStep(blocks: seq<Block>, n: nat)
    requires n < |blocks|
    ensures Run(blocks[..n + 1]) == ApplyBlock(Run(blocks[..n]), blocks[n])
  {
    assert blocks[..n + 1][..n] == blocks[..n];
  }

  // ---- the shape of the rows ----

  /** How a row relates to its key and its flags. */
  predicate RowOk(a: string, p: Proposal) {
    && (p.isRevoked <==> p.flow == Revoked)
    && p.info.Some?
    && (p.isFirst <==> a == OHI)
    && (!p.isFirst ==> p.txHash == a)
  }

  /** Every row is in order, and the first proposal of the chain is the one named OHI. */
  ghost predicate RowsOk(t: Tables) {
    && (forall a :: a in t.proposals ==> RowOk(a, t.proposals[a]))
    && (t.proposals != map[] ==> OHI in t.proposals)
  }

  lemma TxKeepsRows(t: Tables, tx: Transaction, height: nat)
    requires RowsOk(t)
    ensures RowsOk(ApplyTx(t, tx, height))
  {
  }

  lemma {:induction false} TxsKeepRows(t: Tables, txs: seq<Transaction>, height: nat)
    requires RowsOk(t)
    ensures RowsOk(ApplyTxs(t, txs, height))
  {
    if txs != [] {
      TxsKeepRows(t, txs[..|txs| - 1], height);
      TxKeepsRows(ApplyTxs(t, txs[..|txs| - 1], height), txs[|txs| - 1], height);
    }
  }

  lemma FinalizeKeepsRows(t: Tables, height: nat, time: nat)
    requires RowsOk(t)
    ensures RowsOk(Finalize(t, height, time))
  {
    var t' := Finalize(t, height, time);
    forall a | a in t'.proposals ensures RowOk(a, t'.proposals[a]) {
      assert RowOk(a, t.proposals[a]);
    }
    assert t'.proposals.Keys == t.proposals.Keys;
  }

  /**
   In every reachable state is_revoked holds exactly for revoked proposals, tx_info is never NULL (so no
   verdict is "missing" for an unreadable row), and only the chain's first proposal is OHI.
   */
  lemma {:induction false} RowsOverRun(blocks: seq<Block>)
    ensures RowsOk(Run(blocks))
  {
    if blocks != [] {
      var init, b := blocks[..|blocks| - 1], blocks[|blocks| - 1];
      RowsOverRun(init);
      FinalizeKeepsRows(Run(init), b.height, b.time);
      TxsKeepRows(Finalize(Run(init), b.height, b.time), b.txs, b.height);
    }
  }

  // ---- when and on what a verdict is taken ----

  lemma {:induction false} StaysPending(blocks: seq<Block>, i: nat, k: nat, a: string, info: FlowInfo)
    requires i <= k <= |blocks| && a in Run(blocks[..i]).proposals
    requires Run(blocks[..i]).proposals[a].flow == Pending && Run(blocks[..i]).proposals[a].info == Some(info)
    requires Eligible(info) && forall j :: i <= j < k ==> !Ready(info, blocks[j].time)
    ensures a in Run(blocks[..k]).proposals
    ensures Run(blocks[..k]).proposals[a].flow == Pending && Run(blocks[..k]).proposals[a].info == Some(info)
    decreases k
  {
    if i < k {
      StaysPending(blocks, i, k - 1, a, info);
      RunStep(blocks, k - 1);
      var t, b := Run(blocks[..k - 1]), blocks[k - 1];
      TxsKeepVerdicts(Finalize(t, b.height, b.time), b.txs, b.height);
      assert a in Finalize(t, b.height, b.time).proposals;
    }
  }

  /**
   Timing: an eligible proposal with a non-zero end time stays pending through every block that is not
   past it, and the first block past it decides. The verdict is active exactly when that block is in time,
   the expiration is not before the end, and the votes of the blocks before it give enough distinct
   voters and a majority.
   */
  lemma VerdictTiming(blocks: seq<Block>, i: nat, k: nat, a: string, info: FlowInfo, end: nat)
    requires i <= k < |blocks| && a in Run(blocks[..i]).proposals
    requires Run(blocks[..i]).proposals[a].flow == Pending && Run(blocks[..i]).proposals[a].info == Some(info)
    requires Eligible(info) && info.endTime == Some(end) && end != 0
    requires forall j :: i <= j < k ==> blocks[j].time <= end
    requires blocks[k].time > end
    ensures forall j :: i <= j <= k ==> a in Run(blocks[..j]).proposals && Run(blocks[..j]).proposals[a].flow == Pending
    ensures a in Run(blocks[..k + 1]).proposals
    ensures var votes, p := Run(blocks[..k]).votes, Run(blocks[..k + 1]).proposals[a];
      && p.finalizedHeight == Some(blocks[k].height) && p.finalizedTime == Some(blocks[k].time)
      && (p.flow == Active || p.flow == Missing)
      && (p.flow == Active <==>
            && (info.expirationDate.Some? ==>
                end <= info.expirationDate.value && blocks[k].time <= info.expirationDate.value)
            && info.minVoteNum.Some? && |VotersFor(votes, NormalizeVoteRef(a))| >= info.minVoteNum.value
            && Tally(votes, a, 1) > Tally(votes, a, 0))
  {
    forall j | i <= j <= k
      ensures a in Run(blocks[..j]).proposals && Run(blocks[..j]).proposals[a].flow == Pending
    {
      StaysPending(blocks, i, j, a, info);
    }
    StaysPending(blocks, i, k, a, info);
    RunStep(blocks, k);
    var t, b := Run(blocks[..k]), blocks[k];
    TxsKeepVerdicts(Finalize(t, b.height, b.time), b.txs, b.height);
    assert a in Finalize(t, b.height, b.time).proposals;
  }

  /** A proposal whose information has no end time, or a zero one, is never decided. */
  lemma NeverDecided(blocks: seq<Block>, i: nat, k: nat, a: string, info: FlowInfo)
    requires i <= k <= |blocks| && a in Run(blocks[..i]).proposals
    requires Run(blocks[..i]).proposals[a].flow == Pending && Run(blocks[..i]).proposals[a].info == Some(info)
    requires Eligible(info) && info.endTime.GetOr(0) == 0
    ensures a in Run(blocks[..k]).proposals && Run(blocks[..k]).proposals[a].flow == Pending
  {
    StaysPending(blocks, i, k, a, info);
  }

  /** Isolation: what a block itself contains has no influence on the verdicts it takes. */
  lemma VerdictIgnoresOwnBlock(t: Tables, b: Block, c: Block, a: string)
    requires a in t.proposals && b.height == c.height && b.time == c.time
    ensures a in ApplyBlock(t, b).proposals && a in ApplyBlock(t, c).proposals
    ensures SameVerdict(ApplyBlock(t, b).proposals[a], ApplyBlock(t, c).proposals[a])
  {
    var f := Finalize(t, b.height, b.time);
    TxsKeepVerdicts(f, b.txs, b.height);
    TxsKeepVerdicts(f, c.txs, c.height);
    assert a in f.proposals;
  }

  /** An active proposal is revoked by a block exactly when a revocation is due and the votes on it pass. */
  lemma RevokeVerdict(t: Tables, b: Block, a: string)
    requires a in t.proposals && t.proposals[a].flow == Active
    ensures a in ApplyBlock(t, b).proposals
    ensures var p, q := t.proposals[a], ApplyBlock(t, b).proposals[a];
      && (q.flow ==
            if RevokeDue(p, b.time)
              && Passes(p.revokeInfo, Stats(t.votes, p.revokeHash), b.time) then Revoked else Active)
      && (RevokeDue(p, b.time) ==> (q.isRevoked <==> q.flow == Revoked) && q.finalizedHeight == Some(b.height))
  {
    var f := Finalize(t, b.height, b.time);
    TxsKeepVerdicts(f, b.txs, b.height);
    assert a in f.proposals;
  }

  // ---- revocations ----

  /** A revocation of proposal `a`. */
  predicate Revokes(tx: Transaction, a: string) {
    IsRevocation(tx) && NormalizeProposalAsset(tx.info.value.proposalHash) == a
  }

  /** The revocation on record for a row. */
  predicate Scheduled(p: Proposal, hash: string, info: FlowInfo) {
    p.revoke == RevokePending && p.revokeHash == hash && p.revokeInfo == info
  }

  lemma OtherTxKeepsSchedule(t: Tables, tx: Transaction, height: nat, a: string, hash: string, info: FlowInfo)
    requires a in t.proposals && Scheduled(t.proposals[a], hash, info) && !Revokes(tx, a)
    ensures a in ApplyTx(t, tx, height).proposals && Scheduled(ApplyTx(t, tx, height).proposals[a], hash, info)
  {
  }

  lemma {:induction false} TxsKeepRevocation(
      t: Tables, txs: seq<Transaction>, height: nat, a: string, hash: string, info: FlowInfo)
    requires a in t.proposals && Scheduled(t.proposals[a], hash, info)
    requires forall i :: 0 <= i < |txs| ==> !Revokes(txs[i], a)
    ensures a in ApplyTxs(t, txs, height).proposals && Scheduled(ApplyTxs(t, txs, height).proposals[a], hash, info)
  {
    if txs != [] {
      var init, tx := txs[..|txs| - 1], txs[|txs| - 1];
      TxsKeepRevocation(t, init, height, a, hash, info);
      OtherTxKeepsSchedule(ApplyTxs(t, init, height), tx, height, a, hash, info);
    }
  }

  /**
   The last revocation of a proposal in a block is the one on record after it, also of a proposal made earlier in
   that block.
   */
  lemma {:induction false} LastRevocationCounts(t: Tables, txs: seq<Transaction>, height: nat, a: string, m: nat)
    requires m < |txs| && Revokes(txs[m], a) && a in ApplyTxs(t, txs[..m], height).proposals
    requires forall i :: m < i < |txs| ==> !Revokes(txs[i], a)
    ensures a in ApplyTxs(t, txs, height).proposals
    ensures Scheduled(ApplyTxs(t, txs, height).proposals[a], txs[m].hash, txs[m].info.value.flow)
  {
    var init, tx := txs[..|txs| - 1], txs[|txs| - 1];
    if m < |init| {
      assert init[..m] == txs[..m];
      LastRevocationCounts(t, init, height, a, m);
      OtherTxKeepsSchedule(ApplyTxs(t, init, height), tx, height, a, txs[m].hash, txs[m].info.value.flow);
    } else {
      assert init == txs[..m];
    }
  }

  /** The state of proposal `a` before block `n`, if it is there. */
  ghost function FlowAt(blocks: seq<Block>, n: nat, a: string): Option<Flow>
    requires n <= |blocks|
  {
    var rows := Run(blocks[..n]).proposals;
    if a in rows then Some(rows[a].flow) else None
  }

  /** Transaction `m` of block `i` is the last there to revoke `a`, which is on record when its turn comes. */
  ghost predicate LastRevocation(blocks: seq<Block>, i: nat, m: nat, a: string)
    requires i < |blocks|
  {
    var b := blocks[i];
    && m < |b.txs| && Revokes(b.txs[m], a)
    && a in ApplyTxs(Finalize(Run(blocks[..i]), b.height, b.time), b.txs[..m], b.height).proposals
    && forall n :: m < n < |b.txs| ==> !Revokes(b.txs[n], a)
  }

  lemma RevocationIsRecorded(blocks: seq<Block>, i: nat, m: nat, a: string)
    requires i < |blocks| && LastRevocation(blocks, i, m, a)
    ensures a in Run(blocks[..i + 1]).proposals
    ensures Scheduled(Run(blocks[..i + 1]).proposals[a], blocks[i].txs[m].hash, blocks[i].txs[m].info.value.flow)
  {
    RunStep(blocks, i);
    LastRevocationCounts(
      Finalize(Run(blocks[..i]), blocks[i].height, blocks[i].time), blocks[i].txs, blocks[i].height, a, m);
  }

  /** No transaction of blocks `i` up to `k` revokes `a`. */
  ghost predicate NoRevocation(blocks: seq<Block>, i: nat, k: nat, a: string)
    requires k <= |blocks|
  {
    forall j, m :: i <= j < k && 0 <= m < |blocks[j].txs| ==> !Revokes(blocks[j].txs[m], a)
  }

  /** A pending proposal keeps the revocation on record for it. */
  lemma {:induction false} PendingKeepsSchedule(
      blocks: seq<Block>, i: nat, k: nat, a: string, hash: string, info: FlowInfo)
    requires i <= k <= |blocks| && a in Run(blocks[..i]).proposals && NoRevocation(blocks, i, k, a)
    requires Scheduled(Run(blocks[..i]).proposals[a], hash, info)
    requires forall j :: i <= j < k ==> FlowAt(blocks, j, a) == Some(Pending)
    ensures a in Run(blocks[..k]).proposals && Scheduled(Run(blocks[..k]).proposals[a], hash, info)
    decreases k
  {
    if i < k {
      PendingKeepsSchedule(blocks, i, k - 1, a, hash, info);
      assert FlowAt(blocks, k - 1, a) == Some(Pending);
      RunStep(blocks, k - 1);
      var f, b := Finalize(Run(blocks[..k - 1]), blocks[k - 1].height, blocks[k - 1].time), blocks[k - 1];
      assert a in f.proposals;
      TxsKeepRevocation(f, b.txs, b.height, a, hash, info);
    }
  }

  /** An active proposal whose revocation on record is not due stays as it is. */
  lemma ActiveStep(t: Tables, b: Block, a: string, hash: string, info: FlowInfo)
    requires a in t.proposals && t.proposals[a].flow == Active && Scheduled(t.proposals[a], hash, info)
    requires !Ready(info, b.time) && forall i :: 0 <= i < |b.txs| ==> !Revokes(b.txs[i], a)
    ensures a in ApplyBlock(t, b).proposals
    ensures ApplyBlock(t, b).proposals[a].flow == Active && Scheduled(ApplyBlock(t, b).proposals[a], hash, info)
  {
    var f := Finalize(t, b.height, b.time);
    assert a in f.proposals;
    TxsKeepVerdicts(f, b.txs, b.height);
    TxsKeepRevocation(f, b.txs, b.height, a, hash, info);
  }

  lemma {:induction false} StaysScheduled(blocks: seq<Block>, i: nat, k: nat, a: string, hash: string, info: FlowInfo)
    requires i <= k <= |blocks| && a in Run(blocks[..i]).proposals
    requires Run(blocks[..i]).proposals[a].flow == Active && Scheduled(Run(blocks[..i]).proposals[a], hash, info)
    requires NoRevocation(blocks, i, k, a) && forall j :: i <= j < k ==> !Ready(info, blocks[j].time)
    ensures a in Run(blocks[..k]).proposals
    ensures Run(blocks[..k]).proposals[a].flow == Active && Scheduled(Run(blocks[..k]).proposals[a], hash, info)
    decreases k
  {
    if i < k {
      StaysScheduled(blocks, i, k - 1, a, hash, info);
      RunStep(blocks, k - 1);
      ActiveStep(Run(blocks[..k - 1]), blocks[k - 1], a, hash, info);
    }
  }

  /**
   Timing of a revocation, recorded while the proposal is pending or active: let `v` be the first block that finds
   it active. The last revocation recorded before, if no other follows, is decided by the first block from `v` on
   that is past its own end time, on the votes that earlier blocks cast for the revoking transaction. The proposal
   is active until then, and afterwards revoked exactly when they pass.
   */
  lemma RevocationTiming(blocks: seq<Block>, i: nat, m: nat, v: nat, k: nat, a: string, info: FlowInfo, end: nat)
    requires i < v <= k < |blocks| && LastRevocation(blocks, i, m, a) && NoRevocation(blocks, i + 1, k, a)
    requires forall j :: i < j < v ==> FlowAt(blocks, j, a) == Some(Pending)
    requires FlowAt(blocks, v, a) == Some(Active)
    requires blocks[i].txs[m].hash != "" && blocks[i].txs[m].info.value.flow == info
      && info.endTime == Some(end) && end != 0
    requires forall j :: v <= j < k ==> blocks[j].time <= end
    requires blocks[k].time > end
    ensures forall j :: v <= j <= k ==> FlowAt(blocks, j, a) == Some(Active)
    ensures a in Run(blocks[..k + 1]).proposals
    ensures var votes, hash, p := Run(blocks[..k]).votes, blocks[i].txs[m].hash, Run(blocks[..k + 1]).proposals[a];
      && (p.flow == Active || p.flow == Revoked) && (p.isRevoked <==> p.flow == Revoked)
      && p.finalizedHeight == Some(blocks[k].height)
      && (p.flow == Revoked <==>
            && (info.expirationDate.Some? ==>
                end <= info.expirationDate.value && blocks[k].time <= info.expirationDate.value)
            && info.minVoteNum.Some? && |VotersFor(votes, NormalizeVoteRef(hash))| >= info.minVoteNum.value
            && Tally(votes, hash, 1) > Tally(votes, hash, 0))
  {
    var hash := blocks[i].txs[m].hash;
    RevocationIsRecorded(blocks, i, m, a);
    PendingKeepsSchedule(blocks, i + 1, v, a, hash, info);
    forall j | v <= j <= k ensures FlowAt(blocks, j, a) == Some(Active) {
      StaysScheduled(blocks, v, j, a, hash, info);
    }
    StaysScheduled(blocks, v, k, a, hash, info);
    RunStep(blocks, k);
    RevokeVerdict(Run(blocks[..k]), blocks[k], a);
  }

  // ---- the votes table ----

  ghost function VoteHashes(txs: seq<Transaction>): set<string> {
    set i | 0 <= i < |txs| && IsVote(txs[i]) :: txs[i].hash
  }

  ghost function VoteHashesOf(blocks: seq<Block>): set<string> {
    if blocks == [] then {} else VoteHashesOf(blocks[..|blocks| - 1]) + VoteHashes(blocks[|blocks| - 1].txs)
  }

  lemma {:induction false} VotesOfTxs(t: Tables, txs: seq<Transaction>, height: nat)
    ensures ApplyTxs(t, txs, height).votes.Keys == t.votes.Keys + VoteHashes(txs)
    ensures forall h :: h in t.votes ==> ApplyTxs(t, txs, height).votes[h] == t.votes[h]
  {
    if txs != [] {
      var init, tx := txs[..|txs| - 1], txs[|txs| - 1];
      VotesOfTxs(t, init, height);
      VoteHashesSnoc(txs);
    }
  }

  lemma VoteHashesSnoc(txs: seq<Transaction>)
    requires txs != []
    ensures VoteHashes(txs)
      == VoteHashes(txs[..|txs| - 1]) + (if IsVote(txs[|txs| - 1]) then {txs[|txs| - 1].hash} else {})
  {
    var n, init := |txs| - 1, txs[..|txs| - 1];
    forall h | h in VoteHashes(init) ensures h in VoteHashes(txs) {
      var i :| 0 <= i < n && IsVote(init[i]) && init[i].hash == h;
      assert txs[i] == init[i];
    }
    forall h | h in VoteHashes(txs) && (!IsVote(txs[n]) || h != txs[n].hash) ensures h in VoteHashes(init) {
      var i :| 0 <= i <= n && IsVote(txs[i]) && txs[i].hash == h;
      assert i < n && init[i] == txs[i];
    }
  }

  /** One block adds its vote hashes and changes no vote on record. */
  lemma VotesOfBlock(blocks: seq<Block>, n: nat)
    requires n < |blocks|
    ensures Run(blocks[..n + 1]).votes.Keys == Run(blocks[..n]).votes.Keys + VoteHashes(blocks[n].txs)
    ensures forall h :: h in Run(blocks[..n]).votes ==> Run(blocks[..n + 1]).votes[h] == Run(blocks[..n]).votes[h]
  {
    RunStep(blocks, n);
    var t, b := Run(blocks[..n]), blocks[n];
    VotesOfTxs(Finalize(t, b.height, b.time), b.txs, b.height);
  }

  lemma {:induction false} VoteKeys(blocks: seq<Block>, k: nat)
    requires k <= |blocks|
    ensures Run(blocks[..k]).votes.Keys == VoteHashesOf(blocks[..k])
  {
    if k > 0 {
      VoteKeys(blocks, k - 1);
      VotesOfBlock(blocks, k - 1);
      assert blocks[..k][..k - 1] == blocks[..k - 1];
    }
  }

  lemma {:induction false} VotesStay(blocks: seq<Block>, j: nat, k: nat, h: string)
    requires j <= k <= |blocks| && h in Run(blocks[..j]).votes
    ensures h in Run(blocks[..k]).votes && Run(blocks[..k]).votes[h] == Run(blocks[..j]).votes[h]
    decreases k
  {
    if j < k {
      VotesStay(blocks, j, k - 1, h);
      VotesOfBlock(blocks, k - 1);
    }
  }

  /** The votes a verdict can read are those of earlier blocks, all of them, each hash as first recorded. */
  lemma VotesAreEarlierBlocks(blocks: seq<Block>, k: nat)
    requires k <= |blocks|
    ensures Run(blocks[..k]).votes.Keys == VoteHashesOf(blocks[..k])
    ensures forall j, h :: 0 <= j <= k && h in Run(blocks[..j]).votes ==>
      h in Run(blocks[..k]).votes && Run(blocks[..k]).votes[h] == Run(blocks[..j]).votes[h]
  {
    VoteKeys(blocks, k);
    forall j, h | 0 <= j <= k && h in Run(blocks[..j]).votes
      ensures h in Run(blocks[..k]).votes && Run(blocks[..k]).votes[h] == Run(blocks[..j]).votes[h]
    {
      VotesStay(blocks, j, k, h);
    }
  }
}
