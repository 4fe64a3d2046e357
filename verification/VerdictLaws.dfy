/**
 Proposals, votes and verdicts told from the members of transactions and votes: which transactions count for
 what, which votes a reference has, and which way they decide.
 */
module VerdictLaws {
  import opened Wrappers
  import opened Sums
  import opened Text
  import opened Chain
  import opened Governance
  import opened GovernanceLaws

  // ---- which votes a reference has ----

  /** A vote on `ref` is one on `target`: equal up to case, each without its "0x"; a bare "0x" is kept by the latter. */
  predicate Refers(ref: string, target: string) {
    Lower(if "0x" <= ref || "0X" <= ref then ref[2..] else ref)
      == Lower(if |target| > 2 && ("0x" <= target || "0X" <= target) then target[2..] else target)
  }

  lemma RefersExactly(ref: string, target: string)
    ensures QueryRef(ref) == NormalizeVoteRef(target) <==> Refers(ref, target)
  {
    if |target| > 2 {
      assert "0x" <= target <==> target[0] == '0' && target[1] == 'x';
      assert "0X" <= target <==> target[0] == '0' && target[1] == 'X';
    }
  }

  /** The approving number of a target is the sum of its votes of type 1, the rejecting one that of type 0. */
  lemma TallyAdds(votes: map<string, Vote>, hash: string, v: Vote, target: string, voteType: nat)
    requires hash !in votes
    ensures Tally(map[], target, voteType) == 0
    ensures Tally(votes[hash := v], target, voteType)
         == Tally(votes, target, voteType) + if v.voteType == voteType && Refers(v.ref, target) then v.number else 0
  {
    RefersExactly(v.ref, target);
    TotalUpdate(votes, Cast(NormalizeVoteRef(target), voteType), hash, v);
  }

  /** The voters of a target are the addresses of its votes of any type, up to case. */
  lemma VotersAdd(votes: map<string, Vote>, hash: string, v: Vote, target: string)
    requires hash !in votes
    ensures VotersFor(map[], NormalizeVoteRef(target)) == {}
    ensures VotersFor(votes[hash := v], NormalizeVoteRef(target))
         == VotersFor(votes, NormalizeVoteRef(target)) + if Refers(v.ref, target) then {Lower(v.address)} else {}
  {
    var more, key := votes[hash := v], NormalizeVoteRef(target);
    RefersExactly(v.ref, target);
    forall x | x in VotersFor(votes, key) ensures x in VotersFor(more, key) {
      var h :| h in votes && QueryRef(votes[h].ref) == key && Lower(votes[h].address) == x;
      assert h in more && more[h] == votes[h];
    }
    if Refers(v.ref, target) {
      assert hash in more && more[hash] == v;
    }
  }

  lemma NoneOfType(votes: map<string, Vote>, target: string, voteType: nat)
    requires forall h :: h in votes && Refers(votes[h].ref, target) ==> votes[h].voteType != voteType
    ensures Tally(votes, target, voteType) == 0
  {
    var w := Cast(NormalizeVoteRef(target), voteType);
    forall h | h in votes ensures w(h, votes[h]) == 0 {
      RefersExactly(votes[h].ref, target);
    }
    TotalZero(votes, w);
  }

  lemma SomeOfType(votes: map<string, Vote>, target: string, voteType: nat, hash: string)
    requires hash in votes && Refers(votes[hash].ref, target) && votes[hash].voteType == voteType
    ensures Tally(votes, target, voteType) >= votes[hash].number
  {
    RefersExactly(votes[hash].ref, target);
    TotalAtLeast(votes, Cast(NormalizeVoteRef(target), voteType), hash);
  }

  // ---- verdicts ----

  /** The votes of a target carry it at a block of this time, under the terms of `info`. */
  ghost predicate Carried(votes: map<string, Vote>, target: string, info: FlowInfo, time: nat) {
    && info.endTime.Some? && info.minVoteNum.Some?
    && (info.expirationDate.Some? ==>
        info.endTime.value <= info.expirationDate.value && time <= info.expirationDate.value)
    && |VotersFor(votes, NormalizeVoteRef(target))| >= info.minVoteNum.value
    && Tally(votes, target, 1) > Tally(votes, target, 0)
  }

  /** The time is past a non-zero end. */
  predicate Past(info: FlowInfo, time: nat) {
    info.endTime.Some? && 0 < info.endTime.value < time
  }

  /** A decided row carries the block's height and time. */
  function Decided(p: Proposal, height: nat, time: nat): Proposal {
    p.(finalizedHeight := Some(height), finalizedTime := Some(time))
  }

  /**
   The whole row: a pending one is decided or left, an active one with a revocation that is due is revoked or keeps
   its state with the revocation missing, and nothing else changes.
   */
  lemma RowExactly(t: Tables, height: nat, time: nat, a: string)
    requires a in t.proposals
    ensures a in Finalize(t, height, time).proposals
    ensures Finalize(t, height, time).votes == t.votes
    ensures var p := t.proposals[a];
      Finalize(t, height, time).proposals[a] ==
        match p.flow
        case Pending => (
          match p.info
          case None => Decided(p.(flow := Missing), height, time)
          case Some(info) =>
            if info.crossChainTxType != Some(0) && info.crossChainTxType != Some(2) then
              Decided(p.(flow := Ineligible), height, time)
            else if !Past(info, time) then p
            else Decided(p.(flow := if Carried(t.votes, a, info, time) then Active else Missing), height, time))
        case Active =>
          if p.revoke != RevokePending || p.revokeHash == "" || !Past(p.revokeInfo, time) then p
          else if Carried(t.votes, p.revokeHash, p.revokeInfo, time) then
            Decided(p.(flow := Revoked, isRevoked := true, revoke := RevokeDone), height, time)
          else Decided(p.(isRevoked := false, revoke := RevokeMissing), height, time)
        case _ => p
  {
  }

  /**
   What a block makes of a pending proposal: missing without information, ineligible for another cross-chain type
   than 0 or 2, pending until past its end, then active exactly if its votes carry it.
   */
  lemma VerdictExactly(t: Tables, b: Block, a: string)
    requires a in t.proposals && t.proposals[a].flow == Pending
    ensures a in ApplyBlock(t, b).proposals
    ensures ApplyBlock(t, b).proposals[a].flow ==
      match t.proposals[a].info
      case None => Missing
      case Some(info) =>
        if info.crossChainTxType != Some(0) && info.crossChainTxType != Some(2) then Ineligible
        else if !Past(info, b.time) then Pending
        else if Carried(t.votes, a, info, b.time) then Active
        else Missing
  {
    var f := Finalize(t, b.height, b.time);
    TxsKeepVerdicts(f, b.txs, b.height);
    assert a in f.proposals;
  }

  /** What a block makes of an active one: revoked exactly if a revocation is on record, past its end and carried. */
  lemma RevocationExactly(t: Tables, b: Block, a: string)
    requires a in t.proposals && t.proposals[a].flow == Active
    ensures a in ApplyBlock(t, b).proposals
    ensures var p := t.proposals[a];
      ApplyBlock(t, b).proposals[a].flow ==
        if p.revoke == RevokePending && p.revokeHash != "" && Past(p.revokeInfo, b.time)
           && Carried(t.votes, p.revokeHash, p.revokeInfo, b.time)
        then Revoked else Active
  {
    RevokeVerdict(t, b, a);
  }

  // ---- what transactions do ----

  /** The first owner of the first utxo, "" if there is none. */
  function Author(tx: Transaction): string {
    if |tx.utxos| > 0 && |tx.utxos[0].owner| > 0 then tx.utxos[0].owner[0] else ""
  }

  /** A proposal enters under "OHI" if it is the first, else under its hash, unless that or its hash is there. */
  lemma ProposalEnters(t: Tables, tx: Transaction, height: nat)
    requires tx.ty == 11 && tx.info.Some? && Author(tx) != ""
    ensures var a, first := if "OHI" in t.proposals then tx.hash else "OHI", "OHI" !in t.proposals;
      ApplyTx(t, tx, height) ==
        if a in t.proposals || (exists o :: o in t.proposals && t.proposals[o].txHash == tx.hash) then t
        else t.(proposals := t.proposals[a := Proposal(
          tx.hash, height, Author(tx), Some(tx.info.value.flow), 0, first, false, "",
          FlowInfo(None, None, None, None), 0, Pending, NoRevoke, None, None)])
  {
  }

  /** A revocation is put on record for the asset it names, with "0xOHI" and "0XOHI" for the first one. */
  lemma RevocationEnters(t: Tables, tx: Transaction, height: nat)
    requires tx.ty == 12 && tx.info.Some? && tx.info.value.proposalHash != ""
    ensures var i := tx.info.value;
      var a := if i.proposalHash == "0xOHI" || i.proposalHash == "0XOHI" then "OHI" else i.proposalHash;
      ApplyTx(t, tx, height) ==
        if a !in t.proposals then t
        else t.(proposals := t.proposals[a := t.proposals[a].(
          revoke := RevokePending, revokeHash := tx.hash, revokeInfo := i.flow, revokeTime := tx.time)])
  {
    FirstAsset(tx.info.value.proposalHash);
  }

  lemma FirstAsset(ref: string)
    ensures NormalizeProposalAsset(ref) == if ref == "0xOHI" || ref == "0XOHI" then "OHI" else ref
  {
    if HasHexPrefix(ref) && |ref| > 2 && ref[2..] == "OHI" {
      assert ref == ref[..2] + ref[2..];
    }
  }

  /** A vote enters under its hash unless that is there, and its number is added to the named asset either way. */
  lemma VoteEnters(t: Tables, tx: Transaction, height: nat)
    requires tx.ty == 13 && tx.info.Some? && tx.info.value.voteHash != ""
    ensures var i := tx.info.value;
      var a := if i.voteHash == "0xOHI" || i.voteHash == "0XOHI" then "OHI" else i.voteHash;
      ApplyTx(t, tx, height) == Tables(
        if a !in t.proposals then t.proposals
        else t.proposals[a := t.proposals[a].(voteCount := t.proposals[a].voteCount + i.voteNumber)],
        if tx.hash in t.votes then t.votes
        else t.votes[tx.hash := Vote(height, Author(tx), i.voteHash, i.voteTxType, i.voteType, i.voteNumber)])
  {
    FirstAsset(tx.info.value.voteHash);
  }

  /** Everything else does nothing. */
  lemma OthersDoNothing(t: Tables, tx: Transaction, height: nat)
    requires tx.info.None? || !(
      || (tx.ty == 11 && Author(tx) != "")
      || (tx.ty == 12 && tx.info.value.proposalHash != "")
      || (tx.ty == 13 && tx.info.value.voteHash != ""))
    ensures ApplyTx(t, tx, height) == t
  {
  }

  // ---- from transactions to verdicts ----

  /** Transaction `tx` of a block of this height casts `v`. */
  predicate Casts(tx: Transaction, height: nat, v: Vote) {
    && tx.ty == 13 && tx.info.Some? && tx.info.value.voteHash != ""
    && var i := tx.info.value;
      v == Vote(height, Author(tx), i.voteHash, i.voteTxType, i.voteType, i.voteNumber)
  }

  ghost predicate CastIn(b: Block, hash: string, v: Vote) {
    exists tx :: tx in b.txs && tx.hash == hash && Casts(tx, b.height, v)
  }

  lemma NewVoteIsCast(t: Tables, tx: Transaction, height: nat, hash: string)
    requires hash !in t.votes && hash in ApplyTx(t, tx, height).votes
    ensures tx.hash == hash && Casts(tx, height, ApplyTx(t, tx, height).votes[hash])
  {
  }

  lemma {:induction false} VotesOfTxsAreCast(t: Tables, b: Block, n: nat, hash: string)
    requires n <= |b.txs| && hash in ApplyTxs(t, b.txs[..n], b.height).votes && hash !in t.votes
    ensures CastIn(b, hash, ApplyTxs(t, b.txs[..n], b.height).votes[hash])
  {
    if n > 0 {
      var i := n - 1;
      var before, tx := ApplyTxs(t, b.txs[..i], b.height), b.txs[i];
      assert b.txs[..n][..i] == b.txs[..i];
      assert tx in b.txs;
      if hash in before.votes {
        VotesOfTxsAreCast(t, b, i, hash);
      } else {
        NewVoteIsCast(before, tx, b.height, hash);
      }
    }
  }

  /** Every vote on record before a block was cast by a transaction of an earlier one. */
  lemma {:induction false} VotesAreCast(blocks: seq<Block>, k: nat, hash: string)
    requires k <= |blocks| && hash in Run(blocks[..k]).votes
    ensures exists j :: 0 <= j < k && CastIn(blocks[j], hash, Run(blocks[..k]).votes[hash])
  {
    if k > 0 {
      var n := k - 1;
      var t, b := Run(blocks[..n]), blocks[n];
      var f := Finalize(t, b.height, b.time);
      RunStep(blocks, n);
      VotesOfTxs(f, b.txs, b.height);
      if hash in t.votes {
        VotesAreCast(blocks, n, hash);
      } else {
        assert b.txs[..|b.txs|] == b.txs;
        VotesOfTxsAreCast(f, b, |b.txs|, hash);
      }
    }
  }

  /** No transaction of the first `k` blocks is a vote of this type on `a`. */
  ghost predicate NobodyVotes(blocks: seq<Block>, k: nat, a: string, voteType: nat)
    requires k <= |blocks|
  {
    forall j, tx :: 0 <= j < k && tx in blocks[j].txs ==>
      !(tx.ty == 13 && tx.info.Some? && Refers(tx.info.value.voteHash, a) && tx.info.value.voteType == voteType)
  }

  lemma NobodyCounts(blocks: seq<Block>, k: nat, a: string, voteType: nat)
    requires k <= |blocks| && NobodyVotes(blocks, k, a, voteType)
    ensures Tally(Run(blocks[..k]).votes, a, voteType) == 0
  {
    var votes := Run(blocks[..k]).votes;
    forall h | h in votes && Refers(votes[h].ref, a) ensures votes[h].voteType != voteType {
      VotesAreCast(blocks, k, h);
      var j :| 0 <= j < k && CastIn(blocks[j], h, votes[h]);
      var tx :| tx in blocks[j].txs && tx.hash == h && Casts(tx, blocks[j].height, votes[h]);
    }
    NoneOfType(votes, a, voteType);
  }

  /** Rejecting votes alone, or none, leave a proposal missing once its end is past. */
  lemma RejectedIsMissing(blocks: seq<Block>, k: nat, a: string, info: FlowInfo)
    requires k < |blocks| && FlowAt(blocks, k, a) == Some(Pending)
    requires Run(blocks[..k]).proposals[a].info == Some(info)
    requires (info.crossChainTxType == Some(0) || info.crossChainTxType == Some(2)) && Past(info, blocks[k].time)
    requires NobodyVotes(blocks, k, a, 1)
    ensures FlowAt(blocks, k + 1, a) == Some(Missing)
  {
    NobodyCounts(blocks, k, a, 1);
    RunStep(blocks, k);
    VerdictExactly(Run(blocks[..k]), blocks[k], a);
  }

  /** Approving votes that nobody contradicts, from enough voters, make it active, if it has not expired. */
  lemma ApprovedIsActive(blocks: seq<Block>, k: nat, a: string, info: FlowInfo, hash: string)
    requires k < |blocks| && FlowAt(blocks, k, a) == Some(Pending)
    requires Run(blocks[..k]).proposals[a].info == Some(info)
    requires (info.crossChainTxType == Some(0) || info.crossChainTxType == Some(2)) && Past(info, blocks[k].time)
    requires info.minVoteNum.Some? && NobodyVotes(blocks, k, a, 0)
    requires info.expirationDate.Some? ==>
      info.endTime.value <= info.expirationDate.value && blocks[k].time <= info.expirationDate.value
    requires var votes := Run(blocks[..k]).votes;
      && hash in votes && Refers(votes[hash].ref, a) && votes[hash].voteType == 1 && votes[hash].number > 0
      && |VotersFor(votes, NormalizeVoteRef(a))| >= info.minVoteNum.value
    ensures FlowAt(blocks, k + 1, a) == Some(Active)
  {
    NobodyCounts(blocks, k, a, 0);
    SomeOfType(Run(blocks[..k]).votes, a, 1, hash);
    RunStep(blocks, k);
    VerdictExactly(Run(blocks[..k]), blocks[k], a);
  }
}
