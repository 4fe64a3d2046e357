/** The repositories and modules that move the governance tables. */
module GovernanceRepos {
  import opened Wrappers
  import opened Sums
  import opened Text
  import opened Chain
  import opened Governance

  lemma UnionShifts<T>(a: set<T>, b: set<T>, c: set<T>)
    ensures a + (b + c) == a + c + b
  {
  }

  lemma VotersRemove(votes: map<string, Vote>, target: string, h: string)
    requires h in votes
    ensures VotersFor(votes, target) == VotersFor(votes - {h}, target)
      + if QueryRef(votes[h].ref) == target then {Lower(votes[h].address)} else {}
  {
    var rest := votes - {h};
    forall x | x in VotersFor(votes, target) && x !in VotersFor(rest, target)
      ensures QueryRef(votes[h].ref) == target && x == Lower(votes[h].address)
    {
      var j :| j in votes && QueryRef(votes[j].ref) == target && Lower(votes[j].address) == x;
      assert j !in rest;
    }
  }

  class VoteRepo {
    var votes: map<string, Vote>

    constructor ()
      ensures votes == map[]
    {
      votes := map[];
    }

    method Insert(txHash: string, v: Vote)
      modifies this
      ensures votes == if txHash in old(votes) then old(votes) else old(votes)[txHash := v]
    {
      if txHash !in votes {
        votes := votes[txHash := v];
      }
    }

    /** SUM(vote_number) over the votes of one type for `target`. */
    method SumNumbers(target: string, voteType: nat) returns (sum: nat)
      ensures sum == Total(votes, Cast(target, voteType))
    {
      sum := 0;
      var rest := votes;
      while rest != map[]
        invariant sum + Total(rest, Cast(target, voteType)) == Total(votes, Cast(target, voteType))
        decreases |rest|
      {
        var h :| h in rest;
        TotalRemove(rest, Cast(target, voteType), h);
        if QueryRef(rest[h].ref) == target && rest[h].voteType == voteType {
          sum := sum + rest[h].number;
        }
        rest := rest - {h};
      }
    }

    /** The addresses COUNT(DISTINCT LOWER(address)) counts. */
    method DistinctVoters(target: string) returns (voters: set<string>)
      ensures voters == VotersFor(votes, target)
    {
      voters := {};
      var rest := votes;
      while rest != map[]
        invariant voters + VotersFor(rest, target) == VotersFor(votes, target)
        decreases |rest|
      {
        var h :| h in rest;
        var found := if QueryRef(rest[h].ref) == target then {Lower(rest[h].address)} else {};
        VotersRemove(rest, target, h);
        UnionShifts(voters, VotersFor(rest - {h}, target), found);
        voters := voters + found;
        rest := rest - {h};
      }
      assert VotersFor(rest, target) == {};
    }

    /** The aggregate query over the votes that refer to `reference`. */
    method ReadVoteStats(reference: string) returns (stats: VoteStats)
      ensures stats == Stats(votes, reference)
    {
      var target := NormalizeVoteRef(reference);
      var approve := SumNumbers(target, 1);
      var reject := SumNumbers(target, 0);
      var voters := DistinctVoters(target);
      return VoteStats(approve, reject, |voters|);
    }
  }

  /** The rows a finalisation reads before it writes any. */
  predicate Selected(p: Proposal) {
    p.flow == Pending || (p.flow == Active && p.revoke == RevokePending)
  }

  /** Midway through a finalisation: the selected rows are final, but for those of `rest`. */
  ghost predicate Finalizing(t: Tables, height: nat, time: nat, rest: set<string>, cur: map<string, Proposal>) {
    && cur.Keys == t.proposals.Keys
    && forall a :: a in t.proposals ==>
      cur[a] == if Selected(t.proposals[a]) && a !in rest then FinalizeRow(t.votes, a, t.proposals[a], height, time)
                else t.proposals[a]
  }

  lemma FinalizeOne(
      t: Tables, height: nat, time: nat, rest: set<string>, cur: map<string, Proposal>, a: string)
    requires Finalizing(t, height, time, rest, cur) && a in rest && a in t.proposals && Selected(t.proposals[a])
    ensures a in cur && cur[a] == t.proposals[a]
    ensures Finalizing(t, height, time, rest - {a}, cur[a := FinalizeRow(t.votes, a, t.proposals[a], height, time)])
  {
  }

  /** A row that was not selected has no verdict to wait for. */
  lemma FinalizeEnds(t: Tables, height: nat, time: nat, cur: map<string, Proposal>)
    requires Finalizing(t, height, time, {}, cur)
    ensures cur == Finalize(t, height, time).proposals
  {
    forall a | a in t.proposals ensures cur[a] == FinalizeRow(t.votes, a, t.proposals[a], height, time) {
      assert !Selected(t.proposals[a]) ==> FinalizeRow(t.votes, a, t.proposals[a], height, time) == t.proposals[a];
    }
  }

  class ProposalRepo {
    var proposals: map<string, Proposal>
    const voteRepo: VoteRepo

    constructor (voteRepo: VoteRepo)
      ensures proposals == map[] && this.voteRepo == voteRepo
    {
      proposals := map[];
      this.voteRepo := voteRepo;
    }

    method Insert(asset: string, p: Proposal)
      modifies this
      ensures proposals == if Taken(old(proposals), asset, p.txHash) then old(proposals) else old(proposals)[asset := p]
    {
      if asset !in proposals && !(exists a :: a in proposals && proposals[a].txHash == p.txHash) {
        proposals := proposals[asset := p];
      }
    }

    method ScheduleRevoke(asset: string, revokeHash: string, revokeInfo: FlowInfo, revokeTime: nat)
      modifies this
      ensures proposals == if asset !in old(proposals) then old(proposals) else
        old(proposals)[asset := old(proposals)[asset].(
          revokeHash := revokeHash, revokeInfo := revokeInfo, revokeTime := revokeTime, revoke := RevokePending)]
    {
      if asset in proposals {
        var p := proposals[asset];
        proposals := proposals[asset := p.(
          revokeHash := revokeHash, revokeInfo := revokeInfo, revokeTime := revokeTime, revoke := RevokePending)];
      }
    }

    method IncrementVoteCount(asset: string, number: nat)
      modifies this
      ensures proposals == CountVote(old(proposals), asset, number)
    {
      if asset in proposals {
        var p := proposals[asset];
        proposals := proposals[asset := p.(voteCount := p.voteCount + number)];
      }
    }

    method PassedAtBlock(info: FlowInfo, voteRef: string, time: nat) returns (ready: bool, passed: bool)
      ensures ready == Ready(info, time)
      ensures passed == (ready && Passes(info, Stats(voteRepo.votes, voteRef), time))
    {
      ready := info.endTime.Some? && info.endTime.value != 0 && time > info.endTime.value;
      if !ready {
        return ready, false;
      }
      if info.minVoteNum.None? {
        return ready, false;
      }
      var endTime := info.endTime.value;
      var votes := voteRepo.ReadVoteStats(voteRef);
      passed := (info.expirationDate.None? || (info.expirationDate.value >= endTime
        && time <= info.expirationDate.value))
             && votes.voters >= info.minVoteNum.value && votes.approve > votes.reject;
    }

    /** The row of one snapshot entry after its turn in the loop. */
    method FinalizeItem(asset: string, item: Proposal, height: nat, time: nat)
      requires asset in proposals && proposals[asset] == item
      modifies this
      ensures proposals == old(proposals)[asset := FinalizeRow(voteRepo.votes, asset, item, height, time)]
    {
      if item.flow == Pending {
        var next := Missing;
        var ready := true;
        if item.info.Some? {
          var info := item.info.value;
          if info.crossChainTxType.None? || (info.crossChainTxType.value != 0 && info.crossChainTxType.value != 2) {
            next := Ineligible;
          } else {
            var passed;
            ready, passed := PassedAtBlock(info, asset, time);
            next := if passed then Active else Missing;
          }
        }
        if ready {
          proposals := proposals[asset := item.(
            flow := next, finalizedHeight := Some(height), finalizedTime := Some(time))];
        }
      }
      if item.flow == Active && item.revoke == RevokePending && item.revokeHash != "" {
        var ready, passed := PassedAtBlock(item.revokeInfo, item.revokeHash, time);
        if ready {
          proposals := proposals[asset := item.(
            revoke := if passed then RevokeDone else RevokeMissing, isRevoked := passed,
            flow := if passed then Revoked else item.flow,
            finalizedHeight := Some(height), finalizedTime := Some(time))];
        }
      }
      assert old(proposals)[asset := item] == old(proposals);
    }

    /** Decide every selected row, in whatever order the query returned them. */
    method FinalizeNativeFlow(height: nat, time: nat)
      modifies this
      ensures proposals == Finalize(Tables(old(proposals), voteRepo.votes), height, time).proposals
    {
      var pending := map a | a in proposals && Selected(proposals[a]) :: proposals[a];
      ghost var before := proposals;
      var rest := pending.Keys;
      while rest != {}
        invariant rest <= pending.Keys
        invariant Finalizing(Tables(before, voteRepo.votes), height, time, rest, proposals)
        decreases |rest|
      {
        var a :| a in rest;
        FinalizeOne(Tables(before, voteRepo.votes), height, time, rest, proposals, a);
        FinalizeItem(a, pending[a], height, time);
        rest := rest - {a};
      }
      FinalizeEnds(Tables(before, voteRepo.votes), height, time, proposals);
    }

    predicate HasOhieProposal()
      reads this
    {
      OHI in proposals
    }
  }

  class ProposalModule {
    const repo: ProposalRepo

    constructor (repo: ProposalRepo)
      ensures this.repo == repo
    {
      this.repo := repo;
    }

    method OnBlockStart(height: nat, time: nat)
      modifies repo
      ensures repo.proposals == Finalize(Tables(old(repo.proposals), repo.voteRepo.votes), height, time).proposals
    {
      repo.FinalizeNativeFlow(height, time);
    }

    method Process(tx: Transaction, height: nat)
      modifies repo
      ensures var t := Tables(old(repo.proposals), repo.voteRepo.votes);
        repo.proposals == if IsVote(tx) then t.proposals else ApplyTx(t, tx, height).proposals
    {
      if tx.ty == 11 && tx.info.Some? && FirstOwner(tx) != "" {
        var isFirst := !repo.HasOhieProposal();
        var asset := if isFirst then OHI else tx.hash;
        repo.Insert(asset, NewProposal(tx, height, isFirst));
      }
      if tx.ty == 12 && tx.info.Some? && tx.info.value.proposalHash != "" {
        var asset := NormalizeProposalAsset(tx.info.value.proposalHash);
        repo.ScheduleRevoke(asset, tx.hash, tx.info.value.flow, tx.time);
      }
    }
  }

  class VoteModule {
    const proposals: ProposalRepo
    const votes: VoteRepo

    constructor (proposals: ProposalRepo, votes: VoteRepo)
      ensures this.proposals == proposals && this.votes == votes
    {
      this.proposals, this.votes := proposals, votes;
    }

    method Process(tx: Transaction, height: nat)
      modifies proposals, votes
      ensures Tables(proposals.proposals, votes.votes) ==
        var t := Tables(old(proposals.proposals), old(votes.votes)); if IsVote(tx) then ApplyTx(t, tx, height) else t
    {
      if tx.ty == 13 && tx.info.Some? && tx.info.value.voteHash != "" {
        var v := VoteOf(tx, height);
        votes.Insert(tx.hash, v);
        proposals.IncrementVoteCount(NormalizeProposalAsset(v.ref), v.number);
      }
    }
  }
}
