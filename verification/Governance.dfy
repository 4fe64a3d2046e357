/** Proposals and votes: the two tables and what a block does to them. */
module Governance {
  import opened Wrappers
  import opened Sums
  import opened Text
  import opened Chain

  const OHI: string := "OHI"

  // ---- references ----

  predicate HasHexPrefix(s: string) {
    StartsWith(s, "0x") || StartsWith(s, "0X")
  }

  /** The asset a vote or a revocation names: "0xOHI" is the first proposal, anything else names itself. */
  function NormalizeProposalAsset(ref: string): string {
    if HasHexPrefix(ref) && |ref| > 2 && ref[2..] == OHI then OHI else ref
  }

  function NormalizeVoteRef(value: string): string {
    Lower(if |value| > 2 && value[0] == '0' && (value[1] == 'x' || value[1] == 'X') then value[2..] else value)
  }

  /** The same reduction as the vote query spells it in SQL. */
  function QueryRef(value: string): string {
    Lower(if HasHexPrefix(value) then value[2..] else value)
  }

  // ---- rows ----

  datatype Flow = Pending | Active | Missing | Revoked | Ineligible

  datatype RevokeState = NoRevoke | RevokePending | RevokeDone | RevokeMissing

  /** `info` is None where the tx_info column is NULL. */
  datatype Proposal = Proposal(
    txHash: string, height: nat, address: string, info: Option<FlowInfo>, voteCount: nat, isFirst: bool,
    isRevoked: bool, revokeHash: string, revokeInfo: FlowInfo, revokeTime: nat,
    flow: Flow, revoke: RevokeState, finalizedHeight: Option<nat>, finalizedTime: Option<nat>)

  const NO_INFO: FlowInfo := FlowInfo(None, None, None, None)

  datatype Vote = Vote(height: nat, address: string, ref: string, proposalType: nat, voteType: nat, number: nat)

  datatype VoteStats = VoteStats(approve: nat, reject: nat, voters: nat)

  /** `proposals` is keyed by asset, `votes` by transaction hash. */
  datatype Tables = Tables(proposals: map<string, Proposal>, votes: map<string, Vote>)

  const EMPTY: Tables := Tables(map[], map[])

  // ---- the tally ----

  ghost function Cast(target: string, voteType: nat): (string, Vote) -> int {
    (h: string, v: Vote) => if QueryRef(v.ref) == target && v.voteType == voteType then v.number else 0
  }

  ghost function Tally(votes: map<string, Vote>, reference: string, voteType: nat): (n: nat) {
    TotalNonNegative(votes, Cast(NormalizeVoteRef(reference), voteType));
    Total(votes, Cast(NormalizeVoteRef(reference), voteType))
  }

  /** Addresses are compared without regard to case. */
  ghost function VotersFor(votes: map<string, Vote>, target: string): set<string> {
    set h | h in votes && QueryRef(votes[h].ref) == target :: Lower(votes[h].address)
  }

  ghost function Stats(votes: map<string, Vote>, reference: string): VoteStats {
    VoteStats(Tally(votes, reference, 1), Tally(votes, reference, 0), |VotersFor(votes, NormalizeVoteRef(reference))|)
  }

  // ---- verdicts ----

  predicate Ready(info: FlowInfo, time: nat) {
    info.endTime.Some? && info.endTime.value != 0 && time > info.endTime.value
  }

  predicate Passes(info: FlowInfo, stats: VoteStats, time: nat) {
    && info.endTime.Some?
    && info.minVoteNum.Some?
    && (info.expirationDate.Some? ==>
        info.endTime.value <= info.expirationDate.value && time <= info.expirationDate.value)
    && stats.voters >= info.minVoteNum.value
    && stats.approve > stats.reject
  }

  predicate Eligible(info: FlowInfo) {
    info.crossChainTxType == Some(0) || info.crossChainTxType == Some(2)
  }

  /** What a pending proposal's row says about it at a block of this time; Pending while it is undecided. */
  ghost function Verdict(votes: map<string, Vote>, asset: string, p: Proposal, time: nat): Flow {
    if p.info.None? then Missing
    else if !Eligible(p.info.value) then Ineligible
    else if !Ready(p.info.value, time) then Pending
    else if Passes(p.info.value, Stats(votes, asset), time) then Active
    else Missing
  }

  predicate RevokeDue(p: Proposal, time: nat) {
    p.flow == Active && p.revoke == RevokePending && p.revokeHash != "" && Ready(p.revokeInfo, time)
  }

  ghost function FinalizeRow(votes: map<string, Vote>, asset: string, p: Proposal, height: nat, time: nat): Proposal {
    if p.flow == Pending then
      var v := Verdict(votes, asset, p, time);
      if v == Pending then p else p.(flow := v, finalizedHeight := Some(height), finalizedTime := Some(time))
    else if RevokeDue(p, time) then
      var passed := Passes(p.revokeInfo, Stats(votes, p.revokeHash), time);
      p.(revoke := if passed then RevokeDone else RevokeMissing, isRevoked := passed,
         flow := if passed then Revoked else p.flow, finalizedHeight := Some(height), finalizedTime := Some(time))
    else p
  }

  ghost function Finalize(t: Tables, height: nat, time: nat): Tables {
    t.(proposals := map a | a in t.proposals :: FinalizeRow(t.votes, a, t.proposals[a], height, time))
  }

  // ---- transactions ----

  function FirstOwner(tx: Transaction): string {
    if tx.utxos == [] || tx.utxos[0].owner == [] then "" else tx.utxos[0].owner[0]
  }

  predicate IsProposal(tx: Transaction) {
    tx.ty == 11 && tx.info.Some? && FirstOwner(tx) != ""
  }

  predicate IsRevocation(tx: Transaction) {
    tx.ty == 12 && tx.info.Some? && tx.info.value.proposalHash != ""
  }

  predicate IsVote(tx: Transaction) {
    tx.ty == 13 && tx.info.Some? && tx.info.value.voteHash != ""
  }

  /** The first proposal on the chain is the asset OHI, a later one is named by its hash. */
  function AssetOf(t: Tables, tx: Transaction): string {
    if OHI in t.proposals then tx.hash else OHI
  }

  /** INSERT IGNORE drops a row whose asset or transaction hash is taken. */
  predicate Taken(proposals: map<string, Proposal>, asset: string, txHash: string) {
    asset in proposals || exists a :: a in proposals && proposals[a].txHash == txHash
  }

  function NewProposal(tx: Transaction, height: nat, isFirst: bool): Proposal
    requires tx.info.Some?
  {
    Proposal(tx.hash, height, FirstOwner(tx), Some(tx.info.value.flow), 0, isFirst,
             false, "", NO_INFO, 0, Pending, NoRevoke, None, None)
  }

  function Propose(t: Tables, tx: Transaction, height: nat): Tables
    requires IsProposal(tx)
  {
    if Taken(t.proposals, AssetOf(t, tx), tx.hash) then t
    else t.(proposals := t.proposals[AssetOf(t, tx) := NewProposal(tx, height, OHI !in t.proposals)])
  }

  function Revoke(t: Tables, tx: Transaction): Tables
    requires IsRevocation(tx)
  {
    var a := NormalizeProposalAsset(tx.info.value.proposalHash);
    if a !in t.proposals then t else
      t.(proposals := t.proposals[a := t.proposals[a].(
           revokeHash := tx.hash, revokeInfo := tx.info.value.flow, revokeTime := tx.time, revoke := RevokePending)])
  }

  function VoteOf(tx: Transaction, height: nat): Vote
    requires IsVote(tx)
  {
    var i := tx.info.value;
    Vote(height, FirstOwner(tx), i.voteHash, i.voteTxType, i.voteType, i.voteNumber)
  }

  function CountVote(proposals: map<string, Proposal>, asset: string, number: nat): map<string, Proposal> {
    if asset !in proposals then proposals
    else proposals[asset := proposals[asset].(voteCount := proposals[asset].voteCount + number)]
  }

  /** The vote row is dropped when its hash is taken; the counter moves either way. */
  function CastVote(t: Tables, tx: Transaction, height: nat): Tables
    requires IsVote(tx)
  {
    var v := VoteOf(tx, height);
    Tables(CountVote(t.proposals, NormalizeProposalAsset(v.ref), v.number),
           if tx.hash in t.votes then t.votes else t.votes[tx.hash := v])
  }

  function ApplyTx(t: Tables, tx: Transaction, height: nat): Tables {
    if IsProposal(tx) then Propose(t, tx, height)
    else if IsRevocation(tx) then Revoke(t, tx)
    else if IsVote(tx) then CastVote(t, tx, height)
    else t
  }

  function ApplyTxs(t: Tables, txs: seq<Transaction>, height: nat): Tables {
    if txs == [] then t else ApplyTx(ApplyTxs(t, txs[..|txs| - 1], height), txs[|txs| - 1], height)
  }

  /** Verdicts are taken first, on the tables the previous block left. */
  ghost function ApplyBlock(t: Tables, b: Block): Tables {
    ApplyTxs(Finalize(t, b.height, b.time), b.txs, b.height)
  }

  ghost function Run(blocks: seq<Block>): Tables {
    if blocks == [] then EMPTY else ApplyBlock(Run(blocks[..|blocks| - 1]), blocks[|blocks| - 1])
  }
}
