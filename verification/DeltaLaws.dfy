/**
 Laws of one block: the deltas are exactly the change of the unspent sums, corrected by what a
 non-fresh Put replaced, and an input's effect depends only on the set of hashes it refers to.
 */
module DeltaLaws {
  import opened Sums
  import opened Chain
  import opened UtxoStore
  import opened UtxoBooks

  // ---- the deltas are the difference of the unspent sums ----

  /** What every step of a block keeps constant for every key. */
  ghost function Drift(b: Books, k: BalanceKey): int {
    Unspent(b.live, k) + Get(b.lost, k) - Get(b.deltas, k)
  }

  /** Deleting the matched outputs of a transaction takes their worth from the owner and nothing from anyone else. */
  lemma SpendWorth(live: map<OutRef, Entry>, h: string, k: BalanceKey, q: BalanceKey)
    ensures Unspent(live - Matched(live, h, k), q) == Unspent(live, q) - if q == k then Unspent(OfTx(live, h), k) else 0
  {
    var gone := Matched(live, h, k);
    TotalSplit(live, gone, Worth(q));
    if q == k {
      TotalSplit(OfTx(live, h), gone, Worth(k));
      TotalZero(OfTx(live, h) - gone, Worth(k));
      assert Restrict(OfTx(live, h), gone) == Restrict(live, gone);
    } else {
      TotalZero(Restrict(live, gone), Worth(q));
    }
  }

  lemma SpendHashDrift(b: Books, k: BalanceKey, h: string, q: BalanceKey)
    ensures Drift(SpendHash(b, k, h), q) == Drift(b, q)
  {
    SpendWorth(b.live, h, k, q);
  }

  lemma {:induction false} SpendPrevoutsDrift(b: Books, k: BalanceKey, redeem: string, ps: seq<Prevout>, q: BalanceKey)
    ensures Drift(SpendPrevouts(b, k, redeem, ps), q) == Drift(b, q)
  {
    if ps != [] {
      var init := ps[..|ps| - 1];
      SpendPrevoutsDrift(b, k, redeem, init, q);
      SpendHashDrift(SpendPrevouts(b, k, redeem, init), k, ps[|ps| - 1].hash, q);
    }
  }

  lemma {:induction false} SpendUtxosDrift(b: Books, redeem: string, us: seq<Utxo>, q: BalanceKey)
    ensures Drift(SpendUtxos(b, redeem, us), q) == Drift(b, q)
  {
    if us != [] {
      var init, u := us[..|us| - 1], us[|us| - 1];
      SpendUtxosDrift(b, redeem, init, q);
      SpendPrevoutsDrift(SpendUtxos(b, redeem, init), BalanceKey(SignerOf(u), u.assetType), redeem, u.prevouts, q);
    }
  }

  lemma CreateOneDrift(b: Books, ref: OutRef, vo: Vout, assetType: string, q: BalanceKey)
    ensures Drift(CreateOne(b, ref, vo, assetType), q) == Drift(b, q)
  {
    TotalUpdate(b.live, Worth(q), ref, Entry(vo.addr, vo.value, assetType));
  }

  lemma {:induction false} CreateVoutsDrift(b: Books, txHash: string, ui: nat, u: Utxo, n: nat, q: BalanceKey)
    requires n <= |u.vouts|
    ensures Drift(CreateVouts(b, txHash, ui, u, n), q) == Drift(b, q)
  {
    if n > 0 {
      CreateVoutsDrift(b, txHash, ui, u, n - 1, q);
      var ref := OutRef(txHash, ToU32(ui), ToU32(n - 1));
      CreateOneDrift(CreateVouts(b, txHash, ui, u, n - 1), ref, u.vouts[n - 1], u.assetType, q);
    }
  }

  lemma {:induction false} CreateUtxosDrift(b: Books, txHash: string, us: seq<Utxo>, n: nat, q: BalanceKey)
    requires n <= |us|
    ensures Drift(CreateUtxos(b, txHash, us, n), q) == Drift(b, q)
  {
    if n > 0 {
      CreateUtxosDrift(b, txHash, us, n - 1, q);
      CreateVoutsDrift(CreateUtxos(b, txHash, us, n - 1), txHash, n - 1, us[n - 1], |us[n - 1].vouts|, q);
    }
  }

  lemma {:induction false} ProcessTxsDrift(b: Books, txs: seq<Transaction>, q: BalanceKey)
    ensures Drift(ProcessTxs(b, txs), q) == Drift(b, q)
  {
    if txs != [] {
      var init, tx := txs[..|txs| - 1], txs[|txs| - 1];
      ProcessTxsDrift(b, init, q);
      var before := ProcessTxs(b, init);
      SpendUtxosDrift(before, RedeemOf(tx), tx.utxos, q);
      CreateUtxosDrift(SpendUtxos(before, RedeemOf(tx), tx.utxos), tx.hash, tx.utxos, |tx.utxos|, q);
    }
  }

  /** The value of live outputs of `k` that the block's Puts replaced. */
  ghost function Replaced(live: map<OutRef, Entry>, txs: seq<Transaction>, k: BalanceKey): int {
    Get(ProcessAll(live, txs).lost, k)
  }

  /**
   For every block and every unspent set, with no freshness assumption: the delta of a key is its
   unspent sum after the block, minus the sum before, plus what was replaced.
   */
  lemma DeltasAreDifference(live: map<OutRef, Entry>, txs: seq<Transaction>, k: BalanceKey)
    ensures Get(ProcessAll(live, txs).deltas, k)
         == Unspent(ProcessAll(live, txs).live, k) - Unspent(live, k) + Replaced(live, txs, k)
  {
    ProcessTxsDrift(Books(live, map[], map[]), txs, k);
  }

  lemma UnspentNonNegative(live: map<OutRef, Entry>, k: BalanceKey)
    ensures 0 <= Unspent(live, k)
  {
    TotalNonNegative(live, Worth(k));
  }

  // ---- fresh blocks replace nothing ----

  /** No transaction of the block repeats another's hash or the hash of a live output, and no index wraps. */
  ghost predicate FreshBlock(live: map<OutRef, Entry>, txs: seq<Transaction>) {
    && (forall i, j :: 0 <= i < j < |txs| ==> txs[i].hash != txs[j].hash)
    && (forall r, i :: r in live && 0 <= i < |txs| ==> r.hash != txs[i].hash)
    && (forall i :: 0 <= i < |txs| ==> NoIndexWrap(txs[i]))
  }

  predicate NoIndexWrap(tx: Transaction) {
    |tx.utxos| <= TWO32 && forall i :: 0 <= i < |tx.utxos| ==> |tx.utxos[i].vouts| <= TWO32
  }

  /** Every output of `txHash` in `live` precedes position (ui, vj). */
  ghost predicate OnlyBefore(live: map<OutRef, Entry>, txHash: string, ui: nat, vj: nat) {
    forall r :: r in live && r.hash == txHash ==> r.utxoI < ui || (r.utxoI == ui && r.voutJ < vj)
  }

  /** `next` has lost nothing since `b`, and its keys are old ones or belong to `txHash`. */
  ghost predicate NothingReplaced(b: Books, next: Books, txHash: string) {
    next.lost == b.lost && forall r :: r in next.live ==> r in b.live || r.hash == txHash
  }

  lemma {:induction false} CreateVoutsFresh(b: Books, txHash: string, ui: nat, u: Utxo, n: nat)
    requires n <= |u.vouts| <= TWO32 && ui < TWO32
    requires OnlyBefore(b.live, txHash, ui, 0)
    ensures NothingReplaced(b, CreateVouts(b, txHash, ui, u, n), txHash)
    ensures OnlyBefore(CreateVouts(b, txHash, ui, u, n).live, txHash, ui, n)
  {
    if n > 0 {
      CreateVoutsFresh(b, txHash, ui, u, n - 1);
      U32Unchanged(ui);
      U32Unchanged(n - 1);
    }
  }

  lemma {:induction false} CreateUtxosFresh(b: Books, txHash: string, us: seq<Utxo>, n: nat)
    requires n <= |us| <= TWO32 && forall i :: 0 <= i < |us| ==> |us[i].vouts| <= TWO32
    requires OnlyBefore(b.live, txHash, 0, 0)
    ensures NothingReplaced(b, CreateUtxos(b, txHash, us, n), txHash)
    ensures OnlyBefore(CreateUtxos(b, txHash, us, n).live, txHash, n, 0)
  {
    if n > 0 {
      CreateUtxosFresh(b, txHash, us, n - 1);
      CreateVoutsFresh(CreateUtxos(b, txHash, us, n - 1), txHash, n - 1, us[n - 1], |us[n - 1].vouts|);
    }
  }

  /** Spending only removes outputs. */
  ghost predicate OnlyRemoves(b: Books, next: Books) {
    next.lost == b.lost && next.live.Keys <= b.live.Keys
  }

  lemma {:induction false} SpendPrevoutsRemoves(b: Books, k: BalanceKey, redeem: string, ps: seq<Prevout>)
    ensures OnlyRemoves(b, SpendPrevouts(b, k, redeem, ps))
  {
    if ps != [] {
      SpendPrevoutsRemoves(b, k, redeem, ps[..|ps| - 1]);
    }
  }

  lemma {:induction false} SpendUtxosRemoves(b: Books, redeem: string, us: seq<Utxo>)
    ensures OnlyRemoves(b, SpendUtxos(b, redeem, us))
  {
    if us != [] {
      var init, u := us[..|us| - 1], us[|us| - 1];
      SpendUtxosRemoves(b, redeem, init);
      SpendPrevoutsRemoves(SpendUtxos(b, redeem, init), BalanceKey(SignerOf(u), u.assetType), redeem, u.prevouts);
    }
  }

  lemma {:induction false} ProcessTxsFresh(b: Books, txs: seq<Transaction>)
    requires FreshBlock(b.live, txs)
    ensures ProcessTxs(b, txs).lost == b.lost
    ensures forall r :: r in ProcessTxs(b, txs).live ==>
      r in b.live || exists i :: 0 <= i < |txs| && txs[i].hash == r.hash
  {
    if txs != [] {
      var init, tx := txs[..|txs| - 1], txs[|txs| - 1];
      ProcessTxsFresh(b, init);
      var before := ProcessTxs(b, init);
      var spent := SpendUtxos(before, RedeemOf(tx), tx.utxos);
      SpendUtxosRemoves(before, RedeemOf(tx), tx.utxos);
      assert NoIndexWrap(txs[|txs| - 1]);
      forall r | r in spent.live ensures r.hash != tx.hash {
        assert r in before.live;
      }
      CreateUtxosFresh(spent, tx.hash, tx.utxos, |tx.utxos|);
    }
  }

  /**
   A block of new, distinct transaction hashes replaces nothing, so its deltas are exactly sum-after minus
   sum-before.
   */
  lemma FreshDeltas(live: map<OutRef, Entry>, txs: seq<Transaction>, k: BalanceKey)
    requires FreshBlock(live, txs)
    ensures Replaced(live, txs, k) == 0
    ensures Get(ProcessAll(live, txs).deltas, k) == Unspent(ProcessAll(live, txs).live, k) - Unspent(live, k)
  {
    ProcessTxsFresh(Books(live, map[], map[]), txs);
    DeltasAreDifference(live, txs, k);
  }

  // ---- an input's effect depends on its hash set only ----

  /** Take the outputs `gone` from `k` and emit their worth as one delta. */
  ghost function Remove(b: Books, k: BalanceKey, gone: set<OutRef>): Books {
    if gone == {} then b
    else b.(live := b.live - gone, deltas := b.deltas[k := Get(b.deltas, k) - Unspent(Restrict(b.live, gone), k)])
  }

  /** What one reference to `h` takes from `k`. */
  ghost function SpentOf(live: map<OutRef, Entry>, k: BalanceKey, h: string): set<OutRef> {
    if Unspent(OfTx(live, h), k) == 0 then {} else Matched(live, h, k)
  }

  /** Everything `k` owns in the transactions `hs`, except in those where it is worth nothing. */
  ghost function SpentIn(live: map<OutRef, Entry>, k: BalanceKey, hs: set<string>): set<OutRef> {
    set r | r in live && r.hash in hs && r in SpentOf(live, k, r.hash)
  }

  /** The closed form of a run of input references. */
  ghost function SpendSet(b: Books, k: BalanceKey, hs: set<string>): Books {
    Remove(b, k, SpentIn(b.live, k, hs))
  }

  function EligibleHashes(ps: seq<Prevout>, redeem: string): set<string> {
    set p | p in ps && Eligible(p, redeem) :: p.hash
  }

  /** An output with no worth in `h` means nothing of `h` counts as spent; worth means something does. */
  lemma WorthMeansMatched(live: map<OutRef, Entry>, h: string, k: BalanceKey)
    ensures Unspent(OfTx(live, h), k) != 0 ==> Matched(live, h, k) != {}
  {
    if Matched(live, h, k) == {} {
      forall r | r in OfTx(live, h) ensures OwnerOf(live[r]) != k {
        assert r !in Matched(live, h, k);
      }
      TotalZero(OfTx(live, h), Worth(k));
    }
  }

  lemma MatchedWorth(live: map<OutRef, Entry>, h: string, k: BalanceKey)
    ensures Unspent(Restrict(live, Matched(live, h, k)), k) == Unspent(OfTx(live, h), k)
  {
    TotalSplit(live, Matched(live, h, k), Worth(k));
    SpendWorth(live, h, k, k);
  }

  lemma SpentInGrows(live: map<OutRef, Entry>, k: BalanceKey, hs: set<string>, h: string)
    ensures SpentIn(live, k, hs + {h}) == SpentIn(live, k, hs) + SpentOf(live, k, h)
  {
  }

  lemma SpendHashRemoves(b: Books, k: BalanceKey, h: string)
    ensures SpendHash(b, k, h) == Remove(b, k, SpentOf(b.live, k, h))
  {
    WorthMeansMatched(b.live, h, k);
    MatchedWorth(b.live, h, k);
  }

  lemma WorthOfUnion(live: map<OutRef, Entry>, a: set<OutRef>, b: set<OutRef>, k: BalanceKey)
    requires a !! b
    ensures Unspent(Restrict(live, a + b), k) == Unspent(Restrict(live, a), k) + Unspent(Restrict(live, b), k)
  {
    var all := Restrict(live, a + b);
    TotalSplit(all, b, Worth(k));
    assert all - b == Restrict(live, a);
    assert Restrict(all, b) == Restrict(live, b);
  }

  lemma RemoveTwice(b: Books, k: BalanceKey, g1: set<OutRef>, g2: set<OutRef>)
    requires g1 !! g2
    ensures Remove(Remove(b, k, g1), k, g2) == Remove(b, k, g1 + g2)
  {
    if g1 == {} {
      assert g1 + g2 == g2;
    } else if g2 == {} {
      assert g1 + g2 == g1;
    } else {
      WorthOfUnion(b.live, g1, g2, k);
      assert Restrict(b.live - g1, g2) == Restrict(b.live, g2);
      assert b.live - g1 - g2 == b.live - (g1 + g2);
    }
  }

  /** What was spent in other transactions leaves transaction `h` as it was. */
  lemma OtherTxUntouched(live: map<OutRef, Entry>, k: BalanceKey, gone: set<OutRef>, h: string)
    requires forall r :: r in gone ==> r.hash != h
    ensures SpentOf(live - gone, k, h) == SpentOf(live, k, h)
  {
    assert OfTx(live - gone, h) == OfTx(live, h);
    assert Matched(live - gone, h, k) == Matched(live, h, k);
  }

  /** A transaction already spent from has nothing left to spend. */
  lemma NothingLeft(live: map<OutRef, Entry>, k: BalanceKey, hs: set<string>, h: string)
    requires h in hs
    ensures SpentOf(live - SpentIn(live, k, hs), k, h) == {}
  {
    var gone := SpentIn(live, k, hs);
    if SpentOf(live, k, h) == {} {
      WorthMeansMatched(live, h, k);
      OtherTxUntouched(live, k, gone, h);
    } else {
      assert forall r :: r in live - gone ==> r !in gone;
      TotalZero(OfTx(live - gone, h), Worth(k));
    }
  }

  /** One more reference adds its hash to the closed form; a repeated one changes nothing. */
  lemma SpendInSet(b: Books, k: BalanceKey, hs: set<string>, h: string)
    ensures SpendHash(SpendSet(b, k, hs), k, h) == SpendSet(b, k, hs + {h})
  {
    var gone := SpentIn(b.live, k, hs);
    assert b.live - {} == b.live;
    SpendHashRemoves(SpendSet(b, k, hs), k, h);
    if h in hs {
      assert hs + {h} == hs;
      NothingLeft(b.live, k, hs, h);
    } else {
      OtherTxUntouched(b.live, k, gone, h);
      SpentInGrows(b.live, k, hs, h);
      RemoveTwice(b, k, gone, SpentOf(b.live, k, h));
    }
  }

  lemma HashesSnoc(ps: seq<Prevout>, p: Prevout, redeem: string)
    ensures Eligible(p, redeem) ==> EligibleHashes(ps + [p], redeem) == EligibleHashes(ps, redeem) + {p.hash}
    ensures !Eligible(p, redeem) || p in Seen(ps, redeem) ==>
      EligibleHashes(ps + [p], redeem) == EligibleHashes(ps, redeem)
  {
    if p in Seen(ps, redeem) {
      assert p.hash in EligibleHashes(ps, redeem);
    }
  }

  /** The input loop computes the closed form over its set of eligible hashes. */
  lemma {:induction false} PrevoutsAreSet(b: Books, k: BalanceKey, redeem: string, ps: seq<Prevout>)
    ensures SpendPrevouts(b, k, redeem, ps) == SpendSet(b, k, EligibleHashes(ps, redeem))
  {
    if ps != [] {
      var init, p := ps[..|ps| - 1], ps[|ps| - 1];
      assert ps == init + [p];
      PrevoutsAreSet(b, k, redeem, init);
      HashesSnoc(init, p, redeem);
      if Eligible(p, redeem) {
        SpendInSet(b, k, EligibleHashes(init, redeem), p.hash);
      }
    }
  }

  /** The same loop with the `seen` set removed. */
  ghost function SpendPrevoutsNoDedup(b: Books, k: BalanceKey, redeem: string, ps: seq<Prevout>): Books {
    if ps == [] then b else
      var p := ps[|ps| - 1];
      var done := SpendPrevoutsNoDedup(b, k, redeem, ps[..|ps| - 1]);
      if Eligible(p, redeem) then SpendHash(done, k, p.hash) else done
  }

  lemma {:induction false} NoDedupIsSet(b: Books, k: BalanceKey, redeem: string, ps: seq<Prevout>)
    ensures SpendPrevoutsNoDedup(b, k, redeem, ps) == SpendSet(b, k, EligibleHashes(ps, redeem))
  {
    if ps != [] {
      var init, p := ps[..|ps| - 1], ps[|ps| - 1];
      assert ps == init + [p];
      NoDedupIsSet(b, k, redeem, init);
      HashesSnoc(init, p, redeem);
      if Eligible(p, redeem) {
        SpendInSet(b, k, EligibleHashes(init, redeem), p.hash);
      }
    }
  }

  /** Order, multiplicity and output numbers of the references are irrelevant. */
  lemma InputsDependOnHashSet(b: Books, k: BalanceKey, redeem: string, ps: seq<Prevout>, qs: seq<Prevout>)
    requires EligibleHashes(ps, redeem) == EligibleHashes(qs, redeem)
    ensures SpendPrevouts(b, k, redeem, ps) == SpendPrevouts(b, k, redeem, qs)
  {
    PrevoutsAreSet(b, k, redeem, ps);
    PrevoutsAreSet(b, k, redeem, qs);
  }

  /** Removing the dedup set changes neither the store nor the deltas. */
  lemma DedupIsRedundant(b: Books, k: BalanceKey, redeem: string, ps: seq<Prevout>)
    ensures SpendPrevouts(b, k, redeem, ps) == SpendPrevoutsNoDedup(b, k, redeem, ps)
  {
    PrevoutsAreSet(b, k, redeem, ps);
    NoDedupIsSet(b, k, redeem, ps);
  }
}
