/** What one transaction does to the unspent set, in closed form. */
module TransactionLaws {
  import opened Wrappers
  import opened Sums
  import opened Chain
  import opened UtxoStore
  import opened UtxoBooks
  import opened DeltaLaws

  function Lookup(live: map<OutRef, Entry>, r: OutRef): Option<Entry> {
    if r in live then Some(live[r]) else None
  }

  // ---- inputs ----

  /** Some input side is signed by the key's address, in the key's asset, and refers to `h`. */
  ghost predicate Claims(us: seq<Utxo>, redeem: string, k: BalanceKey, h: string) {
    exists i :: 0 <= i < |us| && ClaimsOne(us[i], redeem, k, h)
  }

  ghost predicate ClaimsOne(u: Utxo, redeem: string, k: BalanceKey, h: string) {
    SignerOf(u) != "" && k == BalanceKey(SignerOf(u), u.assetType) && h in EligibleHashes(u.prevouts, redeem)
  }

  /** The outputs that some input side claims, where the owner's outputs of that transaction are worth anything. */
  ghost function Spent(live: map<OutRef, Entry>, redeem: string, us: seq<Utxo>): set<OutRef> {
    set r | r in live && Unspent(OfTx(live, r.hash), OwnerOf(live[r])) != 0
      && Claims(us, redeem, OwnerOf(live[r]), r.hash)
  }

  /** Spending other owners' outputs, or outputs of other transactions, leaves what `k` has in `h`. */
  lemma OthersUntouched(live: map<OutRef, Entry>, gone: set<OutRef>, k: BalanceKey, h: string)
    requires forall r :: r in gone && r in live ==> r.hash != h || OwnerOf(live[r]) != k
    ensures SpentOf(live - gone, k, h) == SpentOf(live, k, h)
  {
    var all := OfTx(live, h);
    assert OfTx(live - gone, h) == all - gone;
    TotalSplit(all, gone, Worth(k));
    TotalZero(Restrict(all, gone), Worth(k));
    assert Matched(live - gone, h, k) == Matched(live, h, k);
  }

  lemma AllGone(live: map<OutRef, Entry>, gone: set<OutRef>, k: BalanceKey, h: string)
    requires Matched(live, h, k) <= gone
    ensures SpentOf(live - gone, k, h) == {}
  {
    assert Matched(live - gone, h, k) == {};
  }

  /** What a further input side takes from `h` after the earlier ones have taken theirs. */
  lemma SpentNext(live: map<OutRef, Entry>, redeem: string, us: seq<Utxo>, k: BalanceKey, h: string)
    ensures var gone := Spent(live, redeem, us);
      SpentOf(live - gone, k, h) == if Claims(us, redeem, k, h) then {} else SpentOf(live, k, h)
  {
    var gone := Spent(live, redeem, us);
    if Claims(us, redeem, k, h) && Unspent(OfTx(live, h), k) != 0 {
      AllGone(live, gone, k, h);
    } else {
      OthersUntouched(live, gone, k, h);
    }
  }

  lemma ClaimsSnoc(us: seq<Utxo>, u: Utxo, redeem: string, k: BalanceKey, h: string)
    ensures Claims(us + [u], redeem, k, h) <==> Claims(us, redeem, k, h) || ClaimsOne(u, redeem, k, h)
  {
    var all := us + [u];
    if Claims(us, redeem, k, h) {
      var i :| 0 <= i < |us| && ClaimsOne(us[i], redeem, k, h);
      assert ClaimsOne(all[i], redeem, k, h);
    }
    assert all[|us|] == u;
  }

  lemma SpendOneMore(live: map<OutRef, Entry>, redeem: string, us: seq<Utxo>, u: Utxo)
    ensures var k, hs := BalanceKey(SignerOf(u), u.assetType), EligibleHashes(u.prevouts, redeem);
      Spent(live, redeem, us + [u]) ==
        Spent(live, redeem, us) + if SignerOf(u) == "" then {} else SpentIn(live - Spent(live, redeem, us), k, hs)
  {
    var gone := Spent(live, redeem, us);
    var k, hs := BalanceKey(SignerOf(u), u.assetType), EligibleHashes(u.prevouts, redeem);
    forall r | r in live
      ensures r in Spent(live, redeem, us + [u]) <==>
        r in gone || (SignerOf(u) != "" && r in SpentIn(live - gone, k, hs))
    {
      ClaimsSnoc(us, u, redeem, OwnerOf(live[r]), r.hash);
      SpentNext(live, redeem, us, k, r.hash);
    }
  }

  lemma SpendUtxoRemoves(b: Books, redeem: string, u: Utxo)
    ensures SpendUtxo(b, redeem, u).live == b.live -
      if SignerOf(u) == "" then {}
      else SpentIn(b.live, BalanceKey(SignerOf(u), u.assetType), EligibleHashes(u.prevouts, redeem))
  {
    assert b.live - {} == b.live;
    PrevoutsAreSet(b, BalanceKey(SignerOf(u), u.assetType), redeem, u.prevouts);
  }

  /** All input sides together remove one set of outputs, whatever their order. */
  lemma {:induction false} SpendUtxosAreSet(b: Books, redeem: string, us: seq<Utxo>)
    ensures SpendUtxos(b, redeem, us).live == b.live - Spent(b.live, redeem, us)
  {
    if us == [] {
      assert Spent(b.live, redeem, us) == {};
    } else {
      var init, u := us[..|us| - 1], us[|us| - 1];
      assert us == init + [u];
      SpendUtxosAreSet(b, redeem, init);
      SpendOneMore(b.live, redeem, init, u);
      SpendUtxoRemoves(SpendUtxos(b, redeem, init), redeem, u);
    }
  }

  // ---- outputs ----

  /** The output that `u`, at index `ui`, puts under `r`. */
  function MadeBy(u: Utxo, ui: nat, r: OutRef): Option<Entry> {
    if u.assetType == "" || r.utxoI != ui || r.voutJ >= |u.vouts| || IsVirtualAddr(u.vouts[r.voutJ].addr) then None
    else Some(Entry(u.vouts[r.voutJ].addr, u.vouts[r.voutJ].value, u.assetType))
  }

  /** The output of a transaction with these output sides that belongs under `r`. */
  function Made(txHash: string, us: seq<Utxo>, r: OutRef): Option<Entry> {
    if r.hash != txHash || r.utxoI >= |us| then None else MadeBy(us[r.utxoI], r.utxoI, r)
  }

  lemma {:induction false} VoutsMade(b: Books, txHash: string, ui: nat, u: Utxo, n: nat, r: OutRef)
    requires n <= |u.vouts| <= TWO32 && ui < TWO32 && u.assetType != ""
    ensures Lookup(CreateVouts(b, txHash, ui, u, n).live, r) ==
      if r.hash == txHash && r.voutJ < n && MadeBy(u, ui, r).Some? then MadeBy(u, ui, r) else Lookup(b.live, r)
  {
    if n > 0 {
      VoutsMade(b, txHash, ui, u, n - 1, r);
      U32Unchanged(ui);
      U32Unchanged(n - 1);
    }
  }

  lemma {:induction false} UtxosMade(b: Books, txHash: string, us: seq<Utxo>, n: nat, r: OutRef)
    requires n <= |us| <= TWO32 && forall i :: 0 <= i < |us| ==> |us[i].vouts| <= TWO32
    ensures Lookup(CreateUtxos(b, txHash, us, n).live, r) ==
      if r.utxoI < n && Made(txHash, us, r).Some? then Made(txHash, us, r) else Lookup(b.live, r)
  {
    if n > 0 {
      UtxosMade(b, txHash, us, n - 1, r);
      if us[n - 1].assetType != "" {
        VoutsMade(CreateUtxos(b, txHash, us, n - 1), txHash, n - 1, us[n - 1], |us[n - 1].vouts|, r);
      }
    }
  }

  // ---- the transaction ----

  /**
   The unspent set after a transaction, output by output: what it makes, and of the rest what was there
   and is not spent.
   */
  lemma TransactionEffect(b: Books, tx: Transaction, r: OutRef)
    requires NoIndexWrap(tx)
    ensures Lookup(ProcessTx(b, tx).live, r) ==
      if Made(tx.hash, tx.utxos, r).Some? then Made(tx.hash, tx.utxos, r)
      else if r in Spent(b.live, RedeemOf(tx), tx.utxos) then None
      else Lookup(b.live, r)
  {
    var mid := SpendUtxos(b, RedeemOf(tx), tx.utxos);
    SpendUtxosAreSet(b, RedeemOf(tx), tx.utxos);
    UtxosMade(mid, tx.hash, tx.utxos, |tx.utxos|, r);
  }

  // ---- what a transaction overwrites ----

  /** The live outputs that the transaction makes anew without having spent them. */
  ghost function Overwritten(live: map<OutRef, Entry>, tx: Transaction): set<OutRef> {
    set r | r in live && Made(tx.hash, tx.utxos, r).Some? && r !in Spent(live, RedeemOf(tx), tx.utxos)
  }

  /** The transaction puts an output over a live one of some value. */
  ghost predicate Overwrites(live: map<OutRef, Entry>, tx: Transaction) {
    exists r :: r in Overwritten(live, tx) && live[r].value != 0
  }

  ghost function PutByVouts(live: map<OutRef, Entry>, txHash: string, ui: nat, u: Utxo, n: nat): set<OutRef> {
    set r | r in live && r.hash == txHash && r.voutJ < n && MadeBy(u, ui, r).Some?
  }

  ghost function PutByUtxos(live: map<OutRef, Entry>, txHash: string, us: seq<Utxo>, n: nat): set<OutRef> {
    set r | r in live && r.utxoI < n && Made(txHash, us, r).Some?
  }

  lemma WorthOfOneMore(live: map<OutRef, Entry>, rs: set<OutRef>, r: OutRef, k: BalanceKey)
    requires r in live && r !in rs
    ensures Unspent(Restrict(live, rs + {r}), k)
         == Unspent(Restrict(live, rs), k) + if OwnerOf(live[r]) == k then live[r].value else 0
  {
    assert Restrict(live, rs + {r}) == Restrict(live, rs)[r := live[r]];
    TotalUpdate(Restrict(live, rs), Worth(k), r, live[r]);
  }

  lemma NothingPut(live: map<OutRef, Entry>, rs: set<OutRef>, k: BalanceKey)
    requires rs == {}
    ensures Unspent(Restrict(live, rs), k) == 0
  {
    assert Restrict(live, rs) == map[];
  }

  lemma CreateOneLost(b: Books, ref: OutRef, vo: Vout, assetType: string, k: BalanceKey)
    ensures Get(CreateOne(b, ref, vo, assetType).lost, k) == Get(b.lost, k) +
      if !IsVirtualAddr(vo.addr) && ref in b.live && OwnerOf(b.live[ref]) == k then b.live[ref].value else 0
  {
  }

  /** Output `n` overwrites what was under its position before the utxo's outputs were put. */
  lemma VoutLost(b: Books, txHash: string, ui: nat, u: Utxo, n: nat, k: BalanceKey)
    requires n < |u.vouts| <= TWO32 && ui < TWO32 && u.assetType != ""
    ensures var ref := OutRef(txHash, ui, n);
      Get(CreateVouts(b, txHash, ui, u, n + 1).lost, k) == Get(CreateVouts(b, txHash, ui, u, n).lost, k) +
        if !IsVirtualAddr(u.vouts[n].addr) && ref in b.live && OwnerOf(b.live[ref]) == k then b.live[ref].value else 0
  {
    var ref := OutRef(txHash, ui, n);
    VoutsMade(b, txHash, ui, u, n, ref);
    U32Unchanged(ui);
    U32Unchanged(n);
    CreateOneLost(CreateVouts(b, txHash, ui, u, n), ref, u.vouts[n], u.assetType, k);
  }

  lemma PutByOneMore(live: map<OutRef, Entry>, txHash: string, ui: nat, u: Utxo, n: nat, k: BalanceKey)
    requires n < |u.vouts| <= TWO32 && ui < TWO32 && u.assetType != ""
    ensures var ref := OutRef(txHash, ui, n);
      Unspent(Restrict(live, PutByVouts(live, txHash, ui, u, n + 1)), k)
        == Unspent(Restrict(live, PutByVouts(live, txHash, ui, u, n)), k) +
           if !IsVirtualAddr(u.vouts[n].addr) && ref in live && OwnerOf(live[ref]) == k then live[ref].value else 0
  {
    var ref := OutRef(txHash, ui, n);
    var before, now := PutByVouts(live, txHash, ui, u, n), PutByVouts(live, txHash, ui, u, n + 1);
    if ref in live && !IsVirtualAddr(u.vouts[n].addr) {
      assert now == before + {ref};
      WorthOfOneMore(live, before, ref, k);
    } else {
      assert now == before;
    }
  }

  lemma {:induction false} VoutsLost(b: Books, txHash: string, ui: nat, u: Utxo, n: nat, k: BalanceKey)
    requires n <= |u.vouts| <= TWO32 && ui < TWO32 && u.assetType != ""
    ensures Get(CreateVouts(b, txHash, ui, u, n).lost, k)
         == Get(b.lost, k) + Unspent(Restrict(b.live, PutByVouts(b.live, txHash, ui, u, n)), k)
  {
    if n == 0 {
      NothingPut(b.live, PutByVouts(b.live, txHash, ui, u, 0), k);
    } else {
      var i := n - 1;
      VoutsLost(b, txHash, ui, u, i, k);
      VoutLost(b, txHash, ui, u, i, k);
      PutByOneMore(b.live, txHash, ui, u, i, k);
    }
  }

  /** What utxo `i` puts is not touched by the utxos before it. */
  lemma PutsApart(b: Books, txHash: string, us: seq<Utxo>, i: nat)
    requires i < |us| <= TWO32 && forall j :: 0 <= j < |us| ==> |us[j].vouts| <= TWO32
    ensures var mid := CreateUtxos(b, txHash, us, i).live;
      Restrict(mid, PutByVouts(mid, txHash, i, us[i], |us[i].vouts|))
        == Restrict(b.live, PutByVouts(b.live, txHash, i, us[i], |us[i].vouts|))
  {
    var mid := CreateUtxos(b, txHash, us, i).live;
    forall r: OutRef | r.utxoI == i ensures Lookup(mid, r) == Lookup(b.live, r) {
      UtxosMade(b, txHash, us, i, r);
    }
  }

  lemma PutByOneMoreUtxo(live: map<OutRef, Entry>, txHash: string, us: seq<Utxo>, i: nat)
    requires i < |us| <= TWO32
    ensures var before := PutByUtxos(live, txHash, us, i);
      PutByUtxos(live, txHash, us, i + 1) ==
        if us[i].assetType == "" then before else before + PutByVouts(live, txHash, i, us[i], |us[i].vouts|)
  {
  }

  lemma PutSetsApart(live: map<OutRef, Entry>, txHash: string, us: seq<Utxo>, i: nat)
    requires i < |us| <= TWO32
    ensures PutByUtxos(live, txHash, us, i) !! PutByVouts(live, txHash, i, us[i], |us[i].vouts|)
  {
  }

  lemma WorthOfOneMoreUtxo(live: map<OutRef, Entry>, txHash: string, us: seq<Utxo>, i: nat, k: BalanceKey)
    requires i < |us| <= TWO32
    ensures Unspent(Restrict(live, PutByUtxos(live, txHash, us, i + 1)), k)
         == Unspent(Restrict(live, PutByUtxos(live, txHash, us, i)), k) +
            if us[i].assetType == "" then 0
            else Unspent(Restrict(live, PutByVouts(live, txHash, i, us[i], |us[i].vouts|)), k)
  {
    PutByOneMoreUtxo(live, txHash, us, i);
    if us[i].assetType != "" {
      PutSetsApart(live, txHash, us, i);
      WorthOfUnion(live, PutByUtxos(live, txHash, us, i), PutByVouts(live, txHash, i, us[i], |us[i].vouts|), k);
    }
  }

  /** Utxo `i` overwrites what was under its positions before the transaction's outputs were put. */
  lemma UtxoLost(b: Books, txHash: string, us: seq<Utxo>, i: nat, k: BalanceKey)
    requires i < |us| <= TWO32 && forall j :: 0 <= j < |us| ==> |us[j].vouts| <= TWO32
    ensures Get(CreateUtxos(b, txHash, us, i + 1).lost, k) == Get(CreateUtxos(b, txHash, us, i).lost, k) +
      if us[i].assetType == "" then 0
      else Unspent(Restrict(b.live, PutByVouts(b.live, txHash, i, us[i], |us[i].vouts|)), k)
  {
    if us[i].assetType != "" {
      VoutsLost(CreateUtxos(b, txHash, us, i), txHash, i, us[i], |us[i].vouts|, k);
      PutsApart(b, txHash, us, i);
    }
  }

  lemma {:induction false} UtxosLost(b: Books, txHash: string, us: seq<Utxo>, n: nat, k: BalanceKey)
    requires n <= |us| <= TWO32 && forall i :: 0 <= i < |us| ==> |us[i].vouts| <= TWO32
    ensures Get(CreateUtxos(b, txHash, us, n).lost, k)
         == Get(b.lost, k) + Unspent(Restrict(b.live, PutByUtxos(b.live, txHash, us, n)), k)
  {
    if n == 0 {
      NothingPut(b.live, PutByUtxos(b.live, txHash, us, 0), k);
    } else {
      var i := n - 1;
      UtxosLost(b, txHash, us, i, k);
      UtxoLost(b, txHash, us, i, k);
      WorthOfOneMoreUtxo(b.live, txHash, us, i, k);
    }
  }

  lemma PutsAreOverwritten(live: map<OutRef, Entry>, tx: Transaction)
    ensures var mid, gone := live - Spent(live, RedeemOf(tx), tx.utxos), Overwritten(live, tx);
      PutByUtxos(mid, tx.hash, tx.utxos, |tx.utxos|) == gone && Restrict(mid, gone) == Restrict(live, gone)
  {
  }

  /** The worth of what the transaction overwrites, for one key. */
  ghost function OverwrittenWorth(live: map<OutRef, Entry>, tx: Transaction, k: BalanceKey): int {
    Unspent(Restrict(live, Overwritten(live, tx)), k)
  }

  /** The books lose exactly the worth of the overwritten outputs. */
  lemma TransactionLost(b: Books, tx: Transaction, k: BalanceKey)
    requires NoIndexWrap(tx)
    ensures Get(ProcessTx(b, tx).lost, k) == Get(b.lost, k) + OverwrittenWorth(b.live, tx, k)
  {
    var mid := SpendUtxos(b, RedeemOf(tx), tx.utxos);
    SpendUtxosAreSet(b, RedeemOf(tx), tx.utxos);
    SpendUtxosRemoves(b, RedeemOf(tx), tx.utxos);
    PutsAreOverwritten(b.live, tx);
    UtxosLost(mid, tx.hash, tx.utxos, |tx.utxos|, k);
  }

  /** Some key has a non-zero amount. */
  ghost predicate NonZero(amount: BalanceKey -> int) {
    exists k :: amount(k) != 0
  }

  ghost function OverwrittenBy(live: map<OutRef, Entry>, tx: Transaction): BalanceKey -> int {
    k => OverwrittenWorth(live, tx, k)
  }

  lemma OverwritesIsWorth(live: map<OutRef, Entry>, tx: Transaction)
    ensures forall k :: 0 <= OverwrittenWorth(live, tx, k)
    ensures Overwrites(live, tx) <==> NonZero(OverwrittenBy(live, tx))
  {
    var gone, amount := Restrict(live, Overwritten(live, tx)), OverwrittenBy(live, tx);
    forall k ensures 0 <= OverwrittenWorth(live, tx, k) {
      TotalNonNegative(gone, Worth(k));
    }
    if Overwrites(live, tx) {
      var r :| r in Overwritten(live, tx) && live[r].value != 0;
      TotalAtLeast(gone, Worth(OwnerOf(live[r])), r);
      assert amount(OwnerOf(live[r])) != 0;
    } else {
      forall k ensures amount(k) == 0 {
        TotalZero(gone, Worth(k));
      }
    }
  }

  // ---- what a block overwrites ----

  predicate NoWraps(txs: seq<Transaction>) {
    forall i :: 0 <= i < |txs| ==> NoIndexWrap(txs[i])
  }

  /** Some transaction of the block overwrites an output of some value that is live when its turn comes. */
  ghost predicate BlockOverwrites(live: map<OutRef, Entry>, txs: seq<Transaction>) {
    exists j :: 0 <= j < |txs| && Overwrites(ProcessAll(live, txs[..j]).live, txs[j])
  }

  lemma BlockOverwritesSnoc(live: map<OutRef, Entry>, txs: seq<Transaction>, tx: Transaction)
    ensures BlockOverwrites(live, txs + [tx]) <==>
      BlockOverwrites(live, txs) || Overwrites(ProcessAll(live, txs).live, tx)
  {
    var all := txs + [tx];
    assert all[..|txs|] == txs && all[|txs|] == tx;
    assert forall j :: 0 <= j < |txs| ==> all[..j] == txs[..j] && all[j] == txs[j];
  }

  lemma ReplacedSnoc(live: map<OutRef, Entry>, txs: seq<Transaction>, tx: Transaction, k: BalanceKey)
    requires NoIndexWrap(tx)
    ensures Replaced(live, txs + [tx], k)
      == Replaced(live, txs, k) + OverwrittenWorth(ProcessAll(live, txs).live, tx, k)
  {
    assert (txs + [tx])[..|txs|] == txs;
    TransactionLost(ProcessAll(live, txs), tx, k);
  }

  lemma SumNonZero(a: BalanceKey -> int, b: BalanceKey -> int, sum: BalanceKey -> int)
    requires forall k :: 0 <= a(k) && 0 <= b(k) && sum(k) == a(k) + b(k)
    ensures NonZero(sum) <==> NonZero(a) || NonZero(b)
  {
    if NonZero(a) {
      var k :| a(k) != 0;
      assert sum(k) != 0;
    }
    if NonZero(b) {
      var k :| b(k) != 0;
      assert sum(k) != 0;
    }
  }

  ghost function ReplacedBy(live: map<OutRef, Entry>, txs: seq<Transaction>): BalanceKey -> int {
    k => Replaced(live, txs, k)
  }

  lemma ReplacedStep(live: map<OutRef, Entry>, txs: seq<Transaction>, tx: Transaction)
    requires NoIndexWrap(tx) && forall k :: 0 <= Replaced(live, txs, k)
    ensures forall k :: 0 <= Replaced(live, txs + [tx], k)
    ensures NonZero(ReplacedBy(live, txs + [tx])) <==>
      NonZero(ReplacedBy(live, txs)) || Overwrites(ProcessAll(live, txs).live, tx)
  {
    var mid := ProcessAll(live, txs).live;
    OverwritesIsWorth(mid, tx);
    forall k ensures Replaced(live, txs + [tx], k) == Replaced(live, txs, k) + OverwrittenWorth(mid, tx, k) {
      ReplacedSnoc(live, txs, tx, k);
    }
    SumNonZero(ReplacedBy(live, txs), OverwrittenBy(mid, tx), ReplacedBy(live, txs + [tx]));
  }

  /**
   In terms of the block and the unspent set: something of value is lost if and only if something of value
   is overwritten.
   */
  lemma {:induction false} ReplacedExactly(live: map<OutRef, Entry>, txs: seq<Transaction>)
    requires NoWraps(txs)
    ensures forall k :: 0 <= Replaced(live, txs, k)
    ensures BlockOverwrites(live, txs) <==> NonZero(ReplacedBy(live, txs))
  {
    if txs != [] {
      var init, tx := txs[..|txs| - 1], txs[|txs| - 1];
      assert txs == init + [tx];
      ReplacedExactly(live, init);
      ReplacedStep(live, init, tx);
      BlockOverwritesSnoc(live, init, tx);
    }
  }
}
