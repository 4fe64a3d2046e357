/**
 When the loops over the key-value store do what the books say: the exact condition for one spent reference,
 and for all references of a block in their turn.
 */
module SpendLaws {
  import opened Sums
  import opened Text
  import opened Chain
  import opened UtxoStore
  import opened UtxoBooks
  import opened DeltaLaws
  import opened UtxoProcessor

  // ---- when a spend does what the books say ----

  /** An output nested in `h` that the spend of `h` may read: it is worth nothing, and deletes nothing of others. */
  ghost predicate HarmlessRef(live: map<OutRef, Entry>, h: string, k: BalanceKey, r: OutRef)
    requires r in live
  {
    && live[r].value == 0
    && (Unspent(OfTx(live, h), k) == 0 || Target(h, r) !in live || OwnerOf(live[Target(h, r)]) == k)
  }

  /** A spend of `h` by `k` meets no unreadable key, and of `k` only harmless outputs nested in `h`. */
  ghost predicate Harmless(live: map<OutRef, Entry>, h: string, k: BalanceKey) {
    && !Blocked(live, h)
    && forall r :: r in live && StartsWith(r.hash, h + ":") && OwnerOf(live[r]) == k ==> HarmlessRef(live, h, k, r)
  }

  /** What a scan reads beside the outputs of its own hash. */
  ghost function NestedIn(live: map<OutRef, Entry>, h: string): map<OutRef, Entry> {
    map r | r in live && StartsWith(r.hash, h + ":") :: live[r]
  }

  lemma OwnTarget(h: string, r: OutRef)
    requires r.hash == h
    ensures Reaches(h, r) && Target(h, r) == r
  {
    KeyIsReadExactly(r, h);
  }

  /** A spend reads its own outputs and the nested ones. */
  lemma ReachedParts(live: map<OutRef, Entry>, h: string, k: BalanceKey)
    ensures Unspent(Reached(live, h), k) == Unspent(OfTx(live, h), k) + Unspent(NestedIn(live, h), k)
  {
    var all := Reached(live, h);
    TotalSplit(all, OfTx(live, h).Keys, Worth(k));
    assert Restrict(all, OfTx(live, h).Keys) == OfTx(live, h);
    assert all - OfTx(live, h).Keys == NestedIn(live, h);
  }

  /** It charges what the books charge exactly if nothing nested is worth anything to `k`. */
  lemma ChargedExactly(live: map<OutRef, Entry>, h: string, k: BalanceKey)
    ensures Unspent(OfTx(live, h), k) <= Unspent(Reached(live, h), k)
    ensures Unspent(Reached(live, h), k) == Unspent(OfTx(live, h), k) <==>
      forall r :: r in live && StartsWith(r.hash, h + ":") && OwnerOf(live[r]) == k ==> live[r].value == 0
  {
    var nested := NestedIn(live, h);
    ReachedParts(live, h, k);
    TotalNonNegative(nested, Worth(k));
    if r :| r in live && StartsWith(r.hash, h + ":") && OwnerOf(live[r]) == k && live[r].value != 0 {
      assert r in nested;
      TotalAtLeast(nested, Worth(k), r);
    } else {
      TotalZero(nested, Worth(k));
    }
  }

  /** It deletes what the books delete exactly if what is nested deletes only what `k` has in `h` itself. */
  lemma DeletedExactly(live: map<OutRef, Entry>, h: string, k: BalanceKey)
    requires !Blocked(live, h)
    ensures live - Targets(live, h, k) == live - Matched(live, h, k) <==>
      forall r :: r in live && StartsWith(r.hash, h + ":") && OwnerOf(live[r]) == k ==>
        Target(h, r) !in live || OwnerOf(live[Target(h, r)]) == k
  {
    forall r | r in Matched(live, h, k) ensures r in Targets(live, h, k) {
      OwnTarget(h, r);
    }
    forall r | r in live && r.hash == h ensures Target(h, r) == r {
      OwnTarget(h, r);
    }
    var rest, ideal := live - Targets(live, h, k), live - Matched(live, h, k);
    if r :| r in live && StartsWith(r.hash, h + ":") && OwnerOf(live[r]) == k
            && Target(h, r) in live && OwnerOf(live[Target(h, r)]) != k
    {
      assert Target(h, r) in Targets(live, h, k);
      assert Target(h, r) in ideal && Target(h, r) !in rest;
    } else {
      forall r | r in live && Reaches(h, r) && OwnerOf(live[r]) == k && Target(h, r) in live
        ensures Target(h, r) in Matched(live, h, k)
      {
        TargetHash(live, h, r);
      }
      assert rest == ideal;
    }
  }

  lemma TargetHash(live: map<OutRef, Entry>, h: string, r: OutRef)
    requires !Blocked(live, h) && r in live && Reaches(h, r)
    ensures Target(h, r).hash == h
  {
    KeyIsReadExactly(r, h);
    assert ReadAs(h, r) != Unreadable;
  }

  lemma TakesAgree(b: Books, k: BalanceKey, sum: int, gone: set<OutRef>, sum': int, gone': set<OutRef>)
    ensures Take(b, k, sum, gone) == Take(b, k, sum', gone') <==>
      sum == sum' && (sum == 0 || b.live - gone == b.live - gone')
  {
    assert Get(Take(b, k, sum, gone).deltas, k) == Get(b.deltas, k) - sum;
    assert Get(Take(b, k, sum', gone').deltas, k) == Get(b.deltas, k) - sum';
  }

  /** The exact condition: spending `h` does what the books say if and only if it is harmless. */
  lemma SpendIsExact(b: Books, k: BalanceKey, h: string)
    ensures SpendScan(Walk(b, false), k, h) == Walk(SpendHash(b, k, h), false) <==> Harmless(b.live, h, k)
  {
    if !Blocked(b.live, h) {
      var sum, sum' := Unspent(Reached(b.live, h), k), Unspent(OfTx(b.live, h), k);
      SpendsTake(b, h, k, sum, Targets(b.live, h, k));
      assert SpendHash(b, k, h) == Take(b, k, sum', Matched(b.live, h, k));
      TakesAgree(b, k, sum, Targets(b.live, h, k), sum', Matched(b.live, h, k));
      ChargedExactly(b.live, h, k);
      DeletedExactly(b.live, h, k);
    }
  }

  /** Nested hashes can do harm: spending "a" charges the owner of "a:7" for an output that stays unspent. */
  lemma NestedSpendCharges(b: Books, e: Entry)
    requires b.live == map[OutRef("a:7", 0, 0) := e] && e.value > 0
    ensures SpendScan(Walk(b, false), OwnerOf(e), "a")
         == Walk(b.(deltas := b.deltas[OwnerOf(e) := Get(b.deltas, OwnerOf(e)) - e.value]), false)
    ensures OutRef("a:7", 0, 0) in SpendScan(Walk(b, false), OwnerOf(e), "a").books.live
  {
    var r, k := OutRef("a:7", 0, 0), OwnerOf(e);
    NestedReads();
    assert Reached(b.live, "a") == b.live;
    assert Targets(b.live, "a", k) == {OutRef("a", 7, 0)} by {
      assert Target("a", r) == OutRef("a", 7, 0);
    }
    assert b.live == map[][r := e];
    TotalUpdate(map[], Worth(k), r, e);
    assert b.live - {OutRef("a", 7, 0)} == b.live;
    SpendsTake(b, "a", k, e.value, {OutRef("a", 7, 0)});
  }

  // ---- the loops in step with the books ----

  /** The reference at position `i` is scanned: not skipped and not a repetition. */
  predicate Counts(ps: seq<Prevout>, redeem: string, i: nat)
    requires i < |ps|
  {
    Eligible(ps[i], redeem) && ps[i] !in Seen(ps[..i], redeem)
  }

  /** That reference is harmless in its turn, if it is scanned. */
  ghost predicate HarmlessAt(b: Books, k: BalanceKey, redeem: string, ps: seq<Prevout>, i: nat)
    requires i < |ps|
  {
    Counts(ps, redeem, i) ==> Harmless(SpendPrevouts(b, k, redeem, ps[..i]).live, ps[i].hash, k)
  }

  /** After `i` references the loop is where the books are. */
  ghost predicate InStepAt(b: Books, k: BalanceKey, redeem: string, ps: seq<Prevout>, i: nat)
    requires i <= |ps|
  {
    WalkPrevouts(Walk(b, false), k, redeem, ps[..i]) == Walk(SpendPrevouts(b, k, redeem, ps[..i]), false)
  }

  ghost predicate PrevoutsHarmless(b: Books, k: BalanceKey, redeem: string, ps: seq<Prevout>) {
    forall i :: 0 <= i < |ps| ==> HarmlessAt(b, k, redeem, ps, i)
  }

  ghost predicate PrevoutsInStep(b: Books, k: BalanceKey, redeem: string, ps: seq<Prevout>) {
    forall i :: 0 <= i <= |ps| ==> InStepAt(b, k, redeem, ps, i)
  }

  lemma OneMorePrevout(b: Books, k: BalanceKey, redeem: string, ps: seq<Prevout>, i: nat)
    requires i < |ps| && InStepAt(b, k, redeem, ps, i)
    ensures InStepAt(b, k, redeem, ps, i + 1) <==> HarmlessAt(b, k, redeem, ps, i)
  {
    assert ps[..i + 1][..i] == ps[..i];
    SpendIsExact(SpendPrevouts(b, k, redeem, ps[..i]), k, ps[i].hash);
  }

  lemma {:induction false} HarmlessUpTo(b: Books, k: BalanceKey, redeem: string, ps: seq<Prevout>, n: nat)
    requires n <= |ps| && PrevoutsHarmless(b, k, redeem, ps)
    ensures InStepAt(b, k, redeem, ps, n)
  {
    if n > 0 {
      HarmlessUpTo(b, k, redeem, ps, n - 1);
      assert HarmlessAt(b, k, redeem, ps, n - 1);
      OneMorePrevout(b, k, redeem, ps, n - 1);
    }
  }

  /** The input loop stays in step with the books if and only if every reference is harmless in its turn. */
  lemma PrevoutsExactly(b: Books, k: BalanceKey, redeem: string, ps: seq<Prevout>)
    ensures PrevoutsInStep(b, k, redeem, ps) <==> PrevoutsHarmless(b, k, redeem, ps)
  {
    if PrevoutsHarmless(b, k, redeem, ps) {
      forall i | 0 <= i <= |ps| ensures InStepAt(b, k, redeem, ps, i) {
        HarmlessUpTo(b, k, redeem, ps, i);
      }
    }
    if PrevoutsInStep(b, k, redeem, ps) {
      forall i | 0 <= i < |ps| ensures HarmlessAt(b, k, redeem, ps, i) {
        assert InStepAt(b, k, redeem, ps, i) && InStepAt(b, k, redeem, ps, i + 1);
        OneMorePrevout(b, k, redeem, ps, i);
      }
    }
  }

  /** The references of one utxo, spent by its signer. */
  ghost predicate UtxoHarmless(b: Books, redeem: string, u: Utxo) {
    SignerOf(u) == "" || PrevoutsHarmless(b, BalanceKey(SignerOf(u), u.assetType), redeem, u.prevouts)
  }

  ghost predicate UtxoInStep(b: Books, redeem: string, u: Utxo) {
    SignerOf(u) == "" || PrevoutsInStep(b, BalanceKey(SignerOf(u), u.assetType), redeem, u.prevouts)
  }

  ghost predicate UtxosHarmless(b: Books, redeem: string, us: seq<Utxo>) {
    forall i :: 0 <= i < |us| ==> UtxoHarmless(SpendUtxos(b, redeem, us[..i]), redeem, us[i])
  }

  ghost predicate UtxosInStep(b: Books, redeem: string, us: seq<Utxo>) {
    forall i :: 0 <= i < |us| ==> UtxoInStep(SpendUtxos(b, redeem, us[..i]), redeem, us[i])
  }

  ghost predicate TxHarmless(b: Books, tx: Transaction) {
    UtxosHarmless(b, RedeemOf(tx), tx.utxos)
  }

  ghost predicate TxInStep(b: Books, tx: Transaction) {
    UtxosInStep(b, RedeemOf(tx), tx.utxos)
  }

  /** Every reference of the block is harmless when its turn comes. */
  ghost predicate BlockHarmless(live: map<OutRef, Entry>, txs: seq<Transaction>) {
    txs == [] ||
    var init, tx := txs[..|txs| - 1], txs[|txs| - 1];
    BlockHarmless(live, init) && TxHarmless(ProcessAll(live, init), tx)
  }

  /** After every reference of the block the loops are where the books are. */
  ghost predicate BlockInStep(live: map<OutRef, Entry>, txs: seq<Transaction>) {
    txs == [] ||
    var init, tx := txs[..|txs| - 1], txs[|txs| - 1];
    BlockInStep(live, init) && TxInStep(ProcessAll(live, init), tx)
  }

  lemma UtxosExactly(b: Books, redeem: string, us: seq<Utxo>)
    ensures UtxosInStep(b, redeem, us) <==> UtxosHarmless(b, redeem, us)
  {
    forall i | 0 <= i < |us|
      ensures UtxoInStep(SpendUtxos(b, redeem, us[..i]), redeem, us[i])
         <==> UtxoHarmless(SpendUtxos(b, redeem, us[..i]), redeem, us[i])
    {
      var k := BalanceKey(SignerOf(us[i]), us[i].assetType);
      PrevoutsExactly(SpendUtxos(b, redeem, us[..i]), k, redeem, us[i].prevouts);
    }
  }

  /** A block stays in step with the books throughout if and only if every reference is harmless in its turn. */
  lemma {:induction false} BlockExactly(live: map<OutRef, Entry>, txs: seq<Transaction>)
    ensures BlockInStep(live, txs) <==> BlockHarmless(live, txs)
  {
    if txs != [] {
      var init, tx := txs[..|txs| - 1], txs[|txs| - 1];
      BlockExactly(live, init);
      UtxosExactly(ProcessAll(live, init), RedeemOf(tx), tx.utxos);
    }
  }

  lemma UtxoIsBooks(b: Books, redeem: string, u: Utxo)
    requires UtxoHarmless(b, redeem, u)
    ensures WalkUtxo(Walk(b, false), redeem, u) == Walk(SpendUtxo(b, redeem, u), false)
  {
    if SignerOf(u) != "" {
      HarmlessUpTo(b, BalanceKey(SignerOf(u), u.assetType), redeem, u.prevouts, |u.prevouts|);
      assert u.prevouts[..|u.prevouts|] == u.prevouts;
    }
  }

  lemma {:induction false} UtxosAreBooks(b: Books, redeem: string, us: seq<Utxo>, n: nat)
    requires n <= |us| && UtxosHarmless(b, redeem, us)
    ensures WalkUtxos(Walk(b, false), redeem, us[..n]) == Walk(SpendUtxos(b, redeem, us[..n]), false)
  {
    if n > 0 {
      var i := n - 1;
      UtxosAreBooks(b, redeem, us, i);
      UtxoIsBooks(SpendUtxos(b, redeem, us[..i]), redeem, us[i]);
      assert us[..n][..i] == us[..i];
    }
  }

  lemma TxIsBooks(b: Books, tx: Transaction)
    requires TxHarmless(b, tx)
    ensures WalkTx(Walk(b, false), tx) == Walk(ProcessTx(b, tx), false)
  {
    UtxosAreBooks(b, RedeemOf(tx), tx.utxos, |tx.utxos|);
    assert tx.utxos[..|tx.utxos|] == tx.utxos;
  }

  /** A block whose references are harmless never throws and does exactly what the books say. */
  lemma {:induction false} WalkIsBooks(live: map<OutRef, Entry>, txs: seq<Transaction>)
    requires BlockHarmless(live, txs)
    ensures WalkAll(live, txs) == Walk(ProcessAll(live, txs), false)
  {
    if txs != [] {
      var init, tx := txs[..|txs| - 1], txs[|txs| - 1];
      WalkIsBooks(live, init);
      TxIsBooks(ProcessAll(live, init), tx);
    }
  }

  // ---- hashes without nesting ----

  ghost predicate HashesIn(live: map<OutRef, Entry>, hashes: set<string>) {
    forall r :: r in live ==> r.hash in hashes
  }

  /** No hash of the set goes on with a colon behind `h`. */
  ghost predicate Apart(hashes: set<string>, h: string) {
    forall g :: g in hashes ==> !StartsWith(g, h + ":")
  }

  ghost predicate ApartFrom(hashes: set<string>, tx: Transaction) {
    forall u, p :: u in tx.utxos && p in u.prevouts ==> Apart(hashes, p.hash)
  }

  lemma ApartIsHarmless(live: map<OutRef, Entry>, hashes: set<string>, h: string, k: BalanceKey)
    requires HashesIn(live, hashes) && Apart(hashes, h)
    ensures Harmless(live, h, k)
  {
    OwnKeysAreReadable(live, h);
  }

  lemma ApartTxIsHarmless(b: Books, hashes: set<string>, tx: Transaction)
    requires HashesIn(b.live, hashes) && ApartFrom(hashes, tx)
    ensures TxHarmless(b, tx)
  {
    var redeem := RedeemOf(tx);
    forall i | 0 <= i < |tx.utxos|
      ensures UtxoHarmless(SpendUtxos(b, redeem, tx.utxos[..i]), redeem, tx.utxos[i])
    {
      var before, u := SpendUtxos(b, redeem, tx.utxos[..i]), tx.utxos[i];
      var k := BalanceKey(SignerOf(u), u.assetType);
      SpendUtxosRemoves(b, redeem, tx.utxos[..i]);
      forall j | 0 <= j < |u.prevouts| ensures HarmlessAt(before, k, redeem, u.prevouts, j) {
        SpendPrevoutsRemoves(before, k, redeem, u.prevouts[..j]);
        ApartIsHarmless(SpendPrevouts(before, k, redeem, u.prevouts[..j]).live, hashes, u.prevouts[j].hash, k);
      }
    }
  }

  lemma {:induction false} VoutsKeepHashes(b: Books, txHash: string, ui: nat, u: Utxo, n: nat, hashes: set<string>)
    requires n <= |u.vouts| && HashesIn(b.live, hashes) && txHash in hashes
    ensures HashesIn(CreateVouts(b, txHash, ui, u, n).live, hashes)
  {
    if n > 0 {
      VoutsKeepHashes(b, txHash, ui, u, n - 1, hashes);
    }
  }

  lemma {:induction false} UtxosKeepHashes(b: Books, txHash: string, us: seq<Utxo>, n: nat, hashes: set<string>)
    requires n <= |us| && HashesIn(b.live, hashes) && txHash in hashes
    ensures HashesIn(CreateUtxos(b, txHash, us, n).live, hashes)
  {
    if n > 0 {
      UtxosKeepHashes(b, txHash, us, n - 1, hashes);
      VoutsKeepHashes(CreateUtxos(b, txHash, us, n - 1), txHash, n - 1, us[n - 1], |us[n - 1].vouts|, hashes);
    }
  }

  lemma {:induction false} TxsKeepHashes(b: Books, txs: seq<Transaction>, hashes: set<string>)
    requires HashesIn(b.live, hashes) && forall tx :: tx in txs ==> tx.hash in hashes
    ensures HashesIn(ProcessTxs(b, txs).live, hashes)
  {
    if txs != [] {
      var init, tx := txs[..|txs| - 1], txs[|txs| - 1];
      assert tx in txs && forall x :: x in init ==> x in txs;
      TxsKeepHashes(b, init, hashes);
      var before := ProcessTxs(b, init);
      SpendUtxosRemoves(before, RedeemOf(tx), tx.utxos);
      UtxosKeepHashes(SpendUtxos(before, RedeemOf(tx), tx.utxos), tx.hash, tx.utxos, |tx.utxos|, hashes);
    }
  }

  /** Where no hash in play goes on with a colon behind one that is referred to, every reference is harmless. */
  lemma {:induction false} ApartBlockIsHarmless(live: map<OutRef, Entry>, txs: seq<Transaction>, hashes: set<string>)
    requires HashesIn(live, hashes) && forall tx :: tx in txs ==> tx.hash in hashes && ApartFrom(hashes, tx)
    ensures BlockHarmless(live, txs) && HashesIn(ProcessAll(live, txs).live, hashes)
  {
    TxsKeepHashes(Books(live, map[], map[]), txs, hashes);
    if txs != [] {
      var init, tx := txs[..|txs| - 1], txs[|txs| - 1];
      assert tx in txs && forall x :: x in init ==> x in txs;
      ApartBlockIsHarmless(live, init, hashes);
      ApartTxIsHarmless(ProcessAll(live, init), hashes, tx);
    }
  }
}
