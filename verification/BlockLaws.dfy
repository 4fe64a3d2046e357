/**
 What a block does to outputs and deltas, told from the members of its transactions alone: which references
 are spent, which outputs are made, and what is left.
 */
module BlockLaws {
  import opened Wrappers
  import opened Sums
  import opened Text
  import opened Chain
  import opened UtxoStore
  import opened UtxoBooks
  import opened DeltaLaws
  import opened TransactionLaws

  // ---- which references are passed over ----

  /** Nothing but zeros, bare or behind "0x"; "" counts, "0x" alone does not. */
  predicate ZeroHash(h: string) {
    (forall c :: c in h ==> c == '0')
    || (|h| > 2 && (h[..2] == "0x" || h[..2] == "0X") && forall c :: c in h[2..] ==> c == '0')
  }

  /** An unstaking, undelegating or unlocking transaction whose first redeem member is the text `r`. */
  predicate Redeems(tx: Transaction, r: string) {
    && (tx.ty == 3 || tx.ty == 5 || tx.ty == 10)
    && tx.info.Some?
    && var i := tx.info.value;
      || i.unLockUtxo == Text(r)
      || (i.unLockUtxo == Absent && i.unstakeUtxo == Text(r))
      || (i.unLockUtxo == Absent && i.unstakeUtxo == Absent && i.undelegatingUtxo == Text(r))
  }

  predicate PassedOver(tx: Transaction, p: Prevout) {
    ZeroHash(p.hash) || (p.n == 1 && Redeems(tx, p.hash))
  }

  lemma ZerosByMember(s: string)
    ensures AllZeros(s) <==> forall c :: c in s ==> c == '0'
  {
    if forall c :: c in s ==> c == '0' {
      forall i | 0 <= i < |s| ensures s[i] == '0' {
        assert s[i] in s;
      }
    }
  }

  lemma ZeroHashExactly(h: string)
    ensures IsGenesisRef(h) <==> ZeroHash(h)
  {
    ZerosByMember(h);
    if |h| > 2 && h[0] == '0' && (h[1] == 'x' || h[1] == 'X') {
      ZerosByMember(h[2..]);
      assert h[1] in h && h[..2] == [h[0], h[1]];
    }
  }

  lemma RedeemsExactly(tx: Transaction, r: string)
    requires r != ""
    ensures RedeemOf(tx) == r <==> Redeems(tx, r)
  {
  }

  lemma EligibleExactly(tx: Transaction, p: Prevout)
    ensures Eligible(p, RedeemOf(tx)) <==> !PassedOver(tx, p)
  {
    ZeroHashExactly(p.hash);
    if p.hash == "" {
      assert ZeroHash(p.hash);
    } else {
      RedeemsExactly(tx, p.hash);
    }
  }

  // ---- what is spent ----

  /** Some utxo, signed by the entry's address in the entry's asset, has a reference to `h` that is not passed over. */
  ghost predicate Claimed(tx: Transaction, e: Entry, h: string) {
    exists i, j ::
      && 0 <= i < |tx.utxos| && 0 <= j < |tx.utxos[i].prevouts|
      && tx.utxos[i].owner != [] && tx.utxos[i].owner[0] == e.addr && e.addr != ""
      && tx.utxos[i].assetType == e.assetType
      && tx.utxos[i].prevouts[j].hash == h && !PassedOver(tx, tx.utxos[i].prevouts[j])
  }

  /** The entry's owner has something of value in `h`, in that asset. */
  ghost predicate OfValue(live: map<OutRef, Entry>, h: string, e: Entry) {
    exists r :: r in live && r.hash == h && live[r].addr == e.addr && live[r].assetType == e.assetType
      && live[r].value > 0
  }

  lemma ClaimedExactly(tx: Transaction, e: Entry, h: string)
    ensures Claims(tx.utxos, RedeemOf(tx), OwnerOf(e), h) <==> Claimed(tx, e, h)
  {
    forall i, j | 0 <= i < |tx.utxos| && 0 <= j < |tx.utxos[i].prevouts|
      ensures Eligible(tx.utxos[i].prevouts[j], RedeemOf(tx)) <==> !PassedOver(tx, tx.utxos[i].prevouts[j])
    {
      EligibleExactly(tx, tx.utxos[i].prevouts[j]);
    }
    if Claims(tx.utxos, RedeemOf(tx), OwnerOf(e), h) {
      var i :| 0 <= i < |tx.utxos| && ClaimsOne(tx.utxos[i], RedeemOf(tx), OwnerOf(e), h);
      var p :| p in tx.utxos[i].prevouts && Eligible(p, RedeemOf(tx)) && p.hash == h;
      var j :| 0 <= j < |tx.utxos[i].prevouts| && tx.utxos[i].prevouts[j] == p;
    }
    if Claimed(tx, e, h) {
      var i, j :|
        && 0 <= i < |tx.utxos| && 0 <= j < |tx.utxos[i].prevouts|
        && tx.utxos[i].owner != [] && tx.utxos[i].owner[0] == e.addr && e.addr != ""
        && tx.utxos[i].assetType == e.assetType
        && tx.utxos[i].prevouts[j].hash == h && !PassedOver(tx, tx.utxos[i].prevouts[j]);
      assert tx.utxos[i].prevouts[j] in tx.utxos[i].prevouts;
      assert ClaimsOne(tx.utxos[i], RedeemOf(tx), OwnerOf(e), h);
    }
  }

  lemma OfValueExactly(live: map<OutRef, Entry>, h: string, e: Entry)
    ensures Unspent(OfTx(live, h), OwnerOf(e)) != 0 <==> OfValue(live, h, e)
  {
    var all, w := OfTx(live, h), Worth(OwnerOf(e));
    if r :| r in live && r.hash == h && live[r].addr == e.addr && live[r].assetType == e.assetType
            && live[r].value > 0
    {
      TotalAtLeast(all, w, r);
    } else {
      TotalZero(all, w);
    }
  }

  lemma SpentExactly(live: map<OutRef, Entry>, tx: Transaction, r: OutRef)
    requires r in live
    ensures r in Spent(live, RedeemOf(tx), tx.utxos)
      <==> Claimed(tx, live[r], r.hash) && OfValue(live, r.hash, live[r])
  {
    ClaimedExactly(tx, live[r], r.hash);
    OfValueExactly(live, r.hash, live[r]);
  }

  // ---- what is made ----

  /** The transaction has an output at the position of `r`, in some asset, to an address that is not virtual. */
  predicate Makes(tx: Transaction, r: OutRef, e: Entry) {
    && r.hash == tx.hash && r.utxoI < |tx.utxos| && r.voutJ < |tx.utxos[r.utxoI].vouts|
    && tx.utxos[r.utxoI].assetType != ""
    && var o := tx.utxos[r.utxoI].vouts[r.voutJ];
      && !("Virtual" <= o.addr) && !("LockVirtual" <= o.addr)
      && e == Entry(o.addr, o.value, tx.utxos[r.utxoI].assetType)
  }

  lemma MakesExactly(tx: Transaction, r: OutRef, e: Entry)
    ensures Made(tx.hash, tx.utxos, r) == Some(e) <==> Makes(tx, r, e)
  {
  }

  // ---- the transaction ----

  /** Without an output of the transaction under `r`. */
  ghost predicate MakesNone(tx: Transaction, r: OutRef) {
    forall e :: !Makes(tx, r, e)
  }

  lemma MakesNoneExactly(tx: Transaction, r: OutRef)
    ensures Made(tx.hash, tx.utxos, r) == None <==> MakesNone(tx, r)
  {
    if Made(tx.hash, tx.utxos, r).Some? {
      MakesExactly(tx, r, Made(tx.hash, tx.utxos, r).value);
    }
    forall e ensures Made(tx.hash, tx.utxos, r) == Some(e) <==> Makes(tx, r, e) {
      MakesExactly(tx, r, e);
    }
  }

  /**
   The unspent set after a transaction, in terms of its members: what it makes is there; of the rest, what was
   there stays unless it is claimed and its owner has something of value in that transaction; nothing else appears.
   */
  lemma TransactionExactly(b: Books, tx: Transaction, r: OutRef)
    requires NoIndexWrap(tx)
    ensures var after := ProcessTx(b, tx).live;
      && (forall e :: Makes(tx, r, e) ==> r in after && after[r] == e)
      && (MakesNone(tx, r) && r in b.live ==>
            && (r in after <==> !(Claimed(tx, b.live[r], r.hash) && OfValue(b.live, r.hash, b.live[r])))
            && (r in after ==> after[r] == b.live[r]))
      && (MakesNone(tx, r) && r !in b.live ==> r !in after)
  {
    TransactionEffect(b, tx, r);
    MakesNoneExactly(tx, r);
    if r in b.live {
      SpentExactly(b.live, tx, r);
    }
    forall e | Makes(tx, r, e) ensures Made(tx.hash, tx.utxos, r) == Some(e) {
      MakesExactly(tx, r, e);
    }
  }

  // ---- sums and deltas ----

  /** An unspent sum counts each output of the address in the asset, at its value. */
  lemma UnspentIsSum(live: map<OutRef, Entry>, r: OutRef, e: Entry, k: BalanceKey)
    requires r !in live
    ensures Unspent(map[], k) == 0
    ensures Unspent(live[r := e], k)
         == Unspent(live, k) + if e.addr == k.address && e.assetType == k.assetType then e.value else 0
  {
    TotalUpdate(live, Worth(k), r, e);
  }

  /** What is written over by the transaction, in its members' terms. */
  lemma OverwrittenExactly(live: map<OutRef, Entry>, tx: Transaction, r: OutRef)
    requires r in live
    ensures r in Overwritten(live, tx) <==>
      !MakesNone(tx, r) && !(Claimed(tx, live[r], r.hash) && OfValue(live, r.hash, live[r]))
  {
    MakesNoneExactly(tx, r);
    SpentExactly(live, tx, r);
  }

  /** The delta of a transaction: what the unspent sum gains, and the worth of what is written over. */
  lemma DeltaExactly(b: Books, tx: Transaction, k: BalanceKey)
    requires NoIndexWrap(tx)
    ensures Get(ProcessTx(b, tx).deltas, k)
         == Get(b.deltas, k) + Unspent(ProcessTx(b, tx).live, k) - Unspent(b.live, k)
            + Unspent(Restrict(b.live, Overwritten(b.live, tx)), k)
  {
    var mid := SpendUtxos(b, RedeemOf(tx), tx.utxos);
    SpendUtxosDrift(b, RedeemOf(tx), tx.utxos, k);
    CreateUtxosDrift(mid, tx.hash, tx.utxos, |tx.utxos|, k);
    TransactionLost(b, tx, k);
  }

  // ---- redeeming transactions ----

  lemma NothingEligible(tx: Transaction, ps: seq<Prevout>)
    requires forall p :: p in ps ==> PassedOver(tx, p)
    ensures EligibleHashes(ps, RedeemOf(tx)) == {}
  {
    forall p | p in ps ensures !Eligible(p, RedeemOf(tx)) {
      EligibleExactly(tx, p);
    }
  }

  lemma NoHashSpendsNothing(b: Books, k: BalanceKey)
    ensures SpendSet(b, k, {}) == b
  {
    assert SpentIn(b.live, k, {}) == {};
  }

  lemma {:induction false} PassedOverSpendsNothing(b: Books, tx: Transaction, us: seq<Utxo>)
    requires forall u, p :: u in us && p in u.prevouts ==> PassedOver(tx, p)
    ensures SpendUtxos(b, RedeemOf(tx), us) == b
  {
    if us != [] {
      var init, u := us[..|us| - 1], us[|us| - 1];
      assert u in us && forall v :: v in init ==> v in us;
      PassedOverSpendsNothing(b, tx, init);
      var k := BalanceKey(SignerOf(u), u.assetType);
      NothingEligible(tx, u.prevouts);
      PrevoutsAreSet(b, k, RedeemOf(tx), u.prevouts);
      NoHashSpendsNothing(b, k);
    }
  }

  /**
   A redeeming transaction that refers to output 1 of its target alone, in whatever utxos, leaves every output of
   the target and every delta; what it makes comes on top.
   */
  lemma RedeemIsLeft(b: Books, tx: Transaction, target: string)
    requires Redeems(tx, target) && forall u, p :: u in tx.utxos && p in u.prevouts ==> p == Prevout(target, 1)
    ensures ProcessTx(b, tx) == CreateUtxos(b, tx.hash, tx.utxos, |tx.utxos|)
    ensures (forall u :: u in tx.utxos ==> u.vouts == []) ==> ProcessTx(b, tx) == b
  {
    PassedOverSpendsNothing(b, tx, tx.utxos);
    if forall u :: u in tx.utxos ==> u.vouts == [] {
      NothingMade(b, tx.hash, tx.utxos, |tx.utxos|);
    }
  }

  lemma {:induction false} NothingMade(b: Books, txHash: string, us: seq<Utxo>, n: nat)
    requires n <= |us| && forall u :: u in us ==> u.vouts == []
    ensures CreateUtxos(b, txHash, us, n) == b
  {
    if n > 0 {
      NothingMade(b, txHash, us, n - 1);
      assert us[n - 1] in us;
    }
  }

  /**
   A reference that is not passed over, by its number, its hash or the type of the transaction, takes all that the
   utxo's first owner has in that asset in the transaction it refers to, at its value, unless that is nothing.
   */
  lemma ReferenceIsSpent(b: Books, tx: Transaction, u: Utxo, p: Prevout)
    requires tx.utxos == [u] && u.prevouts == [p] && u.vouts == [] && u.owner != [] && u.owner[0] != ""
    requires !ZeroHash(p.hash) && (p.n != 1 || !Redeems(tx, p.hash))
    ensures var a, of := u.owner[0], OfTx(b.live, p.hash);
      var k := BalanceKey(a, u.assetType);
      ProcessTx(b, tx) ==
        if OfValue(b.live, p.hash, Entry(a, 0, u.assetType)) then
          Books(b.live - (set r | r in of && of[r].addr == a && of[r].assetType == u.assetType),
                b.deltas[k := Get(b.deltas, k) - Unspent(of, k)], b.lost)
        else b
  {
    var a, redeem := u.owner[0], RedeemOf(tx);
    var k := BalanceKey(a, u.assetType);
    var of := OfTx(b.live, p.hash);
    EligibleExactly(tx, p);
    OfValueExactly(b.live, p.hash, Entry(a, 0, u.assetType));
    assert [p][..0] == [] && [u][..0] == [];
    assert Seen([], redeem) == {};
    assert SpendPrevouts(b, k, redeem, []) == b;
    assert SpendPrevouts(b, k, redeem, [p]) == SpendHash(b, k, p.hash);
    assert SpendUtxos(b, redeem, []) == b;
    assert SpendUtxos(b, redeem, [u]) == SpendHash(b, k, p.hash);
    NothingMade(SpendHash(b, k, p.hash), tx.hash, [u], 1);
    assert Matched(b.live, p.hash, k) == set r | r in of && of[r].addr == a && of[r].assetType == u.assetType;
  }
}
