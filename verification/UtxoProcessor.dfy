/**
 Spending and creating native outputs. `UtxoProcessor.ProcessBlock` is the source's nest of loops over
 the key-value store; the functions on `Walk` say what it does whatever the hashes look like. `SpendLaws`
 says when that is what `UtxoBooks` says.
 */
module UtxoProcessor {
  import opened Wrappers
  import opened Sums
  import opened Chain
  import opened UtxoStore
  import opened UtxoBooks

  // ---- the loops on any store ----

  /** The books so far; once stoul has thrown nothing more happens to them. */
  datatype Walk = Walk(books: Books, thrown: bool)

  /** The outputs a scan for `h` adds up. */
  ghost function Reached(live: map<OutRef, Entry>, h: string): map<OutRef, Entry> {
    map r | r in live && Reaches(h, r) :: live[r]
  }

  /** The output deleted for `r`, which is `r` itself unless its hash is another. */
  function Target(h: string, r: OutRef): OutRef {
    match ReadAs(h, r)
    case Indices(ui, vj) => OutRef(h, ui, vj)
    case _ => r
  }

  ghost function Targets(live: map<OutRef, Entry>, h: string, k: BalanceKey): set<OutRef> {
    set r | r in live && Reaches(h, r) && OwnerOf(live[r]) == k :: Target(h, r)
  }

  /** Emit `sum` as a delta of `k` and delete `gone`, or leave everything when the sum is zero. */
  function Take(b: Books, k: BalanceKey, sum: int, gone: set<OutRef>): Books {
    if sum == 0 then b else b.(live := b.live - gone, deltas := b.deltas[k := Get(b.deltas, k) - sum])
  }

  ghost function SpendScan(w: Walk, k: BalanceKey, h: string): Walk {
    if w.thrown || Blocked(w.books.live, h) then w.(thrown := true) else
      var live := w.books.live;
      w.(books := Take(w.books, k, Unspent(Reached(live, h), k), Targets(live, h, k)))
  }

  ghost function WalkPrevouts(w: Walk, k: BalanceKey, redeem: string, ps: seq<Prevout>): Walk {
    if ps == [] then w else
      var init, p := ps[..|ps| - 1], ps[|ps| - 1];
      var done := WalkPrevouts(w, k, redeem, init);
      if !Eligible(p, redeem) || p in Seen(init, redeem) then done else SpendScan(done, k, p.hash)
  }

  ghost function WalkUtxo(w: Walk, redeem: string, u: Utxo): Walk {
    if SignerOf(u) == "" then w else WalkPrevouts(w, BalanceKey(SignerOf(u), u.assetType), redeem, u.prevouts)
  }

  ghost function WalkUtxos(w: Walk, redeem: string, us: seq<Utxo>): Walk {
    if us == [] then w else WalkUtxo(WalkUtxos(w, redeem, us[..|us| - 1]), redeem, us[|us| - 1])
  }

  ghost function WalkTx(w: Walk, tx: Transaction): Walk {
    var mid := WalkUtxos(w, RedeemOf(tx), tx.utxos);
    if mid.thrown then mid else mid.(books := CreateUtxos(mid.books, tx.hash, tx.utxos, |tx.utxos|))
  }

  ghost function WalkTxs(w: Walk, txs: seq<Transaction>): Walk {
    if txs == [] then w else WalkTx(WalkTxs(w, txs[..|txs| - 1]), txs[|txs| - 1])
  }

  /** One whole block, from an unspent set. */
  ghost function WalkAll(live: map<OutRef, Entry>, txs: seq<Transaction>): Walk {
    WalkTxs(Walk(Books(live, map[], map[]), false), txs)
  }

  lemma SpendsTake(b: Books, h: string, k: BalanceKey, sum: int, gone: set<OutRef>)
    requires !Blocked(b.live, h) && sum == Unspent(Reached(b.live, h), k) && gone == Targets(b.live, h, k)
    ensures SpendScan(Walk(b, false), k, h) == Walk(Take(b, k, sum, gone), false)
  {
  }

  // ---- an exception ends the block ----

  lemma {:induction false} PrevoutsThrown(w: Walk, k: BalanceKey, redeem: string, ps: seq<Prevout>, i: nat)
    requires i <= |ps| && WalkPrevouts(w, k, redeem, ps[..i]).thrown
    ensures WalkPrevouts(w, k, redeem, ps) == WalkPrevouts(w, k, redeem, ps[..i])
    decreases |ps| - i
  {
    if i == |ps| {
      assert ps[..i] == ps;
    } else {
      assert ps[..i + 1][..i] == ps[..i];
      PrevoutsThrown(w, k, redeem, ps, i + 1);
    }
  }

  lemma {:induction false} ThrownStays(w: Walk, k: BalanceKey, redeem: string, ps: seq<Prevout>)
    requires w.thrown
    ensures WalkPrevouts(w, k, redeem, ps) == w
  {
    if ps != [] {
      ThrownStays(w, k, redeem, ps[..|ps| - 1]);
    }
  }

  lemma {:induction false} UtxosThrown(w: Walk, redeem: string, us: seq<Utxo>, i: nat)
    requires i <= |us| && WalkUtxos(w, redeem, us[..i]).thrown
    ensures WalkUtxos(w, redeem, us) == WalkUtxos(w, redeem, us[..i])
    decreases |us| - i
  {
    if i == |us| {
      assert us[..i] == us;
    } else {
      assert us[..i + 1][..i] == us[..i];
      ThrownStays(WalkUtxos(w, redeem, us[..i]), BalanceKey(SignerOf(us[i]), us[i].assetType), redeem, us[i].prevouts);
      UtxosThrown(w, redeem, us, i + 1);
    }
  }

  lemma {:induction false} TxThrown(w: Walk, tx: Transaction)
    requires w.thrown
    ensures WalkTx(w, tx) == w
  {
    assert tx.utxos[..0] == [];
    UtxosThrown(w, RedeemOf(tx), tx.utxos, 0);
  }

  lemma OneMoreThrown(w: Walk, txs: seq<Transaction>, i: nat)
    requires i < |txs| && WalkTxs(w, txs[..i]).thrown
    ensures WalkTxs(w, txs[..i + 1]) == WalkTxs(w, txs[..i])
  {
    assert txs[..i + 1][..i] == txs[..i];
    TxThrown(WalkTxs(w, txs[..i]), txs[i]);
  }

  lemma {:induction false} TxsThrown(w: Walk, txs: seq<Transaction>, i: nat)
    requires i <= |txs| && WalkTxs(w, txs[..i]).thrown
    ensures WalkTxs(w, txs) == WalkTxs(w, txs[..i])
    decreases |txs| - i
  {
    if i == |txs| {
      assert txs[..i] == txs;
    } else {
      OneMoreThrown(w, txs, i);
      TxsThrown(w, txs, i + 1);
    }
  }

  // ---- adding up a scan ----

  ghost function RefsOf(h: string, os: seq<UtxoOut>): set<OutRef> {
    set o | o in os :: RefOf(h, o)
  }

  function WorthIn(os: seq<UtxoOut>, k: BalanceKey): nat {
    if os == [] then 0 else
      var o := os[|os| - 1];
      WorthIn(os[..|os| - 1], k) + if OwnerOf(o.entry) == k then o.entry.value else 0
  }

  function OwnedIn(os: seq<UtxoOut>, k: BalanceKey): seq<UtxoOut> {
    if os == [] then [] else
      var o := os[|os| - 1];
      OwnedIn(os[..|os| - 1], k) + if OwnerOf(o.entry) == k then [o] else []
  }

  lemma {:induction false} OwnedMembers(os: seq<UtxoOut>, k: BalanceKey)
    ensures forall o :: o in OwnedIn(os, k) <==> o in os && OwnerOf(o.entry) == k
  {
    if os != [] {
      OwnedMembers(os[..|os| - 1], k);
      assert os == os[..|os| - 1] + [os[|os| - 1]];
    }
  }

  ghost predicate Distinct(refs: seq<OutRef>) {
    forall i, j :: 0 <= i < j < |refs| ==> refs[i] != refs[j]
  }

  ghost function Members(refs: seq<OutRef>): set<OutRef> {
    set r | r in refs
  }

  lemma MembersSnoc(live: map<OutRef, Entry>, refs: seq<OutRef>, r: OutRef)
    requires r in live && Distinct(refs + [r])
    ensures r !in Restrict(live, Members(refs)) && Distinct(refs)
    ensures Restrict(live, Members(refs + [r])) == Restrict(live, Members(refs))[r := live[r]]
  {
    var all := refs + [r];
    forall i | 0 <= i < |refs| ensures refs[i] != r {
      assert all[i] != all[|refs|];
    }
    forall i, j | 0 <= i < j < |refs| ensures refs[i] != refs[j] {
      assert all[i] != all[j];
    }
  }

  /** `out` carries the entries of `refs`. */
  ghost predicate Carries(live: map<OutRef, Entry>, refs: seq<OutRef>, out: seq<UtxoOut>) {
    |refs| == |out| && forall n :: 0 <= n < |refs| ==> refs[n] in live && out[n].entry == live[refs[n]]
  }

  /** Distinct outputs, added up one by one. */
  lemma {:induction false} ListWorth(live: map<OutRef, Entry>, refs: seq<OutRef>, out: seq<UtxoOut>, k: BalanceKey)
    requires Carries(live, refs, out) && Distinct(refs)
    ensures WorthIn(out, k) == Unspent(Restrict(live, Members(refs)), k)
  {
    if refs == [] {
      assert Restrict(live, Members(refs)) == map[];
    } else {
      var n := |refs| - 1;
      var init, r := refs[..n], refs[n];
      assert refs == init + [r];
      MembersSnoc(live, init, r);
      ListWorth(live, init, out[..n], k);
      TotalUpdate(Restrict(live, Members(init)), Worth(k), r, live[r]);
    }
  }

  /** The positions read for the outputs owned by `k`. */
  lemma ImageOfOwned(
      live: map<OutRef, Entry>, h: string, refs: seq<OutRef>, out: seq<UtxoOut>, k: BalanceKey,
      target: OutRef -> OutRef)
    requires |refs| == |out| && forall n :: 0 <= n < |refs| ==>
      refs[n] in live && out[n].entry == live[refs[n]] && target(refs[n]) == RefOf(h, out[n])
    ensures RefsOf(h, OwnedIn(out, k)) == set r | r in live && r in refs && OwnerOf(live[r]) == k :: target(r)
  {
    OwnedMembers(out, k);
    var image := set r | r in live && r in refs && OwnerOf(live[r]) == k :: target(r);
    forall t | t in image ensures t in RefsOf(h, OwnedIn(out, k)) {
      var r :| r in live && r in refs && OwnerOf(live[r]) == k && target(r) == t;
      var n :| 0 <= n < |refs| && refs[n] == r;
      assert out[n] in OwnedIn(out, k);
    }
    forall t | t in RefsOf(h, OwnedIn(out, k)) ensures t in image {
      var o :| o in OwnedIn(out, k) && RefOf(h, o) == t;
      var n :| 0 <= n < |out| && out[n] == o;
      assert refs[n] in refs;
    }
  }

  lemma ListingReaches(live: map<OutRef, Entry>, h: string, refs: seq<OutRef>, out: seq<UtxoOut>)
    requires Listing(live, h, refs, out)
    ensures forall r :: r in live ==> (r in refs <==> Reaches(h, r))
    ensures forall n :: 0 <= n < |refs| ==> Target(h, refs[n]) == RefOf(h, out[n])
  {
    forall n | 0 <= n < |refs| ensures Reaches(h, refs[n]) {
      KeyIsReadExactly(refs[n], h);
    }
  }

  lemma ScanTargets(live: map<OutRef, Entry>, h: string, refs: seq<OutRef>, out: seq<UtxoOut>, k: BalanceKey)
    requires Listing(live, h, refs, out)
    ensures RefsOf(h, OwnedIn(out, k)) == Targets(live, h, k)
  {
    ListingReaches(live, h, refs, out);
    ImageOfOwned(live, h, refs, out, k, r => Target(h, r));
  }

  lemma ScanSum(live: map<OutRef, Entry>, h: string, refs: seq<OutRef>, out: seq<UtxoOut>, k: BalanceKey)
    requires Listing(live, h, refs, out)
    ensures WorthIn(out, k) == Unspent(Reached(live, h), k)
  {
    ListWorth(live, refs, out, k);
    ListingReaches(live, h, refs, out);
    assert Restrict(live, Members(refs)) == Reached(live, h);
  }

  /** Spending a scan, in terms of the list it returned. */
  lemma SpendListed(b: Books, h: string, refs: seq<OutRef>, out: seq<UtxoOut>, k: BalanceKey)
    requires Listing(b.live, h, refs, out) && !Blocked(b.live, h)
    ensures SpendScan(Walk(b, false), k, h) == Walk(Take(b, k, WorthIn(out, k), RefsOf(h, OwnedIn(out, k))), false)
  {
    ScanSum(b.live, h, refs, out, k);
    ScanTargets(b.live, h, refs, out, k);
    SpendsTake(b, h, k, WorthIn(out, k), RefsOf(h, OwnedIn(out, k)));
  }

  lemma SeenSnoc(ps: seq<Prevout>, p: Prevout, redeem: string)
    ensures Seen(ps + [p], redeem) == Seen(ps, redeem) + if Eligible(p, redeem) then {p} else {}
  {
  }

  /** Past the first `i` references the loop has these books and has seen these prevouts. */
  ghost predicate Went(
      w: Walk, k: BalanceKey, redeem: string, ps: seq<Prevout>, i: nat, now: Books, seen: set<Prevout>)
    requires i <= |ps|
  {
    seen == Seen(ps[..i], redeem) && WalkPrevouts(w, k, redeem, ps[..i]) == Walk(now, false)
  }

  lemma WentNowhere(b: Books, k: BalanceKey, redeem: string, ps: seq<Prevout>)
    ensures Went(Walk(b, false), k, redeem, ps, 0, b, {})
  {
    assert ps[..0] == [];
  }

  lemma WalkSkips(
      w: Walk, k: BalanceKey, redeem: string, ps: seq<Prevout>, i: nat, now: Books, seen: set<Prevout>)
    requires i < |ps| && Went(w, k, redeem, ps, i, now, seen) && (!Eligible(ps[i], redeem) || ps[i] in seen)
    ensures Went(w, k, redeem, ps, i + 1, now, seen)
  {
    SeenSnoc(ps[..i], ps[i], redeem);
    assert ps[..i + 1] == ps[..i] + [ps[i]] && ps[..i + 1][..i] == ps[..i];
  }

  /** A reference is spent; if that throws, the loop ends there. */
  lemma WalkSpends(
      w: Walk, k: BalanceKey, redeem: string, ps: seq<Prevout>, i: nat, now: Books, seen: set<Prevout>, next: Walk)
    requires i < |ps| && Went(w, k, redeem, ps, i, now, seen) && Eligible(ps[i], redeem) && ps[i] !in seen
    requires SpendScan(Walk(now, false), k, ps[i].hash) == next
    ensures if next.thrown then WalkPrevouts(w, k, redeem, ps) == next
      else Went(w, k, redeem, ps, i + 1, next.books, seen + {ps[i]})
  {
    SeenSnoc(ps[..i], ps[i], redeem);
    assert ps[..i + 1] == ps[..i] + [ps[i]] && ps[..i + 1][..i] == ps[..i];
    if next.thrown {
      PrevoutsThrown(w, k, redeem, ps, i + 1);
    }
  }

  lemma WalkOneMoreUtxo(w: Walk, redeem: string, us: seq<Utxo>, i: nat)
    requires i < |us|
    ensures WalkUtxos(w, redeem, us[..i + 1]) == WalkUtxo(WalkUtxos(w, redeem, us[..i]), redeem, us[i])
  {
    assert us[..i + 1][..i] == us[..i];
  }

  // ---- the loops ----

  /** A walk that ended with this store and this result. */
  ghost predicate Ends(
      w: Walk, live: map<OutRef, Entry>, r: Outcome<map<BalanceKey, int>>, lost: map<BalanceKey, int>) {
    w.books.live == live && if w.thrown then r.Thrown? else r == Ok(w.books.deltas) && lost == w.books.lost
  }

  class UtxoProcessor {
    const store: UtxoStore

    constructor (store: UtxoStore)
      ensures this.store == store
    {
      this.store := store;
    }

    /** The signer's outputs among `unspent`, and what they are worth. */
    method CollectSpendable(unspent: seq<UtxoOut>, signer: string, assetType: string)
      returns (sum: nat, toSpend: seq<UtxoOut>)
      ensures sum == WorthIn(unspent, BalanceKey(signer, assetType))
      ensures toSpend == OwnedIn(unspent, BalanceKey(signer, assetType))
    {
      sum, toSpend := 0, [];
      var i := 0;
      while i < |unspent|
        invariant i <= |unspent|
        invariant sum == WorthIn(unspent[..i], BalanceKey(signer, assetType))
        invariant toSpend == OwnedIn(unspent[..i], BalanceKey(signer, assetType))
      {
        var o := unspent[i];
        assert unspent[..i + 1][..i] == unspent[..i];
        if o.entry.addr == signer && o.entry.assetType == assetType {
          sum := sum + o.entry.value;
          toSpend := toSpend + [o];
        }
        i := i + 1;
      }
      assert unspent[..i] == unspent;
    }

    method DeleteAll(h: string, toSpend: seq<UtxoOut>)
      requires store.Valid()
      modifies store
      ensures store.Valid()
      ensures store.contents == old(store.contents) - RefsOf(h, toSpend)
    {
      var j := 0;
      while j < |toSpend|
        invariant j <= |toSpend|
        invariant store.Valid()
        invariant store.contents == old(store.contents) - RefsOf(h, toSpend[..j])
      {
        var o := toSpend[j];
        var found := store.Delete(h, o.utxoI, o.voutJ);
        assert toSpend[..j + 1] == toSpend[..j] + [o];
        assert RefsOf(h, toSpend[..j + 1]) == RefsOf(h, toSpend[..j]) + {RefOf(h, o)};
        j := j + 1;
      }
      assert toSpend[..j] == toSpend;
    }

    /** Scan `h`, and pick out what the signer has there in this asset. */
    method FindSpendable(h: string, signer: string, assetType: string, ghost b: Books)
      returns (thrown: bool, sum: nat, toSpend: seq<UtxoOut>)
      requires store.Valid() && b.live == store.contents
      ensures SpendScan(Walk(b, false), BalanceKey(signer, assetType), h) ==
        if thrown then Walk(b, true)
        else Walk(Take(b, BalanceKey(signer, assetType), sum, RefsOf(h, toSpend)), false)
    {
      var unspent;
      ghost var refs;
      unspent, refs := store.GetUnspentByTx(h);
      if unspent.Thrown? {
        return true, 0, [];
      }
      sum, toSpend := CollectSpendable(unspent.value, signer, assetType);
      SpendListed(b, h, refs, unspent.value, BalanceKey(signer, assetType));
      thrown := false;
    }

    /** A zero sum is passed over; else it becomes a delta and the outputs are deleted. */
    method TakeFound(
        h: string, k: BalanceKey, sum: nat, toSpend: seq<UtxoOut>,
        deltas: map<BalanceKey, int>, ghost lost: map<BalanceKey, int>)
      returns (deltas': map<BalanceKey, int>)
      requires store.Valid()
      modifies store
      ensures store.Valid()
      ensures Books(store.contents, deltas', lost)
           == Take(Books(old(store.contents), deltas, lost), k, sum, RefsOf(h, toSpend))
    {
      if sum == 0 {
        return deltas;
      }
      deltas' := deltas[k := Get(deltas, k) - sum];
      DeleteAll(h, toSpend);
    }

    /** Sum the outputs a scan for `h` reads for the signer, and delete them if they are worth anything. */
    method SpendInput(
        h: string, signer: string, assetType: string, deltas: map<BalanceKey, int>, ghost lost: map<BalanceKey, int>)
      returns (r: Outcome<map<BalanceKey, int>>)
      requires store.Valid()
      modifies store
      ensures store.Valid()
      ensures Ends(SpendScan(Walk(Books(old(store.contents), deltas, lost), false), BalanceKey(signer, assetType), h),
                   store.contents, r, lost)
    {
      var thrown, sum, toSpend := FindSpendable(h, signer, assetType, Books(store.contents, deltas, lost));
      if thrown {
        return Thrown;
      }
      var deltas' := TakeFound(h, BalanceKey(signer, assetType), sum, toSpend, deltas, lost);
      return Ok(deltas');
    }

    /** The loop over the prevouts of one utxo, for its signer. */
    method SpendReferences(
        redeem: string, signer: string, assetType: string, ps: seq<Prevout>,
        deltas: map<BalanceKey, int>, ghost lost: map<BalanceKey, int>)
      returns (r: Outcome<map<BalanceKey, int>>)
      requires store.Valid()
      modifies store
      ensures store.Valid()
      ensures Ends(WalkPrevouts(Walk(Books(old(store.contents), deltas, lost), false),
                                BalanceKey(signer, assetType), redeem, ps), store.contents, r, lost)
    {
      var deltas' := deltas;
      ghost var k, w := BalanceKey(signer, assetType), Walk(Books(store.contents, deltas, lost), false);
      var seen: set<Prevout> := {};
      var i := 0;
      WentNowhere(w.books, k, redeem, ps);
      while i < |ps|
        invariant i <= |ps|
        invariant store.Valid()
        invariant Went(w, k, redeem, ps, i, Books(store.contents, deltas', lost), seen)
      {
        ghost var now := Books(store.contents, deltas', lost);
        var p := ps[i];
        i := i + 1;
        if p.hash == "" || IsGenesisRef(p.hash) {
          WalkSkips(w, k, redeem, ps, i - 1, now, seen);
          continue;
        }
        if redeem != "" && p.hash == redeem && p.n == 1 {
          WalkSkips(w, k, redeem, ps, i - 1, now, seen);
          continue;
        }
        if p in seen {
          WalkSkips(w, k, redeem, ps, i - 1, now, seen);
          continue;
        }
        r := SpendInput(p.hash, signer, assetType, deltas', lost);
        WalkSpends(w, k, redeem, ps, i - 1, now, seen, SpendScan(Walk(now, false), k, p.hash));
        seen := seen + {p};
        if r.Thrown? {
          return;
        }
        deltas' := r.value;
      }
      assert ps[..i] == ps;
      return Ok(deltas');
    }

    /** The input side of one utxo; without a signer it spends nothing. */
    method SpendInputs(redeem: string, u: Utxo, deltas: map<BalanceKey, int>, ghost lost: map<BalanceKey, int>)
      returns (r: Outcome<map<BalanceKey, int>>)
      requires store.Valid()
      modifies store
      ensures store.Valid()
      ensures Ends(WalkUtxo(Walk(Books(old(store.contents), deltas, lost), false), redeem, u), store.contents, r, lost)
    {
      var signer := if u.owner == [] then "" else u.owner[0];
      if signer == "" {
        return Ok(deltas);
      }
      r := SpendReferences(redeem, signer, u.assetType, u.prevouts, deltas, lost);
    }

    /** The input sides of a transaction. */
    method SpendSide(tx: Transaction, deltas: map<BalanceKey, int>, ghost lost: map<BalanceKey, int>)
      returns (r: Outcome<map<BalanceKey, int>>)
      requires store.Valid()
      modifies store
      ensures store.Valid()
      ensures Ends(WalkUtxos(Walk(Books(old(store.contents), deltas, lost), false), RedeemOf(tx), tx.utxos),
                   store.contents, r, lost)
    {
      var deltas' := deltas;
      ghost var w := Walk(Books(store.contents, deltas, lost), false);
      var redeem := if IsRedeemType(tx.ty) then GetRedeemHash(tx) else "";
      var i := 0;
      while i < |tx.utxos|
        invariant i <= |tx.utxos|
        invariant store.Valid()
        invariant WalkUtxos(w, redeem, tx.utxos[..i]) == Walk(Books(store.contents, deltas', lost), false)
      {
        WalkOneMoreUtxo(w, redeem, tx.utxos, i);
        r := SpendInputs(redeem, tx.utxos[i], deltas', lost);
        i := i + 1;
        if r.Thrown? {
          UtxosThrown(w, redeem, tx.utxos, i);
          return;
        }
        deltas' := r.value;
      }
      assert tx.utxos[..i] == tx.utxos;
      return Ok(deltas');
    }

    method CreateOutput(
        ref: OutRef, vo: Vout, assetType: string, deltas: map<BalanceKey, int>, ghost lost: map<BalanceKey, int>)
      returns (deltas': map<BalanceKey, int>, ghost lost': map<BalanceKey, int>)
      requires store.Valid()
      modifies store
      ensures store.Valid()
      ensures Books(store.contents, deltas', lost')
        == CreateOne(Books(old(store.contents), deltas, lost), ref, vo, assetType)
    {
      deltas', lost' := deltas, CreateOne(Books(store.contents, deltas, lost), ref, vo, assetType).lost;
      if IsVirtualAddr(vo.addr) {
        return;
      }
      store.Put(ref.hash, ref.utxoI, ref.voutJ, vo.addr, vo.value, assetType);
      var k := BalanceKey(vo.addr, assetType);
      deltas' := deltas[k := Get(deltas, k) + vo.value];
    }

    /** The outputs of one utxo. */
    method CreateOutputs(
        txHash: string, ui: nat, u: Utxo, deltas: map<BalanceKey, int>, ghost lost: map<BalanceKey, int>)
      returns (deltas': map<BalanceKey, int>, ghost lost': map<BalanceKey, int>)
      requires store.Valid()
      modifies store
      ensures store.Valid()
      ensures Books(store.contents, deltas', lost')
        == CreateUtxo(Books(old(store.contents), deltas, lost), txHash, ui, u)
    {
      deltas', lost' := deltas, lost;
      if u.assetType == "" {
        return;
      }
      ghost var b := Books(store.contents, deltas, lost);
      var vj := 0;
      while vj < |u.vouts|
        invariant vj <= |u.vouts|
        invariant store.Valid()
        invariant Books(store.contents, deltas', lost') == CreateVouts(b, txHash, ui, u, vj)
      {
        deltas', lost' :=
          CreateOutput(OutRef(txHash, ToU32(ui), ToU32(vj)), u.vouts[vj], u.assetType, deltas', lost');
        vj := vj + 1;
      }
    }

    /** The output sides of a transaction. */
    method CreateSide(tx: Transaction, deltas: map<BalanceKey, int>, ghost lost: map<BalanceKey, int>)
      returns (deltas': map<BalanceKey, int>, ghost lost': map<BalanceKey, int>)
      requires store.Valid()
      modifies store
      ensures store.Valid()
      ensures Books(store.contents, deltas', lost')
           == CreateUtxos(Books(old(store.contents), deltas, lost), tx.hash, tx.utxos, |tx.utxos|)
    {
      deltas', lost' := deltas, lost;
      ghost var b := Books(store.contents, deltas, lost);
      var ui := 0;
      while ui < |tx.utxos|
        invariant ui <= |tx.utxos|
        invariant store.Valid()
        invariant Books(store.contents, deltas', lost') == CreateUtxos(b, tx.hash, tx.utxos, ui)
      {
        deltas', lost' := CreateOutputs(tx.hash, ui, tx.utxos[ui], deltas', lost');
        ui := ui + 1;
      }
    }

    method ProcessTransaction(tx: Transaction, deltas: map<BalanceKey, int>, ghost lost: map<BalanceKey, int>)
      returns (r: Outcome<map<BalanceKey, int>>, ghost lost': map<BalanceKey, int>)
      requires store.Valid()
      modifies store
      ensures store.Valid()
      ensures Ends(WalkTx(Walk(Books(old(store.contents), deltas, lost), false), tx), store.contents, r, lost')
    {
      lost' := lost;
      r := SpendSide(tx, deltas, lost);
      if r.Thrown? {
        return;
      }
      var deltas';
      deltas', lost' := CreateSide(tx, r.value, lost);
      r := Ok(deltas');
    }

    /** Once stoul throws in a scan the block is left as far as it came; else the deltas are returned. */
    method ProcessBlock(txs: seq<Transaction>) returns (r: Outcome<map<BalanceKey, int>>)
      requires store.Valid()
      modifies store
      ensures store.Valid()
      ensures var w := WalkAll(old(store.contents), txs);
        store.contents == w.books.live && r == if w.thrown then Thrown else Ok(w.books.deltas)
    {
      var deltas: map<BalanceKey, int> := map[];
      ghost var lost: map<BalanceKey, int> := map[];
      ghost var w := Walk(Books(store.contents, deltas, lost), false);
      var i := 0;
      while i < |txs|
        invariant i <= |txs|
        invariant store.Valid()
        invariant WalkTxs(w, txs[..i]) == Walk(Books(store.contents, deltas, lost), false)
      {
        assert txs[..i + 1][..i] == txs[..i];
        r, lost := ProcessTransaction(txs[i], deltas, lost);
        i := i + 1;
        if r.Thrown? {
          TxsThrown(w, txs, i);
          return;
        }
        deltas := r.value;
      }
      assert txs[..i] == txs;
      return Ok(deltas);
    }
  }
}
