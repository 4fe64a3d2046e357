/**
 The native balance tables. Rows of asset "OHI" live in a table of their own; `Tables` is the
 content of both, and the methods are the source's read-modify-write loops.
 */
module BalanceRepo {
  import opened Wrappers
  import opened Sums
  import opened UtxoBooks

  const OHI: string := "OHI"

  datatype Tables = Tables(ohi: map<string, nat>, assets: map<BalanceKey, nat>)

  function Row(t: Tables, k: BalanceKey): Option<nat> {
    if k.assetType == OHI then
      if k.address in t.ohi then Some(t.ohi[k.address]) else None
    else
      if k in t.assets then Some(t.assets[k]) else None
  }

  function Balance(t: Tables, k: BalanceKey): nat {
    Row(t, k).GetOr(0)
  }

  function SetRow(t: Tables, k: BalanceKey, v: nat): Tables {
    if k.assetType == OHI then t.(ohi := t.ohi[k.address := v]) else t.(assets := t.assets[k := v])
  }

  /** OHI rows are only ever written to their own table. */
  predicate Separated(t: Tables) {
    forall k :: k in t.assets ==> k.assetType != OHI
  }

  /** No key is driven below zero. */
  predicate Affordable(t: Tables, deltas: map<BalanceKey, int>) {
    forall k :: k in deltas ==> 0 <= Balance(t, k) + deltas[k]
  }

  /** `next` is `t` with every delta added to its row, rows being created where there was none. */
  ghost predicate Folded(t: Tables, deltas: map<BalanceKey, int>, next: Tables) {
    forall k :: Row(next, k) == if k in deltas then Some(Balance(t, k) + deltas[k]) else Row(t, k)
  }

  /** The fold after the keys `done` have been written. */
  ghost predicate PartlyFolded(t: Tables, deltas: map<BalanceKey, int>, done: set<BalanceKey>, cur: Tables) {
    forall k {:trigger Row(cur, k)} ::
      Row(cur, k) == (if k in deltas && k in done then Some(Balance(t, k) + deltas[k]) else Row(t, k))
  }

  lemma FoldOne(t: Tables, deltas: map<BalanceKey, int>, done: set<BalanceKey>, cur: Tables, k: BalanceKey)
    requires PartlyFolded(t, deltas, done, cur) && k in deltas && k !in done
    ensures Balance(cur, k) == Balance(t, k)
    ensures 0 <= Balance(cur, k) + deltas[k] ==>
      PartlyFolded(t, deltas, done + {k}, SetRow(cur, k, Balance(cur, k) + deltas[k]))
  {
    assert Row(cur, k) == Row(t, k);
    if 0 <= Balance(cur, k) + deltas[k] {
      var next := SetRow(cur, k, Balance(cur, k) + deltas[k]);
      forall j ensures Row(next, j) == (if j in deltas
        && j in done + {k} then Some(Balance(t, j) + deltas[j]) else Row(t, j)) {
        assert j != k ==> Row(next, j) == Row(cur, j);
      }
    }
  }

  /** The loop's state: the keys of `rest` are still to be folded. */
  ghost predicate Folding(t: Tables, deltas: map<BalanceKey, int>, rest: set<BalanceKey>, cur: Tables) {
    && rest <= deltas.Keys
    && Separated(cur)
    && (forall k :: k in deltas && k !in rest ==> 0 <= Balance(t, k) + deltas[k])
    && PartlyFolded(t, deltas, deltas.Keys - rest, cur)
  }

  lemma FoldStep(t: Tables, deltas: map<BalanceKey, int>, rest: set<BalanceKey>, cur: Tables, k: BalanceKey)
    requires Folding(t, deltas, rest, cur) && k in rest
    ensures if 0 <= Balance(cur, k) + deltas[k]
      then Folding(t, deltas, rest - {k}, SetRow(cur, k, Balance(cur, k) + deltas[k]))
      else !Affordable(t, deltas)
  {
    FoldOne(t, deltas, deltas.Keys - rest, cur, k);
    assert deltas.Keys - (rest - {k}) == deltas.Keys - rest + {k};
  }

  lemma FoldEnds(t: Tables, deltas: map<BalanceKey, int>, cur: Tables)
    requires Folding(t, deltas, {}, cur)
    ensures Affordable(t, deltas) && Folded(t, deltas, cur)
  {
    forall k ensures Row(cur, k) == if k in deltas then Some(Balance(t, k) + deltas[k]) else Row(t, k) {
      assert k in deltas ==> k in deltas.Keys - {};
    }
  }

  /** Rows determine the tables, so folding has one result whatever order the deltas are taken in. */
  lemma FoldedUnique(t: Tables, deltas: map<BalanceKey, int>, a: Tables, b: Tables)
    requires Separated(a) && Separated(b)
    requires Affordable(t, deltas) && Folded(t, deltas, a) && Folded(t, deltas, b)
    ensures a == b
  {
    forall addr | addr in a.ohi || addr in b.ohi ensures addr in a.ohi && addr in b.ohi && a.ohi[addr] == b.ohi[addr] {
      assert Row(a, BalanceKey(addr, OHI)) == Row(b, BalanceKey(addr, OHI));
    }
    forall k | k in a.assets || k in b.assets ensures k in a.assets && k in b.assets && a.assets[k] == b.assets[k] {
      assert Row(a, k) == Row(b, k);
    }
    assert a.ohi == b.ohi && a.assets == b.assets;
  }

  /** `v` plus the delta, or no row at all. */
  function Added(v: Option<nat>, deltas: map<BalanceKey, int>, k: BalanceKey): Option<int> {
    if k in deltas then Some(v.GetOr(0) + deltas[k])
    else if v.Some? then Some(v.value) else None
  }

  function Lookup<K, V>(m: map<K, V>, k: K): Option<V> {
    if k in m then Some(m[k]) else None
  }

  /** Deltas of "OHI" go to the table by address. */
  ghost predicate OhiFolded(t: Tables, deltas: map<BalanceKey, int>, next: Tables) {
    forall a :: Lookup(next.ohi, a) == Added(Lookup(t.ohi, a), deltas, BalanceKey(a, "OHI"))
  }

  /** All others go to the table by address and asset. */
  ghost predicate AssetsFolded(t: Tables, deltas: map<BalanceKey, int>, next: Tables) {
    forall k: BalanceKey :: k.assetType != "OHI" ==> Lookup(next.assets, k) == Added(Lookup(t.assets, k), deltas, k)
  }

  lemma RowFolded(t: Tables, deltas: map<BalanceKey, int>, next: Tables, k: BalanceKey)
    ensures (Row(next, k) == if k in deltas then Some(Balance(t, k) + deltas[k]) else Row(t, k)) <==>
      if k.assetType == "OHI" then Lookup(next.ohi, k.address) == Added(Lookup(t.ohi, k.address), deltas, k)
      else Lookup(next.assets, k) == Added(Lookup(t.assets, k), deltas, k)
  {
  }

  /** Folding is adding each delta in the table of its asset. */
  lemma FoldedExactly(t: Tables, deltas: map<BalanceKey, int>, next: Tables)
    ensures Folded(t, deltas, next) <==> OhiFolded(t, deltas, next) && AssetsFolded(t, deltas, next)
  {
    forall k ensures (Row(next, k) == if k in deltas then Some(Balance(t, k) + deltas[k]) else Row(t, k)) <==>
      if k.assetType == "OHI" then Lookup(next.ohi, k.address) == Added(Lookup(t.ohi, k.address), deltas, k)
      else Lookup(next.assets, k) == Added(Lookup(t.assets, k), deltas, k)
    {
      RowFolded(t, deltas, next, k);
    }
    if Folded(t, deltas, next) {
      forall a ensures Lookup(next.ohi, a) == Added(Lookup(t.ohi, a), deltas, BalanceKey(a, "OHI")) {
        RowFolded(t, deltas, next, BalanceKey(a, "OHI"));
      }
    }
    if OhiFolded(t, deltas, next) && AssetsFolded(t, deltas, next) {
      forall k ensures Row(next, k) == if k in deltas then Some(Balance(t, k) + deltas[k]) else Row(t, k) {
        RowFolded(t, deltas, next, k);
        assert k.assetType == "OHI" ==> k == BalanceKey(k.address, "OHI");
      }
    }
  }

  /** The rows a TotalBalance query selects: all of them for "", one table or one asset otherwise. */
  ghost function RowsTotal(t: Tables, assetType: string): int {
    (if assetType == "" || assetType == OHI then Total(t.ohi, OhiValue()) else 0)
    + (if assetType == OHI then 0 else Total(t.assets, AssetValue(assetType)))
  }

  ghost function OhiValue(): (string, nat) -> int {
    (a, v) => v
  }

  ghost function AssetValue(assetType: string): (BalanceKey, nat) -> int {
    (k: BalanceKey, v: nat) => if assetType == "" || k.assetType == assetType then v else 0
  }

  /** A new row counts for its own asset and for "". */
  lemma TotalAdds(t: Tables, k: BalanceKey, v: nat, assetType: string)
    requires Row(t, k).None?
    ensures RowsTotal(Tables(map[], map[]), assetType) == 0
    ensures RowsTotal(SetRow(t, k, v), assetType)
         == RowsTotal(t, assetType) + if assetType == "" || assetType == k.assetType then v else 0
  {
    TotalUpdate(t.ohi, OhiValue(), k.address, v);
    TotalUpdate(t.assets, AssetValue(assetType), k, v);
  }

  class BalanceRepo {
    var ohi: map<string, nat>
    var assets: map<BalanceKey, nat>

    constructor ()
      ensures Content() == Tables(map[], map[])
    {
      ohi := map[];
      assets := map[];
    }

    function Content(): Tables
      reads this
    {
      Tables(ohi, assets)
    }

    method Write(k: BalanceKey, v: nat)
      modifies this
      ensures Content() == SetRow(old(Content()), k, v)
    {
      if k.assetType == OHI {
        ohi := ohi[k.address := v];
      } else {
        assets := assets[k := v];
      }
    }

    /**
     One transaction over the whole delta map, in whatever order the hash map iterates. It throws
     exactly when some key would go below zero, and then nothing is written.
     */
    method ApplyDeltas(deltas: map<BalanceKey, int>) returns (r: Outcome<()>)
      requires Separated(Content())
      modifies this
      ensures Separated(Content())
      ensures r.Ok? <==> Affordable(old(Content()), deltas)
      ensures r.Ok? ==> Folded(old(Content()), deltas, Content())
      ensures r.Thrown? ==> Content() == old(Content())
    {
      if deltas == map[] {
        return Ok(());
      }
      var savedOhi, savedAssets := ohi, assets;
      ghost var before := Content();
      var rest := deltas.Keys;
      while rest != {}
        invariant Folding(before, deltas, rest, Content())
        decreases |rest|
      {
        var k :| k in rest;
        FoldStep(before, deltas, rest, Content(), k);
        var next := Balance(Content(), k) + deltas[k];
        if next < 0 {
          ohi, assets := savedOhi, savedAssets;
          return Thrown;
        }
        Write(k, next);
        rest := rest - {k};
      }
      FoldEnds(before, deltas, Content());
      return Ok(());
    }

    /** Add up the selected rows with a cursor. */
    method TotalBalance(assetType: string) returns (total: nat)
      ensures total == RowsTotal(Content(), assetType)
    {
      total := 0;
      if assetType == "" || assetType == OHI {
        var rest := ohi;
        while rest != map[]
          invariant total + Total(rest, OhiValue()) == Total(ohi, OhiValue())
          decreases |rest|
        {
          var a :| a in rest;
          TotalRemove(rest, OhiValue(), a);
          total := total + rest[a];
          rest := rest - {a};
        }
      }
      if assetType == OHI {
        return;
      }
      ghost var sofar := total;
      var rest := assets;
      while rest != map[]
        invariant total + Total(rest, AssetValue(assetType)) == sofar + Total(assets, AssetValue(assetType))
        decreases |rest|
      {
        var k :| k in rest;
        TotalRemove(rest, AssetValue(assetType), k);
        if assetType == "" || k.assetType == assetType {
          total := total + rest[k];
        }
        rest := rest - {k};
      }
    }
  }
}
