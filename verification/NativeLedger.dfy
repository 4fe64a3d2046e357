/**
 The balance tables are a materialised view of the unspent set: laws of whole runs of blocks.
 */
module NativeLedger {
  import opened Wrappers
  import opened Sums
  import opened Chain
  import opened UtxoStore
  import opened UtxoBooks
  import opened DeltaLaws
  import opened TransactionLaws
  import opened BalanceRepo

  /** The unspent store together with the balance tables. */
  datatype Ledger = Ledger(live: map<OutRef, Entry>, tables: Tables)

  const EMPTY: Ledger := Ledger(map[], Tables(map[], map[]))

  /** Every balance is the sum of the key's unspent outputs. */
  ghost predicate ViewHolds(s: Ledger) {
    Separated(s.tables) && forall k :: Balance(s.tables, k) == Unspent(s.live, k)
  }

  /**
   One ParseAndStore as the native ledger sees it: the store moves, then the tables fold the deltas,
   or stay as they were when the fold throws.
   */
  ghost predicate Next(s: Ledger, txs: seq<Transaction>, s': Ledger) {
    var b := ProcessAll(s.live, txs);
    && s'.live == b.live
    && Separated(s'.tables)
    && if Affordable(s.tables, b.deltas) then Folded(s.tables, b.deltas, s'.tables) else s'.tables == s.tables
  }

  /** Every balance is at least the sum of the key's unspent outputs. */
  ghost predicate Covered(s: Ledger) {
    Separated(s.tables) && forall k :: Balance(s.tables, k) >= Unspent(s.live, k)
  }

  /** How far a balance is above the unspent sum. */
  ghost function Excess(s: Ledger, k: BalanceKey): int {
    Balance(s.tables, k) - Unspent(s.live, k)
  }

  // ---- what is lost is never negative ----

  lemma ReplacedNonNegative(live: map<OutRef, Entry>, txs: seq<Transaction>, k: BalanceKey)
    ensures 0 <= Replaced(live, txs, k)
  {
    ProcessTxsLost(Books(live, map[], map[]), txs, k);
  }

  lemma {:induction false} CreateVoutsLost(b: Books, txHash: string, ui: nat, u: Utxo, n: nat, k: BalanceKey)
    requires n <= |u.vouts|
    ensures Get(b.lost, k) <= Get(CreateVouts(b, txHash, ui, u, n).lost, k)
  {
    if n > 0 {
      CreateVoutsLost(b, txHash, ui, u, n - 1, k);
    }
  }

  lemma {:induction false} CreateUtxosLost(b: Books, txHash: string, us: seq<Utxo>, n: nat, k: BalanceKey)
    requires n <= |us|
    ensures Get(b.lost, k) <= Get(CreateUtxos(b, txHash, us, n).lost, k)
  {
    if n > 0 {
      CreateUtxosLost(b, txHash, us, n - 1, k);
      CreateVoutsLost(CreateUtxos(b, txHash, us, n - 1), txHash, n - 1, us[n - 1], |us[n - 1].vouts|, k);
    }
  }

  lemma {:induction false} ProcessTxsLost(b: Books, txs: seq<Transaction>, k: BalanceKey)
    ensures Get(b.lost, k) <= Get(ProcessTxs(b, txs).lost, k)
  {
    if txs != [] {
      var init, tx := txs[..|txs| - 1], txs[|txs| - 1];
      ProcessTxsLost(b, init, k);
      var before := ProcessTxs(b, init);
      SpendUtxosRemoves(before, RedeemOf(tx), tx.utxos);
      CreateUtxosLost(SpendUtxos(before, RedeemOf(tx), tx.utxos), tx.hash, tx.utxos, |tx.utxos|, k);
    }
  }

  // ---- one block ----

  /** From a covered state no block can overdraw a balance, so the negative-balance throw is unreachable. */
  lemma NeverNegative(s: Ledger, txs: seq<Transaction>)
    requires Covered(s)
    ensures Affordable(s.tables, ProcessAll(s.live, txs).deltas)
  {
    var b := ProcessAll(s.live, txs);
    forall k | k in b.deltas ensures 0 <= Balance(s.tables, k) + b.deltas[k] {
      DeltasAreDifference(s.live, txs, k);
      UnspentNonNegative(b.live, k);
      ReplacedNonNegative(s.live, txs, k);
    }
  }

  /** A block adds to each excess exactly the value of what it overwrites. */
  lemma ExcessGrows(s: Ledger, txs: seq<Transaction>, s': Ledger, k: BalanceKey)
    requires Covered(s) && Next(s, txs, s')
    ensures Excess(s', k) == Excess(s, k) + Replaced(s.live, txs, k)
  {
    NeverNegative(s, txs);
    DeltasAreDifference(s.live, txs, k);
    var deltas := ProcessAll(s.live, txs).deltas;
    assert Row(s'.tables, k) == if k in deltas then Some(Balance(s.tables, k) + deltas[k]) else Row(s.tables, k);
  }

  lemma StaysCovered(s: Ledger, txs: seq<Transaction>, s': Ledger)
    requires Covered(s) && Next(s, txs, s')
    ensures Covered(s')
  {
    forall k ensures Balance(s'.tables, k) >= Unspent(s'.live, k) {
      ExcessGrows(s, txs, s', k);
      ReplacedNonNegative(s.live, txs, k);
    }
  }

  /** Some balance moves further above its unspent sum. */
  ghost predicate Drifts(s: Ledger, s': Ledger) {
    exists k :: Excess(s', k) > Excess(s, k)
  }

  lemma MovesApart(s: Ledger, s': Ledger, amount: BalanceKey -> int)
    requires forall k :: 0 <= amount(k) && Excess(s', k) == Excess(s, k) + amount(k)
    ensures Drifts(s, s') <==> NonZero(amount)
  {
    if NonZero(amount) {
      var k :| amount(k) != 0;
      assert Excess(s', k) > Excess(s, k);
    }
    if Drifts(s, s') {
      var k :| Excess(s', k) > Excess(s, k);
      assert amount(k) != 0;
    }
  }

  /** From a covered state a block drifts exactly when one of its transactions overwrites something of value. */
  lemma DriftsExactly(s: Ledger, txs: seq<Transaction>, s': Ledger)
    requires Covered(s) && Next(s, txs, s') && NoWraps(txs)
    ensures Drifts(s, s') <==> BlockOverwrites(s.live, txs)
  {
    ReplacedExactly(s.live, txs);
    forall k ensures Excess(s', k) == Excess(s, k) + ReplacedBy(s.live, txs)(k) {
      ExcessGrows(s, txs, s', k);
    }
    MovesApart(s, s', ReplacedBy(s.live, txs));
  }

  lemma ViewIsNoExcess(s: Ledger, excess: BalanceKey -> int)
    requires Separated(s.tables) && forall k :: Excess(s, k) == excess(k)
    ensures ViewHolds(s) <==> !NonZero(excess)
  {
    forall k ensures Balance(s.tables, k) == Unspent(s.live, k) <==> excess(k) == 0 {
      assert Excess(s, k) == excess(k);
    }
    if NonZero(excess) {
      var k :| excess(k) != 0;
      assert Balance(s.tables, k) != Unspent(s.live, k);
    }
  }

  /**
   The exact condition, on the unspent set and the block: a block keeps the view if and only if none of its
   transactions puts an output over a live one of some value.
   */
  lemma ViewKeptExactly(s: Ledger, txs: seq<Transaction>, s': Ledger)
    requires ViewHolds(s) && Next(s, txs, s') && NoWraps(txs)
    ensures ViewHolds(s') <==> !BlockOverwrites(s.live, txs)
  {
    ReplacedExactly(s.live, txs);
    forall k ensures Excess(s', k) == ReplacedBy(s.live, txs)(k) {
      assert Excess(s, k) == 0;
      ExcessGrows(s, txs, s', k);
    }
    ViewIsNoExcess(s', ReplacedBy(s.live, txs));
  }

  // ---- a repeated transaction hash breaks the view ----

  const REPEATED_TX: Transaction :=
    Transaction("ab", "", 0, 1, [Utxo([], [], [Vout(5, "A")], "OHI")], None)

  /** Two transactions of one hash: both outputs reach the balance, one of them survives in the store. */
  lemma RepeatedHashBreaksView(s': Ledger)
    requires Next(EMPTY, [REPEATED_TX, REPEATED_TX], s')
    ensures Balance(s'.tables, BalanceKey("A", "OHI")) == 10 && Unspent(s'.live, BalanceKey("A", "OHI")) == 5
  {
    var k, r, e := BalanceKey("A", "OHI"), OutRef("ab", 0, 0), Entry("A", 5, "OHI");
    var tx := REPEATED_TX;
    var txs := [tx, tx];
    var b0 := Books(map[], map[], map[]);
    var b1 := Books(map[r := e], map[k := 5], map[]);
    var b2 := Books(map[r := e], map[k := 10], map[k := 5]);
    OneOutput(b0);
    OneOutput(b1);
    assert txs[..1] == [tx] && [tx][..0] == [];
    assert ProcessTxs(b0, []) == b0;
    assert ProcessTxs(b0, [tx]) == ProcessTx(b0, tx) == b1;
    assert ProcessTxs(b0, txs) == ProcessTx(b1, tx);
    assert map[r := e][r := e] == map[r := e];
    assert ProcessTx(b1, tx) == b2;
    EmptyView();
    NeverNegative(EMPTY, txs);
    TotalUpdate(map[], Worth(k), r, e);
    assert map[][r := e] == map[r := e];
    assert Row(s'.tables, k) == Some(Balance(EMPTY.tables, k) + b2.deltas[k]);
  }

  lemma OneOutput(b: Books)
    ensures ProcessTx(b, REPEATED_TX) == CreateOne(b, OutRef("ab", 0, 0), Vout(5, "A"), "OHI")
  {
    var tx := REPEATED_TX;
    var u := tx.utxos[0];
    assert SpendUtxos(b, "", tx.utxos) == b by {
      assert tx.utxos[..0] == [];
      assert SpendUtxos(b, "", []) == b;
    }
    assert CreateUtxos(b, "ab", tx.utxos, 0) == b;
    assert CreateVouts(b, "ab", 0, u, 0) == b;
    assert CreateUtxos(b, "ab", tx.utxos, 1) == CreateVouts(b, "ab", 0, u, 1);
  }

  lemma EmptyView()
    ensures ViewHolds(EMPTY)
  {
  }

  // ---- runs ----

  /** `run[0]` is empty and each block of `blocks` leads to the next state. */
  ghost predicate IsRun(run: seq<Ledger>, blocks: seq<seq<Transaction>>) {
    && |run| == |blocks| + 1
    && run[0] == EMPTY
    && forall i :: 0 <= i < |blocks| ==> Next(run[i], blocks[i], run[i + 1])
  }

  /** No transaction hash occurs twice in the chain, and no index wraps. */
  ghost predicate DistinctHashes(blocks: seq<seq<Transaction>>) {
    && (forall b, i :: 0 <= b < |blocks| && 0 <= i < |blocks[b]| ==> NoIndexWrap(blocks[b][i]))
    && (forall b, i, c, j ::
          0 <= b < |blocks| && 0 <= i < |blocks[b]| && 0 <= c < |blocks| && 0 <= j < |blocks[c]| && (b, i) != (c, j) ==>
            blocks[b][i].hash != blocks[c][j].hash)
  }

  /** Every live output was created by a transaction of the first `n` blocks. */
  ghost predicate CreatedBy(live: map<OutRef, Entry>, blocks: seq<seq<Transaction>>, n: nat)
    requires n <= |blocks|
  {
    forall r :: r in live ==> exists b, i :: 0 <= b < n && 0 <= i < |blocks[b]| && blocks[b][i].hash == r.hash
  }

  lemma FreshAt(live: map<OutRef, Entry>, blocks: seq<seq<Transaction>>, n: nat)
    requires n < |blocks| && DistinctHashes(blocks) && CreatedBy(live, blocks, n)
    ensures FreshBlock(live, blocks[n])
    ensures CreatedBy(ProcessAll(live, blocks[n]).live, blocks, n + 1)
  {
    forall r, j | r in live && 0 <= j < |blocks[n]| ensures r.hash != blocks[n][j].hash {
      var b, i :| 0 <= b < n && 0 <= i < |blocks[b]| && blocks[b][i].hash == r.hash;
      assert (b, i) != (n, j);
    }
    forall i, j | 0 <= i < j < |blocks[n]| ensures blocks[n][i].hash != blocks[n][j].hash {
      assert (n, i) != (n, j);
    }
    ProcessTxsFresh(Books(live, map[], map[]), blocks[n]);
  }

  lemma {:induction false} RunIsCovered(run: seq<Ledger>, blocks: seq<seq<Transaction>>, n: nat)
    requires IsRun(run, blocks) && n <= |blocks|
    ensures Covered(run[n])
  {
    if n == 0 {
      EmptyView();
    } else {
      var i := n - 1;
      RunIsCovered(run, blocks, i);
      assert Next(run[i], blocks[i], run[i + 1]);
      StaysCovered(run[i], blocks[i], run[n]);
    }
  }

  ghost function SumAt(amounts: seq<BalanceKey -> int>, k: BalanceKey): int {
    if amounts == [] then 0 else SumAt(amounts[..|amounts| - 1], k) + amounts[|amounts| - 1](k)
  }

  /** What each of the first `n` blocks overwrote. */
  ghost function Amounts(run: seq<Ledger>, blocks: seq<seq<Transaction>>, n: nat): seq<BalanceKey -> int>
    requires n <= |blocks| < |run|
  {
    seq(n, i requires 0 <= i < n => ReplacedBy(run[i].live, blocks[i]))
  }

  /** The value of `k`'s outputs that the first `n` blocks overwrote. */
  ghost function ReplacedSoFar(run: seq<Ledger>, blocks: seq<seq<Transaction>>, n: nat, k: BalanceKey): int
    requires n <= |blocks| < |run|
  {
    SumAt(Amounts(run, blocks, n), k)
  }

  lemma ReplacedSoFarStep(run: seq<Ledger>, blocks: seq<seq<Transaction>>, i: nat, k: BalanceKey)
    requires i < |blocks| < |run|
    ensures ReplacedSoFar(run, blocks, i + 1, k)
      == ReplacedSoFar(run, blocks, i, k) + Replaced(run[i].live, blocks[i], k)
  {
    assert Amounts(run, blocks, i + 1)[..i] == Amounts(run, blocks, i);
  }

  /**
   The main invariant, over every run of any blocks, repeated ones included: each balance is the sum of the
   unspent outputs plus the value of what was overwritten, and the next block never overdraws it.
   */
  lemma {:induction false} DriftOverRun(run: seq<Ledger>, blocks: seq<seq<Transaction>>, n: nat, k: BalanceKey)
    requires IsRun(run, blocks) && n <= |blocks|
    ensures Balance(run[n].tables, k) == Unspent(run[n].live, k) + ReplacedSoFar(run, blocks, n, k)
    ensures 0 <= ReplacedSoFar(run, blocks, n, k)
    ensures n < |blocks| ==> Affordable(run[n].tables, ProcessAll(run[n].live, blocks[n]).deltas)
  {
    RunIsCovered(run, blocks, n);
    if n < |blocks| {
      NeverNegative(run[n], blocks[n]);
    }
    if n == 0 {
      assert Unspent(run[0].live, k) == 0;
    } else {
      var i := n - 1;
      DriftOverRun(run, blocks, i, k);
      RunIsCovered(run, blocks, i);
      assert Next(run[i], blocks[i], run[i + 1]);
      ExcessGrows(run[i], blocks[i], run[n], k);
      ReplacedNonNegative(run[i].live, blocks[i], k);
      ReplacedSoFarStep(run, blocks, i, k);
    }
  }

  // ---- when the view holds ----

  predicate NoWrapsIn(blocks: seq<seq<Transaction>>) {
    forall b :: 0 <= b < |blocks| ==> NoWraps(blocks[b])
  }

  /** One of the first `n` blocks overwrote something of value. */
  ghost predicate RunOverwrites(run: seq<Ledger>, blocks: seq<seq<Transaction>>, n: nat)
    requires n <= |blocks| < |run|
  {
    exists i :: 0 <= i < n && BlockOverwrites(run[i].live, blocks[i])
  }

  ghost function SumOf(amounts: seq<BalanceKey -> int>): BalanceKey -> int {
    k => SumAt(amounts, k)
  }

  lemma {:induction false} SumNonZeroExactly(amounts: seq<BalanceKey -> int>)
    requires forall i, k :: 0 <= i < |amounts| ==> 0 <= amounts[i](k)
    ensures forall k :: 0 <= SumAt(amounts, k)
    ensures NonZero(SumOf(amounts)) <==> exists i :: 0 <= i < |amounts| && NonZero(amounts[i])
  {
    if amounts != [] {
      var n := |amounts| - 1;
      var init, last := amounts[..n], amounts[n];
      SumNonZeroExactly(init);
      SumNonZero(SumOf(init), last, SumOf(amounts));
      if i :| 0 <= i < n && NonZero(amounts[i]) {
        assert NonZero(init[i]);
      }
      if i :| 0 <= i < n && NonZero(init[i]) {
        assert NonZero(amounts[i]);
      }
    }
  }

  lemma SoFarExactly(run: seq<Ledger>, blocks: seq<seq<Transaction>>, n: nat)
    requires n <= |blocks| < |run| && NoWrapsIn(blocks)
    ensures RunOverwrites(run, blocks, n) <==> NonZero(SumOf(Amounts(run, blocks, n)))
  {
    var amounts := Amounts(run, blocks, n);
    forall i | 0 <= i < n
      ensures (forall k :: 0 <= amounts[i](k)) && (BlockOverwrites(run[i].live, blocks[i]) <==> NonZero(amounts[i]))
    {
      ReplacedExactly(run[i].live, blocks[i]);
    }
    SumNonZeroExactly(amounts);
  }

  /**
   Over every run the view holds after a block if and only if no transaction so far put an output over a
   live one of some value.
   */
  lemma ViewOverRun(run: seq<Ledger>, blocks: seq<seq<Transaction>>, n: nat)
    requires IsRun(run, blocks) && NoWrapsIn(blocks) && n <= |blocks|
    ensures ViewHolds(run[n]) <==> !RunOverwrites(run, blocks, n)
  {
    RunIsCovered(run, blocks, n);
    SoFarExactly(run, blocks, n);
    forall k ensures Excess(run[n], k) == SumOf(Amounts(run, blocks, n))(k) {
      DriftOverRun(run, blocks, n, k);
    }
    ViewIsNoExcess(run[n], SumOf(Amounts(run, blocks, n)));
  }

  lemma DistinctNextBlock(s: Ledger, blocks: seq<seq<Transaction>>, n: nat, s': Ledger)
    requires n < |blocks| && DistinctHashes(blocks) && Next(s, blocks[n], s')
    requires ViewHolds(s) && CreatedBy(s.live, blocks, n)
    ensures ViewHolds(s') && CreatedBy(s'.live, blocks, n + 1)
  {
    FreshAt(s.live, blocks, n);
    forall k ensures Balance(s'.tables, k) == Unspent(s'.live, k) {
      assert Excess(s, k) == 0;
      ExcessGrows(s, blocks[n], s', k);
      FreshDeltas(s.live, blocks[n], k);
    }
  }

  /** In particular: over every run of blocks with distinct transaction hashes the view always holds. */
  lemma {:induction false} DistinctHashesKeepView(run: seq<Ledger>, blocks: seq<seq<Transaction>>, n: nat)
    requires IsRun(run, blocks) && DistinctHashes(blocks) && n <= |blocks|
    ensures ViewHolds(run[n]) && CreatedBy(run[n].live, blocks, n)
  {
    if n == 0 {
      EmptyView();
    } else {
      var i := n - 1;
      DistinctHashesKeepView(run, blocks, i);
      assert Next(run[i], blocks[i], run[i + 1]);
      DistinctNextBlock(run[i], blocks, i, run[n]);
    }
  }

  // ---- supply ----

  /** What an output contributes to the supply of an asset; "" stands for all assets. */
  ghost function SupplyWorth(assetType: string): (OutRef, Entry) -> int {
    (r: OutRef, e: Entry) => if assetType == "" || e.assetType == assetType then e.value else 0
  }

  ghost function Supply(live: map<OutRef, Entry>, assetType: string): int {
    Total(live, SupplyWorth(assetType))
  }

  /** Without a row a key owns nothing of value. */
  lemma NoRowNoValue(s: Ledger, r: OutRef)
    requires Covered(s) && r in s.live && Row(s.tables, OwnerOf(s.live[r])).None?
    ensures s.live[r].value == 0
  {
    var k := OwnerOf(s.live[r]);
    assert Balance(s.tables, k) >= Unspent(s.live, k);
    TotalAtLeast(s.live, Worth(k), r);
    assert Worth(k)(r, s.live[r]) == s.live[r].value;
  }

  ghost function AddressOf(): (OutRef, Entry) -> string {
    (r: OutRef, e: Entry) => e.addr
  }

  ghost function KeyOwner(): (OutRef, Entry) -> BalanceKey {
    (r: OutRef, e: Entry) => OwnerOf(e)
  }

  ghost function SelectedAssets(assetType: string): (OutRef, Entry) -> int {
    (r: OutRef, e: Entry) => if e.assetType != OHI && (assetType == "" || e.assetType == assetType) then e.value else 0
  }

  /** What each OHI row should hold, and how far it is above that. */
  ghost function OhiUnspent(live: map<OutRef, Entry>): (string, nat) -> int {
    (a: string, v: nat) => Unspent(live, BalanceKey(a, OHI))
  }

  ghost function OhiExcess(live: map<OutRef, Entry>): (string, nat) -> int {
    (a: string, v: nat) => v - Unspent(live, BalanceKey(a, OHI))
  }

  /** The same for the rows of the other table that a query selects. */
  ghost function AssetUnspent(live: map<OutRef, Entry>, assetType: string): (BalanceKey, nat) -> int {
    (k: BalanceKey, v: nat) => if assetType == "" || k.assetType == assetType then Unspent(live, k) else 0
  }

  ghost function AssetExcess(live: map<OutRef, Entry>, assetType: string): (BalanceKey, nat) -> int {
    (k: BalanceKey, v: nat) => if assetType == "" || k.assetType == assetType then v - Unspent(live, k) else 0
  }

  lemma OhiTableTotal(s: Ledger)
    requires Covered(s)
    ensures Total(s.tables.ohi, OhiValue()) == Supply(s.live, OHI) + Total(s.tables.ohi, OhiExcess(s.live))
  {
    var rows, w := s.tables.ohi, SupplyWorth(OHI);
    forall a | a in rows ensures OhiUnspent(s.live)(a, rows[a]) == Total(s.live, Fibre(AddressOf(), w, a)) {
      TotalCongruent(s.live, Fibre(AddressOf(), w, a), Worth(BalanceKey(a, OHI)));
    }
    TotalRegroup(s.live, AddressOf(), w, rows, OhiUnspent(s.live));
    forall r | r in s.live ensures Fibres(AddressOf(), w, rows.Keys)(r, s.live[r]) == w(r, s.live[r]) {
      if s.live[r].assetType == OHI && s.live[r].addr !in rows {
        NoRowNoValue(s, r);
      }
    }
    TotalCongruent(s.live, Fibres(AddressOf(), w, rows.Keys), w);
    TotalLinear(rows, OhiValue(), OhiUnspent(s.live), OhiExcess(s.live));
  }

  lemma AssetTableTotal(s: Ledger, assetType: string)
    requires Covered(s)
    ensures Total(s.tables.assets, AssetValue(assetType))
         == Total(s.live, SelectedAssets(assetType)) + Total(s.tables.assets, AssetExcess(s.live, assetType))
  {
    var rows, w := s.tables.assets, SelectedAssets(assetType);
    forall k | k in rows ensures AssetUnspent(s.live, assetType)(k, rows[k]) == Total(s.live, Fibre(KeyOwner(), w, k)) {
      if assetType == "" || k.assetType == assetType {
        TotalCongruent(s.live, Fibre(KeyOwner(), w, k), Worth(k));
      } else {
        TotalZero(s.live, Fibre(KeyOwner(), w, k));
      }
    }
    TotalRegroup(s.live, KeyOwner(), w, rows, AssetUnspent(s.live, assetType));
    forall r | r in s.live ensures Fibres(KeyOwner(), w, rows.Keys)(r, s.live[r]) == w(r, s.live[r]) {
      if s.live[r].assetType != OHI && OwnerOf(s.live[r]) !in rows {
        NoRowNoValue(s, r);
      }
    }
    TotalCongruent(s.live, Fibres(KeyOwner(), w, rows.Keys), w);
    TotalLinear(rows, AssetValue(assetType), AssetUnspent(s.live, assetType), AssetExcess(s.live, assetType));
  }

  /** A sum of non-negative terms is zero only if every term is. */
  lemma ZeroSum<K, V>(m: map<K, V>, w: (K, V) -> int)
    requires forall k :: k in m ==> 0 <= w(k, m[k])
    ensures 0 <= Total(m, w) && (Total(m, w) == 0 <==> forall k :: k in m ==> w(k, m[k]) == 0)
  {
    TotalNonNegative(m, w);
    if forall k :: k in m ==> w(k, m[k]) == 0 {
      TotalZero(m, w);
    } else {
      var k :| k in m && w(k, m[k]) != 0;
      TotalAtLeast(m, w, k);
    }
  }

  predicate Selects(assetType: string, k: BalanceKey) {
    assetType == "" || k.assetType == assetType
  }

  lemma OhiExcessExactly(s: Ledger)
    requires Covered(s)
    ensures 0 <= Total(s.tables.ohi, OhiExcess(s.live))
    ensures Total(s.tables.ohi, OhiExcess(s.live)) == 0 <==> forall k: BalanceKey :: k.assetType == OHI ==>
      Excess(s, k) == 0
  {
    var rows, w := s.tables.ohi, OhiExcess(s.live);
    forall a | a in rows ensures w(a, rows[a]) == Excess(s, BalanceKey(a, OHI)) >= 0 {
      assert Balance(s.tables, BalanceKey(a, OHI)) >= Unspent(s.live, BalanceKey(a, OHI));
    }
    ZeroSum(rows, w);
    forall k: BalanceKey | k.assetType == OHI && k.address !in rows ensures Excess(s, k) == 0 {
      NoRowNoExcess(s, k);
    }
  }

  lemma NoRowNoExcess(s: Ledger, k: BalanceKey)
    requires Covered(s) && Row(s.tables, k).None?
    ensures Excess(s, k) == 0
  {
    assert Balance(s.tables, k) >= Unspent(s.live, k);
    UnspentNonNegative(s.live, k);
  }

  lemma AssetExcessExactly(s: Ledger, assetType: string)
    requires Covered(s)
    ensures 0 <= Total(s.tables.assets, AssetExcess(s.live, assetType))
    ensures Total(s.tables.assets, AssetExcess(s.live, assetType)) == 0 <==>
      forall k: BalanceKey :: k.assetType != OHI && Selects(assetType, k) ==> Excess(s, k) == 0
  {
    var rows, w := s.tables.assets, AssetExcess(s.live, assetType);
    forall k | k in rows ensures w(k, rows[k]) == (if Selects(assetType, k) then Excess(s, k) else 0)
      && w(k, rows[k]) >= 0 {
      assert Balance(s.tables, k) >= Unspent(s.live, k);
    }
    ZeroSum(rows, w);
    forall k: BalanceKey | k.assetType != OHI && k !in rows ensures Excess(s, k) == 0 {
      NoRowNoExcess(s, k);
    }
  }

  /**
   Regrouped from outputs to addresses and across both tables: a total is never below the unspent supply, and
   equal to it exactly when every balance it adds up is the sum of its unspent outputs.
   */
  lemma TotalIsSupply(s: Ledger, assetType: string)
    requires Covered(s)
    ensures RowsTotal(s.tables, assetType) >= Supply(s.live, assetType)
    ensures RowsTotal(s.tables, assetType) == Supply(s.live, assetType) <==>
      forall k :: Selects(assetType, k) ==> Balance(s.tables, k) == Unspent(s.live, k)
  {
    if assetType == OHI {
      OhiTableTotal(s);
      OhiExcessExactly(s);
    } else {
      AssetTableTotal(s, assetType);
      AssetExcessExactly(s, assetType);
      if assetType == "" {
        OhiTableTotal(s);
        OhiExcessExactly(s);
        TotalLinear(s.live, SupplyWorth(""), SupplyWorth(OHI), SelectedAssets(""));
      } else {
        TotalCongruent(s.live, SupplyWorth(assetType), SelectedAssets(assetType));
      }
    }
    assert forall k :: Excess(s, k) == 0 <==> Balance(s.tables, k) == Unspent(s.live, k);
  }

  /**
   Over every run: no total is below the supply, the grand total is the supply exactly while nothing of value
   has been overwritten, and then so is the total of every asset.
   */
  lemma SupplyOverRun(run: seq<Ledger>, blocks: seq<seq<Transaction>>, n: nat)
    requires IsRun(run, blocks) && NoWrapsIn(blocks) && n <= |blocks|
    ensures forall a :: RowsTotal(run[n].tables, a) >= Supply(run[n].live, a)
    ensures RowsTotal(run[n].tables, "") == Supply(run[n].live, "") <==> !RunOverwrites(run, blocks, n)
    ensures !RunOverwrites(run, blocks, n) ==> forall a :: RowsTotal(run[n].tables, a) == Supply(run[n].live, a)
  {
    RunIsCovered(run, blocks, n);
    ViewOverRun(run, blocks, n);
    TotalIsSupply(run[n], "");
    forall a ensures RowsTotal(run[n].tables, a) >= Supply(run[n].live, a)
      && (ViewHolds(run[n]) ==> RowsTotal(run[n].tables, a) == Supply(run[n].live, a))
    {
      TotalIsSupply(run[n], a);
    }
  }
}
