/** What a block does to the unspent set and to the signed deltas, as functions of the set itself. */
module UtxoBooks {
  import opened Sums
  import opened Text
  import opened Chain
  import opened UtxoStore

  datatype BalanceKey = BalanceKey(address: string, assetType: string)

  // ---- which inputs and outputs count ----

  predicate IsVirtualAddr(addr: string) {
    StartsWith(addr, "Virtual") || StartsWith(addr, "LockVirtual")
  }

  predicate IsGenesisRef(h: string) {
    h == "" ||
    var v := if |h| > 2 && h[0] == '0' && (h[1] == 'x' || h[1] == 'X') then h[2..] else h;
    AllZeros(v)
  }

  predicate IsRedeemType(ty: nat) {
    ty == 3 || ty == 5 || ty == 10
  }

  function JsonString(j: JsonText): string {
    if j.Text? then j.text else ""
  }

  function GetRedeemHash(tx: Transaction): string {
    match tx.info
    case None => ""
    case Some(ti) =>
      if ti.unLockUtxo != Absent then JsonString(ti.unLockUtxo)
      else if ti.unstakeUtxo != Absent then JsonString(ti.unstakeUtxo)
      else if ti.undelegatingUtxo != Absent then JsonString(ti.undelegatingUtxo)
      else ""
  }

  function RedeemOf(tx: Transaction): string {
    if IsRedeemType(tx.ty) then GetRedeemHash(tx) else ""
  }

  function SignerOf(u: Utxo): string {
    if u.owner == [] then "" else u.owner[0]
  }

  /** A prevout that is not skipped by the genesis rule or by the redeem rule. */
  predicate Eligible(p: Prevout, redeem: string) {
    !IsGenesisRef(p.hash) && !(redeem != "" && p.hash == redeem && p.n == 1)
  }

  // ---- what a block does, on values ----

  /**
   The unspent set, the deltas emitted so far, and the value of live outputs that a Put replaced
   because their key was not fresh.
   */
  datatype Books = Books(live: map<OutRef, Entry>, deltas: map<BalanceKey, int>, lost: map<BalanceKey, int>)

  function Get(m: map<BalanceKey, int>, k: BalanceKey): int {
    if k in m then m[k] else 0
  }

  function OwnerOf(e: Entry): BalanceKey {
    BalanceKey(e.addr, e.assetType)
  }

  ghost function Worth(k: BalanceKey): (OutRef, Entry) -> int {
    (r, e) => if OwnerOf(e) == k then e.value else 0
  }

  /** The sum of the unspent outputs of one address in one asset. */
  ghost function Unspent(live: map<OutRef, Entry>, k: BalanceKey): int {
    Total(live, Worth(k))
  }

  function OfTx(live: map<OutRef, Entry>, h: string): map<OutRef, Entry> {
    map r | r in live && r.hash == h :: live[r]
  }

  function Matched(live: map<OutRef, Entry>, h: string, k: BalanceKey): set<OutRef> {
    set r | r in live && r.hash == h && OwnerOf(live[r]) == k
  }

  /** Spend everything `k` owns in transaction `h`; a zero sum is left in place. */
  ghost function SpendHash(b: Books, k: BalanceKey, h: string): Books {
    var sum := Unspent(OfTx(b.live, h), k);
    if sum == 0 then b
    else b.(live := b.live - Matched(b.live, h, k), deltas := b.deltas[k := Get(b.deltas, k) - sum])
  }

  function Seen(ps: seq<Prevout>, redeem: string): set<Prevout> {
    set p | p in ps && Eligible(p, redeem)
  }

  ghost function SpendPrevouts(b: Books, k: BalanceKey, redeem: string, ps: seq<Prevout>): Books {
    if ps == [] then b else
      var init, p := ps[..|ps| - 1], ps[|ps| - 1];
      var done := SpendPrevouts(b, k, redeem, init);
      if !Eligible(p, redeem) || p in Seen(init, redeem) then done else SpendHash(done, k, p.hash)
  }

  ghost function SpendUtxo(b: Books, redeem: string, u: Utxo): Books {
    if SignerOf(u) == "" then b else SpendPrevouts(b, BalanceKey(SignerOf(u), u.assetType), redeem, u.prevouts)
  }

  ghost function SpendUtxos(b: Books, redeem: string, us: seq<Utxo>): Books {
    if us == [] then b else SpendUtxo(SpendUtxos(b, redeem, us[..|us| - 1]), redeem, us[|us| - 1])
  }

  function CreateOne(b: Books, ref: OutRef, vo: Vout, assetType: string): Books {
    if IsVirtualAddr(vo.addr) then b else
      var e := Entry(vo.addr, vo.value, assetType);
      Books(b.live[ref := e],
            b.deltas[OwnerOf(e) := Get(b.deltas, OwnerOf(e)) + vo.value],
            if ref in b.live then
              b.lost[OwnerOf(b.live[ref]) := Get(b.lost, OwnerOf(b.live[ref])) + b.live[ref].value]
            else b.lost)
  }

  /** The first `n` outputs of `u`, the utxo at index `ui`. */
  function CreateVouts(b: Books, txHash: string, ui: nat, u: Utxo, n: nat): Books
    requires n <= |u.vouts|
  {
    if n == 0 then b else
      var ref := OutRef(txHash, ToU32(ui), ToU32(n - 1));
      CreateOne(CreateVouts(b, txHash, ui, u, n - 1), ref, u.vouts[n - 1], u.assetType)
  }

  function CreateUtxo(b: Books, txHash: string, ui: nat, u: Utxo): Books {
    if u.assetType == "" then b else CreateVouts(b, txHash, ui, u, |u.vouts|)
  }

  function CreateUtxos(b: Books, txHash: string, us: seq<Utxo>, n: nat): Books
    requires n <= |us|
  {
    if n == 0 then b else CreateUtxo(CreateUtxos(b, txHash, us, n - 1), txHash, n - 1, us[n - 1])
  }

  ghost function ProcessTx(b: Books, tx: Transaction): Books {
    CreateUtxos(SpendUtxos(b, RedeemOf(tx), tx.utxos), tx.hash, tx.utxos, |tx.utxos|)
  }

  ghost function ProcessTxs(b: Books, txs: seq<Transaction>): Books {
    if txs == [] then b else ProcessTx(ProcessTxs(b, txs[..|txs| - 1]), txs[|txs| - 1])
  }

  /** One whole block, from an unspent set. */
  ghost function ProcessAll(live: map<OutRef, Entry>, txs: seq<Transaction>): Books {
    ProcessTxs(Books(live, map[], map[]), txs)
  }
}
