/**
 The unspent-output store: RocksDB seen as a byte-ordered map from `txhash:utxo:vout` to the
 output, and the proof that it refines a map keyed by the triple itself.
 */
module UtxoStore {
  import opened Wrappers
  import opened Text
  import opened Chain

  datatype OutRef = OutRef(hash: string, utxoI: U32, voutJ: U32)

  /** The JSON value stored under a key. */
  datatype Entry = Entry(addr: string, value: nat, assetType: string)

  datatype UtxoOut = UtxoOut(utxoI: U32, voutJ: U32, entry: Entry)

  function RefOf(txHash: string, o: UtxoOut): OutRef {
    OutRef(txHash, o.utxoI, o.voutJ)
  }

  function MakeKey(h: string, ui: U32, vj: U32): string {
    h + ":" + Decimal(ui) + ":" + Decimal(vj)
  }

  function KeyOf(r: OutRef): string {
    MakeKey(r.hash, r.utxoI, r.voutJ)
  }

  /** What the scan makes of a key: it goes on to the next, stoul throws, or two indices come out. */
  datatype Reading = Skipped | Unreadable | Indices(ui: U32, vj: U32)

  /** Two numbers as indices; both have to be there. */
  function ReadPair(ui: Option<nat>, vj: Option<nat>): Reading {
    if ui.Some? && vj.Some? then Indices(ToU32(ui.value), ToU32(vj.value)) else Unreadable
  }

  /** The part of a key that follows `hash:`. */
  function ReadRest(rest: string): Reading {
    match Find(rest, ':')
    case None => Skipped
    case Some(colon) => ReadPair(Stoul(rest[..colon]), Stoul(rest[colon + 1..]))
  }

  /** What a scan for `h` makes of the key of `r`, told from the hash of `r` alone. */
  function ReadAs(h: string, r: OutRef): Reading {
    if r.hash == h then Indices(r.utxoI, r.voutJ)
    else if StartsWith(r.hash, h + ":") then ReadNested(r.hash[|h| + 1..], r.utxoI)
    else Skipped
  }

  /** A hash that goes on behind `h:` is taken for indices, cut at its next colon or followed by the first index. */
  function ReadNested(suffix: string, ui: U32): Reading {
    match Find(suffix, ':')
    case None => ReadPair(Stoul(suffix), Some(ui))
    case Some(colon) => ReadPair(Stoul(suffix[..colon]), Stoul(suffix[colon + 1..]))
  }

  /** The outputs a scan for `h` reads: its own, and those of hashes that go on with a colon behind `h`. */
  predicate Reaches(h: string, r: OutRef) {
    r.hash == h || StartsWith(r.hash, h + ":")
  }

  // ---- key lemmas ----

  lemma DecimalHasNoColon(n: nat)
    ensures ':' !in Decimal(n)
  {
    assert forall i :: 0 <= i < |Decimal(n)| ==> IsDigit(Decimal(n)[i]);
  }

  /** Texts joined by a colon to a colon-free tail split in only one way. */
  lemma SplitRight(a1: string, d1: string, a2: string, d2: string)
    requires ':' !in d1 && ':' !in d2
    requires a1 + ":" + d1 == a2 + ":" + d2
    ensures a1 == a2 && d1 == d2
  {
    var s := a1 + ":" + d1;
    assert s[|a1|] == ':' && s[|a2|] == ':';
    assert forall i :: |a1| < i < |s| ==> s[i] == d1[i - |a1| - 1];
    assert forall i :: |a2| < i < |s| ==> s[i] == d2[i - |a2| - 1];
    assert |a1| == |a2|;
    assert a1 == s[..|a1|] && a2 == s[..|a2|];
    assert d1 == s[|a1| + 1..] && d2 == s[|a2| + 1..];
  }

  /** Formatting a key loses nothing, whatever the hash contains. */
  lemma KeyInjective(r1: OutRef, r2: OutRef)
    requires KeyOf(r1) == KeyOf(r2)
    ensures r1 == r2
  {
    DecimalHasNoColon(r1.utxoI);
    DecimalHasNoColon(r2.utxoI);
    DecimalHasNoColon(r1.voutJ);
    DecimalHasNoColon(r2.voutJ);
    SplitRight(r1.hash + ":" + Decimal(r1.utxoI), Decimal(r1.voutJ),
               r2.hash + ":" + Decimal(r2.utxoI), Decimal(r2.voutJ));
    SplitRight(r1.hash, Decimal(r1.utxoI), r2.hash, Decimal(r2.utxoI));
    DecimalInjective(r1.utxoI, r2.utxoI);
    DecimalInjective(r1.voutJ, r2.voutJ);
  }

  /** A key spelled out. */
  lemma KeySpelled()
    ensures KeyOf(OutRef("ab", 1, 20)) == "ab:1:20"
  {
    assert Decimal(1) == "1";
    assert Decimal(2) == "2" && Decimal(20) == "2" + "0";
  }

  lemma FindFirst(a: string, c: char, b: string)
    requires c !in a
    ensures Find(a + [c] + b, c) == Some(|a|)
  {
    var s := a + [c] + b;
    assert s[|a|] == c;
    assert forall i :: 0 <= i < |a| ==> s[i] == a[i];
    assert forall n :: |a| < n <= |s| ==> s[..n][|a|] == c;
  }

  lemma U32Unchanged(n: U32)
    ensures ToU32(n) == n
  {
  }

  /** The rest of a key is cut at its first colon. */
  lemma RestSplits(a: string, b: string)
    requires ':' !in a
    ensures ReadRest(a + ":" + b) == ReadPair(Stoul(a), Stoul(b))
  {
    var rest := a + ":" + b;
    FindFirst(a, ':', b);
    assert rest[..|a|] == a && rest[|a| + 1..] == b;
  }

  /** Parsing what follows `hash:` in a formatted key gives the indices back. */
  lemma KeyRoundTrip(ui: U32, vj: U32)
    ensures ReadRest(Decimal(ui) + ":" + Decimal(vj)) == Indices(ui, vj)
  {
    DecimalHasNoColon(ui);
    RestSplits(Decimal(ui), Decimal(vj));
    StoulDecimal(ui);
    StoulDecimal(vj);
    U32Unchanged(ui);
    U32Unchanged(vj);
  }

  lemma OwnKeyHasPrefix(r: OutRef)
    ensures StartsWith(KeyOf(r), r.hash + ":")
    ensures KeyOf(r)[|r.hash| + 1..] == Decimal(r.utxoI) + ":" + Decimal(r.voutJ)
  {
    assert KeyOf(r) == (r.hash + ":") + (Decimal(r.utxoI) + ":" + Decimal(r.voutJ));
  }

  lemma ShortQueryReaches(r: OutRef, h: string)
    requires StartsWith(KeyOf(r), h + ":") && |h| <= |r.hash|
    ensures Reaches(h, r)
  {
    var k := KeyOf(r);
    assert forall i :: 0 <= i < |r.hash| ==> k[i] == r.hash[i];
    assert forall i :: 0 <= i <= |h| ==> k[i] == (h + ":")[i];
    if |h| == |r.hash| {
      assert r.hash == h;
    }
  }

  /** Every other key of the prefix block has the queried text end at its last colon. */
  lemma OtherKeyIsSkipped(r: OutRef, h: string)
    requires StartsWith(KeyOf(r), h + ":") && !Reaches(h, r)
    ensures ReadRest(KeyOf(r)[|h| + 1..]) == Skipped
  {
    var k := KeyOf(r);
    var d, e := Decimal(r.utxoI), Decimal(r.voutJ);
    DecimalHasNoColon(r.utxoI);
    DecimalHasNoColon(r.voutJ);
    assert k[|h|] == (h + ":")[|h|] == ':';
    if |h| <= |r.hash| {
      ShortQueryReaches(r, h);
    }
    // the colon behind h is not the one behind the hash, so it is the second and last one
    var p := |r.hash| + 1 + |d|;
    assert forall i :: |r.hash| < i < p ==> k[i] == d[i - |r.hash| - 1];
    assert forall i :: p < i < |k| ==> k[i] == e[i - p - 1];
    assert |h| == p;
    assert k[|h| + 1..] == e;
  }

  lemma Reassociate(h: string, a: string, d: string, e: string)
    ensures h + ":" + a + ":" + d + ":" + e == h + ":" + (a + ":" + (d + ":" + e))
  {
  }

  lemma ReadBehind(h: string, key: string, rest: string)
    requires key == h + ":" + rest
    ensures StartsWith(key, h + ":") && key[|h| + 1..] == rest
  {
  }

  lemma NestedHashSplits(g: string, h: string)
    requires StartsWith(g, h + ":")
    ensures g == h + ":" + g[|h| + 1..]
  {
  }

  lemma ColonCuts(a: string, b: string, c: string)
    ensures a + ":" + b + ":" + c == a + ":" + (b + ":" + c)
  {
  }

  lemma CutAtColon(s: string, i: nat)
    requires i < |s| && s[i] == ':'
    ensures s == s[..i] + ":" + s[i + 1..]
  {
  }

  /** What is read from a nested hash and the indices behind it. */
  lemma NestedRest(suffix: string, ui: U32, tail: string)
    ensures ReadRest(suffix + ":" + (Decimal(ui) + ":" + tail)) == ReadNested(suffix, ui)
  {
    var more := Decimal(ui) + ":" + tail;
    match Find(suffix, ':')
    case None =>
      RestSplits(suffix, more);
      StoulDecimal(ui);
      StoulStops(Decimal(ui), tail);
    case Some(i) =>
      CutAtColon(suffix, i);
      ColonCuts(suffix[..i], suffix[i + 1..], more);
      RestSplits(suffix[..i], suffix[i + 1..] + ":" + more);
      StoulStops(suffix[i + 1..], more);
  }

  lemma NestedKeyIsReadAs(r: OutRef, h: string)
    requires StartsWith(r.hash, h + ":")
    ensures StartsWith(KeyOf(r), h + ":") && ReadRest(KeyOf(r)[|h| + 1..]) == ReadNested(r.hash[|h| + 1..], r.utxoI)
  {
    var suffix := r.hash[|h| + 1..];
    NestedHashSplits(r.hash, h);
    Reassociate(h, suffix, Decimal(r.utxoI), Decimal(r.voutJ));
    ReadBehind(h, KeyOf(r), suffix + ":" + (Decimal(r.utxoI) + ":" + Decimal(r.voutJ)));
    NestedRest(suffix, r.utxoI, Decimal(r.voutJ));
  }

  lemma OwnKeyIsReadAs(r: OutRef)
    ensures StartsWith(KeyOf(r), r.hash + ":") && ReadRest(KeyOf(r)[|r.hash| + 1..]) == Indices(r.utxoI, r.voutJ)
  {
    OwnKeyHasPrefix(r);
    KeyRoundTrip(r.utxoI, r.voutJ);
  }

  /** The refinement of the scan: what it reads from the text of a key is what `ReadAs` tells from the hash. */
  lemma KeyIsReadAs(r: OutRef, h: string)
    ensures ReadAs(h, r) ==
      if StartsWith(KeyOf(r), h + ":") then ReadRest(KeyOf(r)[|h| + 1..]) else Skipped
  {
    if r.hash == h {
      OwnKeyIsReadAs(r);
    } else if StartsWith(r.hash, h + ":") {
      NestedKeyIsReadAs(r, h);
    } else if StartsWith(KeyOf(r), h + ":") {
      OtherKeyIsSkipped(r, h);
    }
  }

  lemma KeyIsReadExactly(r: OutRef, h: string)
    ensures ReadAs(h, r) != Skipped <==> Reaches(h, r)
    ensures r.hash == h ==> ReadAs(h, r) == Indices(r.utxoI, r.voutJ)
  {
  }

  // ---- the iterator ----

  ghost predicate Sorted(ks: seq<string>) {
    forall i, j :: 0 <= i < j < |ks| ==> Before(ks[i], ks[j])
  }

  ghost predicate Least(k: string, keys: set<string>) {
    k in keys && forall j :: j in keys && j != k ==> Before(k, j)
  }

  lemma {:induction false} LeastKeyExists(keys: set<string>)
    requires keys != {}
    ensures exists k :: Least(k, keys)
    decreases |keys|
  {
    var x :| x in keys;
    var rest := keys - {x};
    assert keys == rest + {x};
    if rest == {} {
      assert Least(x, keys);
    } else {
      LeastKeyExists(rest);
      var y :| Least(y, rest);
      LeastOfTwo(x, y, rest);
    }
  }

  lemma LeastOfTwo(x: string, y: string, rest: set<string>)
    requires Least(y, rest) && x !in rest
    ensures Least(x, rest + {x}) || Least(y, rest + {x})
  {
    BeforeTotal(x, y);
    if Before(x, y) {
      forall j | j in rest ensures Before(x, j) {
        if j != y {
          BeforeTransitive(x, y, j);
        }
      }
    }
  }

  lemma SortedExtend(ks: seq<string>, i: nat, taken: seq<string>)
    requires Sorted(ks) && i < |ks| && Sorted(taken)
    requires forall k :: k in taken ==> k in ks[..i]
    ensures Sorted(taken + [ks[i]])
    ensures forall k :: k in taken + [ks[i]] ==> k in ks[..i + 1]
  {
    assert ks[..i + 1] == ks[..i] + [ks[i]];
    forall n | 0 <= n < |taken| ensures Before(taken[n], ks[i]) {
      assert taken[n] in taken;
      var j :| 0 <= j < i && ks[j] == taken[n];
    }
  }

  lemma ScanStops(ks: seq<string>, i: nat, prefix: string)
    requires Sorted(ks) && i <= |ks|
    requires i < |ks| ==> !Before(ks[i], prefix) && !StartsWith(ks[i], prefix)
    ensures forall j :: i <= j < |ks| ==> !StartsWith(ks[j], prefix)
  {
    forall j | i <= j < |ks| ensures !StartsWith(ks[j], prefix) {
      if i < j {
        PrefixBlockEnds(prefix, ks[i], ks[j]);
      }
    }
  }

  // ---- the refinement relation ----

  /** The keys of `db` stand for exactly the members of `m`; `names` says which key stands for which. */
  ghost predicate RepresentsBy<K>(key: K -> string, db: map<string, Entry>, names: map<string, K>, m: map<K, Entry>) {
    && names.Keys == db.Keys
    && (forall k {:trigger names[k]} :: k in names ==> names[k] in m && key(names[k]) == k && m[names[k]] == db[k])
    && (forall r {:trigger key(r)} :: r in m ==> key(r) in names && names[key(r)] == r)
  }

  lemma PutRepresents<K>(
      key: K -> string, db: map<string, Entry>, names: map<string, K>, m: map<K, Entry>, ref: K, e: Entry)
    requires RepresentsBy(key, db, names, m)
    requires key(ref) in names ==> names[key(ref)] == ref
    ensures RepresentsBy(key, db[key(ref) := e], names[key(ref) := ref], m[ref := e])
  {
  }

  lemma DeleteRepresents<K>(key: K -> string, db: map<string, Entry>, names: map<string, K>, m: map<K, Entry>, ref: K)
    requires RepresentsBy(key, db, names, m)
    requires key(ref) in names ==> names[key(ref)] == ref
    ensures RepresentsBy(key, db - {key(ref)}, names - {key(ref)}, m - {ref})
    ensures key(ref) in db <==> ref in m
  {
  }

  ghost predicate Represents(db: map<string, Entry>, names: map<string, OutRef>, m: map<OutRef, Entry>) {
    RepresentsBy(KeyOf, db, names, m)
  }

  lemma KeyStored(db: map<string, Entry>, names: map<string, OutRef>, m: map<OutRef, Entry>, r: OutRef)
    requires Represents(db, names, m) && r in m
    ensures KeyOf(r) in names && names[KeyOf(r)] == r
  {
    var key: OutRef -> string := KeyOf;
    assert key(r) == KeyOf(r);
  }

  /** Two outputs never share a key, so a key in use names the output it was written for. */
  lemma KeyInUse(db: map<string, Entry>, names: map<string, OutRef>, m: map<OutRef, Entry>, ref: OutRef)
    requires Represents(db, names, m)
    ensures KeyOf(ref) in names ==> names[KeyOf(ref)] == ref
  {
    if KeyOf(ref) in names {
      KeyInjective(names[KeyOf(ref)], ref);
    }
  }

  // ---- what a scan returns ----

  ghost predicate IsLive(live: map<OutRef, Entry>, txHash: string, o: UtxoOut) {
    var r := RefOf(txHash, o);
    r in live && live[r] == o.entry
  }

  /** `out` lists every live output of `txHash` once, and nothing else. */
  ghost predicate IsScanOf(live: map<OutRef, Entry>, txHash: string, out: seq<UtxoOut>) {
    && (forall i :: 0 <= i < |out| ==> IsLive(live, txHash, out[i]))
    && (forall r :: r in live && r.hash == txHash ==> UtxoOut(r.utxoI, r.voutJ, live[r]) in out)
    && (forall i, j :: 0 <= i < j < |out| ==> RefOf(txHash, out[i]) != RefOf(txHash, out[j]))
  }

  /** Some live output would be read by a scan for `h` although it belongs to another transaction. */
  ghost predicate Nested(live: map<OutRef, Entry>, h: string) {
    exists r :: r in live && StartsWith(r.hash, h + ":")
  }

  /** Some key in the scan's way makes stoul throw. */
  ghost predicate Blocked(live: map<OutRef, Entry>, h: string) {
    exists r :: r in live && ReadAs(h, r) == Unreadable
  }

  /** `out` is what a scan for `h` makes of the outputs `refs`. */
  ghost predicate ReadFrom(live: map<OutRef, Entry>, h: string, refs: seq<OutRef>, out: seq<UtxoOut>) {
    |out| == |refs|
    && forall n :: 0 <= n < |refs| ==>
      refs[n] in live && out[n].entry == live[refs[n]] && ReadAs(h, refs[n]) == Indices(out[n].utxoI, out[n].voutJ)
  }

  /** `out` lists everything a scan for `h` reads, once each: the outputs `refs`, under the indices read for them. */
  ghost predicate Listing(live: map<OutRef, Entry>, h: string, refs: seq<OutRef>, out: seq<UtxoOut>) {
    && ReadFrom(live, h, refs, out)
    && (forall i, j :: 0 <= i < j < |refs| ==> refs[i] != refs[j])
    && (forall r :: r in live && Reaches(h, r) ==> r in refs)
  }

  function KeysOf(refs: seq<OutRef>): (ks: seq<string>)
    ensures |ks| == |refs|
  {
    seq(|refs|, i requires 0 <= i < |refs| => KeyOf(refs[i]))
  }

  /** `key` is one the scan has taken, or one it goes past without. */
  ghost predicate Passed(live: map<OutRef, Entry>, h: string, key: string, refs: seq<OutRef>) {
    forall r :: r in live && KeyOf(r) == key ==> r in refs || ReadAs(h, r) == Skipped
  }

  /** Reading one more key, of output `q`, which is appended where it is not skipped. */
  lemma PassedExtends(
      live: map<OutRef, Entry>, h: string, ks: seq<string>, first: nat, i: nat, refs: seq<OutRef>, q: OutRef)
    requires first <= i < |ks| && KeyOf(q) == ks[i]
    requires forall j :: first <= j < i ==> Passed(live, h, ks[j], refs)
    ensures KeysOf(refs + [q]) == KeysOf(refs) + [ks[i]]
    ensures forall j :: first <= j <= i ==> Passed(live, h, ks[j], refs + [q])
    ensures ReadAs(h, q) == Skipped ==> forall j :: first <= j <= i ==> Passed(live, h, ks[j], refs)
  {
    forall r | r in live && KeyOf(r) == ks[i] ensures r == q {
      KeyInjective(r, q);
    }
    forall j | first <= j < i ensures Passed(live, h, ks[j], refs + [q]) {
      assert Passed(live, h, ks[j], refs);
    }
  }

  /** What the scan has done when it stands at `i`, having started at `first`. */
  ghost predicate ScannedTo(
      live: map<OutRef, Entry>, h: string, ks: seq<string>, first: nat, i: nat, refs: seq<OutRef>, out: seq<UtxoOut>) {
    && first <= i <= |ks|
    && ReadFrom(live, h, refs, out) && Sorted(KeysOf(refs))
    && (forall k :: k in KeysOf(refs) ==> k in ks[..i])
    && (forall j :: first <= j < i ==> Passed(live, h, ks[j], refs))
  }

  lemma ScanSkips(
      live: map<OutRef, Entry>, h: string, ks: seq<string>, first: nat, i: nat,
      refs: seq<OutRef>, out: seq<UtxoOut>, q: OutRef)
    requires ScannedTo(live, h, ks, first, i, refs, out) && i < |ks|
    requires KeyOf(q) == ks[i] && ReadAs(h, q) == Skipped
    ensures ScannedTo(live, h, ks, first, i + 1, refs, out)
  {
    PassedExtends(live, h, ks, first, i, refs, q);
    assert ks[..i + 1] == ks[..i] + [ks[i]];
  }

  lemma ScanTakes(
      live: map<OutRef, Entry>, h: string, ks: seq<string>, first: nat, i: nat,
      refs: seq<OutRef>, out: seq<UtxoOut>, q: OutRef, o: UtxoOut)
    requires ScannedTo(live, h, ks, first, i, refs, out) && i < |ks| && Sorted(ks)
    requires KeyOf(q) == ks[i] && q in live && o.entry == live[q] && ReadAs(h, q) == Indices(o.utxoI, o.voutJ)
    ensures ScannedTo(live, h, ks, first, i + 1, refs + [q], out + [o])
  {
    SortedExtend(ks, i, KeysOf(refs));
    PassedExtends(live, h, ks, first, i, refs, q);
    ReadOneMore(live, h, refs, out, q, o);
  }

  lemma ReadOneMore(
      live: map<OutRef, Entry>, h: string, refs: seq<OutRef>, out: seq<UtxoOut>, q: OutRef, o: UtxoOut)
    requires ReadFrom(live, h, refs, out)
    requires q in live && o.entry == live[q] && ReadAs(h, q) == Indices(o.utxoI, o.voutJ)
    ensures ReadFrom(live, h, refs + [q], out + [o])
  {
  }

  lemma BlockedIsNested(live: map<OutRef, Entry>, h: string)
    requires Blocked(live, h)
    ensures Nested(live, h)
  {
    var r :| r in live && ReadAs(h, r) == Unreadable;
    KeyIsReadExactly(r, h);
  }

  /** A scan that passed every key of the prefix block lists what it reaches, and met nothing unreadable. */
  lemma ScanComplete(
      db: map<string, Entry>, names: map<string, OutRef>, live: map<OutRef, Entry>,
      ks: seq<string>, first: nat, last: nat, h: string, refs: seq<OutRef>, out: seq<UtxoOut>)
    requires Represents(db, names, live) && ScannedTo(live, h, ks, first, last, refs, out)
    requires forall k :: k in ks <==> k in db
    requires forall j :: 0 <= j < first ==> !StartsWith(ks[j], h + ":")
    requires forall j :: last <= j < |ks| ==> !StartsWith(ks[j], h + ":")
    ensures Listing(live, h, refs, out) && !Blocked(live, h)
  {
    forall i, j | 0 <= i < j < |refs| ensures refs[i] != refs[j] {
      assert Before(KeysOf(refs)[i], KeysOf(refs)[j]);
      BeforeIrreflexive(KeyOf(refs[j]));
    }
    forall r | r in live && ReadAs(h, r) != Skipped ensures r in refs {
      KeyIsReadAs(r, h);
      KeyStored(db, names, live, r);
      var key := KeyOf(r);
      assert key in ks;
      var j :| 0 <= j < |ks| && ks[j] == key;
      assert Passed(live, h, ks[j], refs);
    }
    forall r | r in live && Reaches(h, r) ensures r in refs {
      KeyIsReadExactly(r, h);
    }
  }

  /** No output is taken twice: a foreign one passes for a position that is empty or already listed. */
  lemma NestedScanFails(live: map<OutRef, Entry>, h: string, refs: seq<OutRef>, out: seq<UtxoOut>, r: OutRef)
    requires Listing(live, h, refs, out) && r in live && StartsWith(r.hash, h + ":")
    ensures !IsScanOf(live, h, out)
  {
    var n :| 0 <= n < |refs| && refs[n] == r;
    var q := RefOf(h, out[n]);
    if IsLive(live, h, out[n]) {
      KeyIsReadExactly(q, h);
      var m :| 0 <= m < |refs| && refs[m] == q;
      assert m != n && RefOf(h, out[m]) == q;
    }
  }

  lemma UnnestedScanIsExact(live: map<OutRef, Entry>, h: string, refs: seq<OutRef>, out: seq<UtxoOut>)
    requires Listing(live, h, refs, out) && !Nested(live, h)
    ensures IsScanOf(live, h, out)
  {
    forall n | 0 <= n < |refs| ensures RefOf(h, out[n]) == refs[n] {
      KeyIsReadExactly(refs[n], h);
    }
    forall r | r in live && r.hash == h ensures UtxoOut(r.utxoI, r.voutJ, live[r]) in out {
      var n :| 0 <= n < |refs| && refs[n] == r;
      assert out[n] == UtxoOut(r.utxoI, r.voutJ, live[r]);
    }
  }

  /**
   The exact condition: a scan returns the live outputs of `h` and nothing else if and only if no other
   hash is nested in `h`.
   */
  lemma ScanIsExact(live: map<OutRef, Entry>, h: string, refs: seq<OutRef>, out: seq<UtxoOut>)
    requires Listing(live, h, refs, out)
    ensures IsScanOf(live, h, out) <==> !Nested(live, h)
  {
    if Nested(live, h) {
      var r :| r in live && StartsWith(r.hash, h + ":");
      NestedScanFails(live, h, refs, out, r);
    } else {
      UnnestedScanIsExact(live, h, refs, out);
    }
  }

  /** Without nesting nothing makes stoul throw. */
  lemma OwnKeysAreReadable(live: map<OutRef, Entry>, h: string)
    requires !Nested(live, h)
    ensures !Blocked(live, h)
  {
    forall r | r in live ensures ReadAs(h, r) != Unreadable {
      KeyIsReadExactly(r, h);
    }
  }

  // ---- nested hashes ----

  /** Behind `h:x` no number can be read, so every scan for `h` throws beside such an output. */
  lemma NestedKeyBlocks(live: map<OutRef, Entry>, h: string, ui: U32, vj: U32)
    requires OutRef(h + ":" + "x", ui, vj) in live
    ensures Blocked(live, h)
  {
    var r := OutRef(h + ":" + "x", ui, vj);
    assert StartsWith(r.hash, h + ":") && r.hash[|h| + 1..] == "x";
    assert DigitPrefix("x") == 0;
    assert ReadAs(h, r) == Unreadable;
  }

  /** Under the prefix of "a" an output of "a:7" is read as output 7 of "a". */
  lemma NestedReads()
    ensures var r := OutRef("a:7", 0, 0); r.hash != "a" && Reaches("a", r) && ReadAs("a", r) == Indices(7, 0)
  {
    var r := OutRef("a:7", 0, 0);
    assert Decimal(7) == "7";
    StoulDecimal(7);
    assert StartsWith(r.hash, "a" + ":") && r.hash[2..] == "7";
  }

  /** In a store that holds only an output of "a:7" a scan for "a" returns one that does not exist. */
  lemma NestedScanInvents(e: Entry, refs: seq<OutRef>, out: seq<UtxoOut>)
    requires Listing(map[OutRef("a:7", 0, 0) := e], "a", refs, out)
    ensures out == [UtxoOut(7, 0, e)] && !IsScanOf(map[OutRef("a:7", 0, 0) := e], "a", out)
  {
    var r := OutRef("a:7", 0, 0);
    NestedReads();
    assert r in refs && forall i :: 0 <= i < |refs| ==> refs[i] == r;
    OneOfAKind(refs, r);
    NestedScanFails(map[r := e], "a", refs, out, r);
  }

  lemma OneOfAKind<T>(xs: seq<T>, x: T)
    requires forall i, j :: 0 <= i < j < |xs| ==> xs[i] != xs[j]
    ensures |xs| <= 1 || exists i :: 0 <= i < |xs| && xs[i] != x
  {
    if |xs| > 1 {
      assert xs[0] != xs[1];
    }
  }

  class UtxoStore {
    var db: map<string, Entry>
    /** The unspent set the keys stand for. */
    ghost var contents: map<OutRef, Entry>
    ghost var names: map<string, OutRef>

    ghost predicate Valid()
      reads this
    {
      Represents(db, names, contents)
    }

    constructor ()
      ensures Valid() && contents == map[]
    {
      db := map[];
      contents := map[];
      names := map[];
    }

    method Put(txHash: string, ui: U32, vj: U32, addr: string, value: nat, assetType: string)
      requires Valid()
      modifies this
      ensures Valid()
      ensures contents == old(contents)[OutRef(txHash, ui, vj) := Entry(addr, value, assetType)]
    {
      var key := MakeKey(txHash, ui, vj);
      ghost var ref := OutRef(txHash, ui, vj);
      KeyInUse(db, names, contents, ref);
      PutRepresents(KeyOf, db, names, contents, ref, Entry(addr, value, assetType));
      db := db[key := Entry(addr, value, assetType)];
      contents := contents[ref := Entry(addr, value, assetType)];
      names := names[key := ref];
    }

    method Delete(txHash: string, ui: U32, vj: U32) returns (found: bool)
      requires Valid()
      modifies this
      ensures Valid()
      ensures found <==> OutRef(txHash, ui, vj) in old(contents)
      ensures contents == old(contents) - {OutRef(txHash, ui, vj)}
    {
      var key := MakeKey(txHash, ui, vj);
      ghost var ref := OutRef(txHash, ui, vj);
      KeyInUse(db, names, contents, ref);
      DeleteRepresents(KeyOf, db, names, contents, ref);
      if key !in db {
        assert contents - {ref} == contents;
        return false;
      }
      db := db - {key};
      contents := contents - {ref};
      names := names - {key};
      return true;
    }

    /** The keys in iteration order. */
    method SortedKeys() returns (ks: seq<string>)
      ensures Sorted(ks) && (forall k :: k in ks <==> k in db)
    {
      ks := [];
      var rest := db.Keys;
      while rest != {}
        invariant Sorted(ks) && rest <= db.Keys
        invariant forall k :: k in ks <==> k in db && k !in rest
        invariant forall k, j :: k in ks && j in rest ==> Before(k, j)
        decreases |rest|
      {
        LeastKeyExists(rest);
        ghost var least :| Least(least, rest);
        var k :| k in rest && forall j :: j in rest && j != k ==> Before(k, j);
        ks := ks + [k];
        rest := rest - {k};
      }
    }

    /** The first position at or past `prefix`. */
    static method Seek(ks: seq<string>, prefix: string) returns (i: nat)
      requires Sorted(ks)
      ensures i <= |ks|
      ensures forall j :: 0 <= j < i ==> !StartsWith(ks[j], prefix)
      ensures forall j :: i <= j < |ks| ==> !Before(ks[j], prefix)
    {
      i := 0;
      while i < |ks| && Before(ks[i], prefix)
        invariant i <= |ks|
        invariant forall j :: 0 <= j < i ==> Before(ks[j], prefix)
      {
        i := i + 1;
      }
      forall j | 0 <= j < i ensures !StartsWith(ks[j], prefix) {
        if StartsWith(ks[j], prefix) { PrefixNotBefore(prefix, ks[j]); }
      }
      forall j | i <= j < |ks| ensures !Before(ks[j], prefix) {
        if Before(ks[j], prefix) && i < j {
          BeforeTransitive(ks[i], ks[j], prefix);
        }
      }
    }

    /** One step of the scan: the output under `key`, None where the scan goes on without it. */
    method ReadKey(key: string, txHash: string) returns (o: Outcome<Option<UtxoOut>>, ghost r: OutRef)
      requires Valid() && key in db && StartsWith(key, txHash + ":")
      ensures r in contents && KeyOf(r) == key
      ensures match o
        case Thrown => ReadAs(txHash, r) == Unreadable
        case Ok(None) => ReadAs(txHash, r) == Skipped
        case Ok(Some(out)) => out.entry == contents[r] && ReadAs(txHash, r) == Indices(out.utxoI, out.voutJ)
    {
      r := names[key];
      KeyIsReadAs(r, txHash);
      var rest := key[|txHash| + 1..];
      var colon := Find(rest, ':');
      if colon.None? {
        return Ok(None), r;
      }
      var ui := Stoul(rest[..colon.value]);
      var vj := Stoul(rest[colon.value + 1..]);
      if ui.None? || vj.None? {
        return Thrown, r;
      }
      return Ok(Some(UtxoOut(ToU32(ui.value), ToU32(vj.value), db[key]))), r;
    }

    /**
     Seek to `txHash:` and read while the prefix lasts. It throws where stoul does, and else lists what the
     prefix reaches, in key order. That is exactly the live outputs of the transaction if and only if no
     live hash goes on with a colon behind `txHash`.
     */
    method GetUnspentByTx(txHash: string) returns (r: Outcome<seq<UtxoOut>>, ghost refs: seq<OutRef>)
      requires Valid()
      ensures r.Thrown? <==> Blocked(contents, txHash)
      ensures r.Ok? ==> Listing(contents, txHash, refs, r.value) && Sorted(KeysOf(refs))
      ensures r.Ok? && IsScanOf(contents, txHash, r.value) <==> !Nested(contents, txHash)
    {
      var out: seq<UtxoOut> := [];
      refs := [];
      var prefix := txHash + ":";
      var ks := SortedKeys();
      var i := Seek(ks, prefix);
      ghost var first := i;
      while i < |ks| && StartsWith(ks[i], prefix)
        invariant first <= i <= |ks|
        invariant ScannedTo(contents, txHash, ks, first, i, refs, out)
      {
        assert ks[i] in ks;
        ghost var q;
        var o;
        o, q := ReadKey(ks[i], txHash);
        if o.Thrown? {
          BlockedIsNested(contents, txHash);
          return Thrown, [];
        }
        if o.value.None? {
          ScanSkips(contents, txHash, ks, first, i, refs, out, q);
        } else {
          ScanTakes(contents, txHash, ks, first, i, refs, out, q, o.value.value);
          out := out + [o.value.value];
          refs := refs + [q];
        }
        i := i + 1;
      }
      ScanStops(ks, i, prefix);
      ScanComplete(db, names, contents, ks, first, i, txHash, refs, out);
      ScanIsExact(contents, txHash, refs, out);
      return Ok(out), refs;
    }
  }
}
