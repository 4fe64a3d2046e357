/**
 One synchronisation round: fetch the missing heights in batches, hand every block to the parser,
 record the progress. The node and the parser are given by what they answer, and Stop() by how many
 polls of the running flag still see it set.
 */
module SyncScheduler {
  import opened Wrappers
  import opened Chain

  type Node = (nat, nat) -> Outcome<seq<Block>>
  type Parser = (seq<Block>, Block) -> bool

  /** What the node returns for a height range, and whether the parser takes a block after those it took before. */
  datatype World = World(fetch: Node, takes: Parser)

  /** `polls` counts the reads of the running flag that are still to see it set. */
  datatype Trace = Trace(fetched: seq<(nat, nat)>, processed: seq<Block>, polls: nat, thrown: bool)

  function Min(a: nat, b: nat): nat {
    if a < b then a else b
  }

  function BatchEnd(begin: nat, batch: nat, latest: nat): nat
    requires batch > 0
  {
    Min(begin + batch - 1, latest)
  }

  // ---- the round as a function ----

  function ProcessBlocks(w: World, t: Trace, blocks: seq<Block>): Trace
    decreases |blocks|
  {
    if blocks == [] || t.polls == 0 || t.thrown then t
    else if !w.takes(t.processed, blocks[0]) then t.(polls := t.polls - 1, thrown := true)
    else ProcessBlocks(w, t.(polls := t.polls - 1, processed := t.processed + [blocks[0]]), blocks[1..])
  }

  function Batches(w: World, batch: nat, latest: nat, begin: nat, t: Trace): Trace
    requires batch > 0
    decreases latest + 1 - begin
  {
    if begin > latest || t.polls == 0 || t.thrown then t else
      var end := BatchEnd(begin, batch, latest);
      var asked := t.(fetched := t.fetched + [(begin, end)], polls := t.polls - 1);
      match w.fetch(begin, end)
      case Thrown => asked.(thrown := true)
      case Ok(blocks) => Batches(w, batch, latest, end + 1, ProcessBlocks(w, asked, blocks))
  }

  function RoundTrace(w: World, batch: nat, local: nat, latest: nat, polls: nat): Trace
    requires batch > 0
  {
    Batches(w, batch, latest, local + 1, Trace([], [], polls, false))
  }

  /** What the round leaves in the progress table. */
  function Recorded(w: World, batch: nat, local: nat, latest: nat, polls: nat): nat
    requires batch > 0
  {
    if local < latest && !RoundTrace(w, batch, local, latest, polls).thrown then latest else local
  }

  /** Progress never falls back, and moves to `latest` exactly when that is ahead and nothing throws. */
  lemma ProgressExactly(w: World, batch: nat, local: nat, latest: nat, polls: nat)
    requires batch > 0
    ensures var next := Recorded(w, batch, local, latest, polls);
      && (next == local || next == latest) && next >= local
      && (next > local <==> latest > local && !RoundTrace(w, batch, local, latest, polls).thrown)
    ensures latest <= local ==> RoundTrace(w, batch, local, latest, polls) == Trace([], [], polls, false)
  {
  }

  class SyncScheduler {
    const batchSize: nat
    var progress: nat

    constructor (batchSize: int)
      ensures this.batchSize == (if batchSize >= 1 then batchSize else 1) && progress == 0
    {
      this.batchSize := if batchSize > 1 then batchSize else 1;
      progress := 0;
    }

    /** One pass of the body of Run's loop. */
    method Round(w: World, answer: Outcome<nat>, polls: nat) returns (t: Trace)
      requires batchSize > 0
      modifies this
      ensures answer.Thrown? ==> progress == old(progress)
      ensures answer.Ok? ==> progress == Recorded(w, batchSize, old(progress), answer.value, polls)
      ensures answer.Ok? && old(progress) < answer.value ==>
        t == RoundTrace(w, batchSize, old(progress), answer.value, polls)
    {
      t := Trace([], [], polls, false);
      if answer.Thrown? {
        return;
      }
      var latest, local := answer.value, progress;
      if local < latest {
        var begin := local + 1;
        while begin <= latest && t.polls > 0
          invariant local < begin <= latest + 1 && !t.thrown && progress == local
          invariant Batches(w, batchSize, latest, begin, t) == RoundTrace(w, batchSize, local, latest, polls)
          decreases latest + 1 - begin
        {
          var end := Min(begin + batchSize - 1, latest);
          t := t.(polls := t.polls - 1, fetched := t.fetched + [(begin, end)]);
          var blocks := w.fetch(begin, end);
          if blocks.Thrown? {
            t := t.(thrown := true);
            return;
          }
          t := HandOver(w, t, blocks.value);
          if t.thrown {
            return;
          }
          begin := end + 1;
        }
        progress := latest;
      }
    }

    /** The loop over the fetched blocks. */
    method HandOver(w: World, start: Trace, blocks: seq<Block>) returns (t: Trace)
      requires !start.thrown
      ensures t == ProcessBlocks(w, start, blocks)
    {
      t := start;
      var i := 0;
      while i < |blocks|
        invariant i <= |blocks| && !t.thrown
        invariant ProcessBlocks(w, t, blocks[i..]) == ProcessBlocks(w, start, blocks)
      {
        if t.polls == 0 {
          break;
        }
        assert blocks[i..][1..] == blocks[i + 1..];
        t := t.(polls := t.polls - 1);
        if !w.takes(t.processed, blocks[i]) {
          t := t.(thrown := true);
          return;
        }
        t := t.(processed := t.processed + [blocks[i]]);
        i := i + 1;
      }
    }
  }

  // ---- what a round should do ----

  /** The batches of a range, in ascending order. */
  function Plan(batch: nat, latest: nat, begin: nat): seq<(nat, nat)>
    requires batch > 0
    decreases latest + 1 - begin
  {
    if begin > latest then [] else
      [(begin, BatchEnd(begin, batch, latest))] + Plan(batch, latest, BatchEnd(begin, batch, latest) + 1)
  }

  /** Everything the node holds in the range, batch after batch; Thrown when some batch cannot be fetched. */
  function Blocks(w: World, batch: nat, latest: nat, begin: nat): Outcome<seq<Block>>
    requires batch > 0
    decreases latest + 1 - begin
  {
    if begin > latest then Ok([]) else
      var end := BatchEnd(begin, batch, latest);
      match (w.fetch(begin, end), Blocks(w, batch, latest, end + 1))
      case (Ok(a), Ok(b)) => Ok(a + b)
      case _ => Thrown
  }

  /** One read of the flag for each batch and one for each block. */
  function Needed(w: World, batch: nat, latest: nat, begin: nat): nat
    requires batch > 0 && Blocks(w, batch, latest, begin).Ok?
  {
    |Plan(batch, latest, begin)| + |Blocks(w, batch, latest, begin).value|
  }

  /** The batches tile begin..latest: adjacent, ascending, none longer than `batch`. */
  ghost predicate Tiles(spans: seq<(nat, nat)>, batch: nat, begin: nat, latest: nat) {
    && (spans == [] <==> begin > latest)
    && (spans != [] ==> spans[0].0 == begin && spans[|spans| - 1].1 == latest)
    && (forall i :: 0 <= i < |spans| ==> spans[i].0 <= spans[i].1 < spans[i].0 + batch)
    && (forall i :: 0 <= i < |spans| - 1 ==> spans[i + 1].0 == spans[i].1 + 1)
  }

  lemma {:induction false} PlanTiles(batch: nat, latest: nat, begin: nat)
    requires batch > 0 && begin <= latest + 1
    ensures Tiles(Plan(batch, latest, begin), batch, begin, latest)
    decreases latest + 1 - begin
  {
    if begin <= latest {
      var end := BatchEnd(begin, batch, latest);
      PlanTiles(batch, latest, end + 1);
      var rest, all := Plan(batch, latest, end + 1), Plan(batch, latest, begin);
      assert forall i :: 0 < i < |all| ==> all[i] == rest[i - 1];
    }
  }

  ghost predicate InSome(spans: seq<(nat, nat)>, h: nat) {
    exists i :: 0 <= i < |spans| && spans[i].0 <= h <= spans[i].1
  }

  /** No missing height falls between the batches. */
  lemma {:induction false} PlanCovers(batch: nat, latest: nat, begin: nat, h: nat)
    requires batch > 0 && begin <= h <= latest
    ensures InSome(Plan(batch, latest, begin), h)
    decreases latest + 1 - begin
  {
    var end, all := BatchEnd(begin, batch, latest), Plan(batch, latest, begin);
    if h <= end {
      assert all[0].0 <= h <= all[0].1;
    } else {
      PlanCovers(batch, latest, end + 1, h);
      var rest := Plan(batch, latest, end + 1);
      var i :| 0 <= i < |rest| && rest[i].0 <= h <= rest[i].1;
      assert all[i + 1] == rest[i];
    }
  }

  // ---- what it does ----

  lemma {:induction false} ProcessedIsPrefix(w: World, t: Trace, blocks: seq<Block>)
    requires !t.thrown
    ensures var r := ProcessBlocks(w, t, blocks);
      && r.fetched == t.fetched
      && t.processed <= r.processed <= t.processed + blocks
      && (!r.thrown && r.polls > 0 ==> r.processed == t.processed + blocks && r.polls == t.polls - |blocks|)
      && (!r.thrown ==>
            && (r.processed == t.processed + blocks <==> t.polls >= |blocks|)
            && r.polls == if t.polls >= |blocks| then t.polls - |blocks| else 0)
    decreases |blocks|
  {
    if blocks != [] && t.polls > 0 && w.takes(t.processed, blocks[0]) {
      var t' := t.(polls := t.polls - 1, processed := t.processed + [blocks[0]]);
      ProcessedIsPrefix(w, t', blocks[1..]);
      assert t'.processed + blocks[1..] == t.processed + blocks;
    }
  }

  /** Whatever happens, the fetched ranges are the first batches of the plan. */
  lemma {:induction false} FetchesFollowPlan(w: World, batch: nat, latest: nat, begin: nat, t: Trace)
    requires batch > 0 && !t.thrown
    ensures t.fetched <= Batches(w, batch, latest, begin, t).fetched <= t.fetched + Plan(batch, latest, begin)
    decreases latest + 1 - begin
  {
    if begin <= latest && t.polls > 0 {
      var end := BatchEnd(begin, batch, latest);
      var asked := t.(fetched := t.fetched + [(begin, end)], polls := t.polls - 1);
      assert asked.fetched + Plan(batch, latest, end + 1) == t.fetched + Plan(batch, latest, begin);
      if w.fetch(begin, end).Ok? {
        ProcessedIsPrefix(w, asked, w.fetch(begin, end).value);
        var next := ProcessBlocks(w, asked, w.fetch(begin, end).value);
        if !next.thrown {
          FetchesFollowPlan(w, batch, latest, end + 1, next);
        }
      }
    }
  }

  /** Everything in the range was asked for, and everything the node holds there was processed. */
  ghost predicate Complete(w: World, batch: nat, latest: nat, begin: nat, t: Trace, r: Trace)
    requires batch > 0
  {
    && r.fetched == t.fetched + Plan(batch, latest, begin)
    && Blocks(w, batch, latest, begin).Ok?
    && r.processed == t.processed + Blocks(w, batch, latest, begin).value
  }

  lemma {:induction false} FetchableIsComplete(w: World, batch: nat, latest: nat, begin: nat, t: Trace)
    requires batch > 0 && !t.thrown && !Batches(w, batch, latest, begin, t).thrown
    requires Blocks(w, batch, latest, begin).Ok?
    ensures Complete(w, batch, latest, begin, t, Batches(w, batch, latest, begin, t))
      <==> t.polls >= Needed(w, batch, latest, begin)
    decreases latest + 1 - begin
  {
    if begin <= latest && t.polls > 0 {
      var end := BatchEnd(begin, batch, latest);
      var asked := t.(fetched := t.fetched + [(begin, end)], polls := t.polls - 1);
      var blocks, more := w.fetch(begin, end).value, Blocks(w, batch, latest, end + 1).value;
      var next := ProcessBlocks(w, asked, blocks);
      ProcessedIsPrefix(w, asked, blocks);
      assert !next.thrown;
      FetchableIsComplete(w, batch, latest, end + 1, next);
      assert asked.fetched + Plan(batch, latest, end + 1) == t.fetched + Plan(batch, latest, begin);
      assert t.processed + (blocks + more) == t.processed + blocks + more;
      if asked.polls < |blocks| {
        assert next.polls == 0;
        assert Batches(w, batch, latest, end + 1, next) == next;
        assert |next.processed| < |t.processed + blocks|;
      }
    }
  }

  /** A round that does not throw although some batch cannot be fetched was stopped before that batch. */
  lemma {:induction false} UnfetchableIsIncomplete(w: World, batch: nat, latest: nat, begin: nat, t: Trace)
    requires batch > 0 && !t.thrown && !Batches(w, batch, latest, begin, t).thrown
    requires Blocks(w, batch, latest, begin).Thrown?
    ensures |Batches(w, batch, latest, begin, t).fetched| < |t.fetched| + |Plan(batch, latest, begin)|
    decreases latest + 1 - begin
  {
    var end := BatchEnd(begin, batch, latest);
    if t.polls > 0 {
      var asked := t.(fetched := t.fetched + [(begin, end)], polls := t.polls - 1);
      ProcessedIsPrefix(w, asked, w.fetch(begin, end).value);
      UnfetchableIsIncomplete(w, batch, latest, end + 1, ProcessBlocks(w, asked, w.fetch(begin, end).value));
    }
  }

  /**
   A round that ends without an exception fetched and processed everything if and only if everything could be
   fetched and the flag stayed set for one read per batch and one per block; and where something could not be
   fetched it was stopped before asking for all of it.
   */
  lemma CompleteExactly(w: World, batch: nat, latest: nat, begin: nat, t: Trace)
    requires batch > 0 && !t.thrown && !Batches(w, batch, latest, begin, t).thrown
    ensures Complete(w, batch, latest, begin, t, Batches(w, batch, latest, begin, t)) <==>
      Blocks(w, batch, latest, begin).Ok? && t.polls >= Needed(w, batch, latest, begin)
    ensures Blocks(w, batch, latest, begin).Thrown? ==>
      |Batches(w, batch, latest, begin, t).fetched| < |t.fetched| + |Plan(batch, latest, begin)|
  {
    if Blocks(w, batch, latest, begin).Ok? {
      FetchableIsComplete(w, batch, latest, begin, t);
    } else {
      UnfetchableIsIncomplete(w, batch, latest, begin, t);
    }
  }

  /** A round that ends with the flag still set and no exception fetched and processed everything. */
  lemma {:induction false} UnstoppedIsComplete(w: World, batch: nat, latest: nat, begin: nat, t: Trace)
    requires batch > 0 && !t.thrown
    requires !Batches(w, batch, latest, begin, t).thrown && Batches(w, batch, latest, begin, t).polls > 0
    ensures Blocks(w, batch, latest, begin).Ok?
    ensures Batches(w, batch, latest, begin, t).fetched == t.fetched + Plan(batch, latest, begin)
    ensures Batches(w, batch, latest, begin, t).processed == t.processed + Blocks(w, batch, latest, begin).value
    decreases latest + 1 - begin
  {
    if begin <= latest {
      var end := BatchEnd(begin, batch, latest);
      var asked := t.(fetched := t.fetched + [(begin, end)], polls := t.polls - 1);
      var blocks := w.fetch(begin, end).value;
      var next := ProcessBlocks(w, asked, blocks);
      ProcessedIsPrefix(w, asked, blocks);
      UnstoppedIsComplete(w, batch, latest, end + 1, next);
      assert asked.fetched + Plan(batch, latest, end + 1) == t.fetched + Plan(batch, latest, begin);
      var more := Blocks(w, batch, latest, end + 1).value;
      assert t.processed + (blocks + more) == t.processed + blocks + more;
    }
  }

  /**
   The round as a whole. The ranges asked for are the first batches that tile the missing heights; without
   an exception the progress becomes `latest` in any case, and it is honest about it exactly when everything
   could be fetched and the flag was read as set often enough.
   */
  lemma RoundIsCompleteExactly(w: World, batch: nat, local: nat, latest: nat, polls: nat)
    requires batch > 0 && local < latest
    ensures Tiles(Plan(batch, latest, local + 1), batch, local + 1, latest)
    ensures var t, r := Trace([], [], polls, false), RoundTrace(w, batch, local, latest, polls);
      && r.fetched <= Plan(batch, latest, local + 1)
      && (r.thrown ==> Recorded(w, batch, local, latest, polls) == local)
      && (!r.thrown ==> Recorded(w, batch, local, latest, polls) == latest)
      && (!r.thrown ==> (Complete(w, batch, latest, local + 1, t, r) <==>
            Blocks(w, batch, latest, local + 1).Ok? && polls >= Needed(w, batch, latest, local + 1)))
  {
    var t := Trace([], [], polls, false);
    PlanTiles(batch, latest, local + 1);
    FetchesFollowPlan(w, batch, latest, local + 1, t);
    assert [] + Plan(batch, latest, local + 1) == Plan(batch, latest, local + 1);
    if !RoundTrace(w, batch, local, latest, polls).thrown {
      CompleteExactly(w, batch, latest, local + 1, t);
    }
  }

  /** Stopped before its first batch, a round asks for nothing and records the latest height all the same. */
  lemma StoppedRoundRecordsLatest(w: World, batch: nat, local: nat, latest: nat)
    requires batch > 0 && local < latest
    ensures var t, r := Trace([], [], 0, false), RoundTrace(w, batch, local, latest, 0);
      && r == t && Recorded(w, batch, local, latest, 0) == latest
      && !Complete(w, batch, latest, local + 1, t, r)
  {
    RoundIsCompleteExactly(w, batch, local, latest, 0);
    assert |Plan(batch, latest, local + 1)| > 0;
  }

  // ---- meeting another parser ----

  /** Every block of `done` was taken in its turn. */
  ghost predicate Taken(takes: Parser, done: seq<Block>) {
    forall i :: 0 <= i < |done| ==> takes(done[..i], done[i])
  }

  /** Two parsers take `done`, and then agree on the next block, whatever it is. */
  ghost predicate AgreeOn(p: Parser, q: Parser, done: seq<Block>) {
    Taken(p, done) && Taken(q, done) && forall b :: p(done, b) == q(done, b)
  }

  lemma TakenSnoc(takes: Parser, done: seq<Block>, b: Block)
    requires Taken(takes, done) && takes(done, b)
    ensures Taken(takes, done + [b])
  {
    var all := done + [b];
    forall i | 0 <= i < |all| ensures takes(all[..i], all[i]) {
      assert all[..i] == done[..i];
      if i == |done| {
        assert done[..i] == done;
      }
    }
  }

  lemma {:induction false} ProcessedAreTaken(w: World, t: Trace, blocks: seq<Block>)
    requires Taken(w.takes, t.processed)
    ensures Taken(w.takes, ProcessBlocks(w, t, blocks).processed)
    decreases |blocks|
  {
    if blocks != [] && t.polls > 0 && !t.thrown && w.takes(t.processed, blocks[0]) {
      TakenSnoc(w.takes, t.processed, blocks[0]);
      ProcessedAreTaken(w, t.(polls := t.polls - 1, processed := t.processed + [blocks[0]]), blocks[1..]);
    }
  }

  /** What a round processed, the parser took, each block after those before it. */
  lemma {:induction false} RoundsAreTaken(w: World, batch: nat, latest: nat, begin: nat, t: Trace)
    requires batch > 0 && Taken(w.takes, t.processed)
    ensures t.processed <= Batches(w, batch, latest, begin, t).processed
    ensures Taken(w.takes, Batches(w, batch, latest, begin, t).processed)
    decreases latest + 1 - begin
  {
    if begin <= latest && t.polls > 0 && !t.thrown {
      var end := BatchEnd(begin, batch, latest);
      var asked := t.(fetched := t.fetched + [(begin, end)], polls := t.polls - 1);
      if w.fetch(begin, end).Ok? {
        ProcessedIsPrefix(w, asked, w.fetch(begin, end).value);
        ProcessedAreTaken(w, asked, w.fetch(begin, end).value);
        RoundsAreTaken(w, batch, latest, end + 1, ProcessBlocks(w, asked, w.fetch(begin, end).value));
      }
    }
  }

  lemma {:induction false} ProcessReplays(w: World, v: World, t: Trace, blocks: seq<Block>, done: seq<Block>)
    requires !t.thrown && AgreeOn(w.takes, v.takes, done)
    requires var r := ProcessBlocks(w, t, blocks); r.processed <= done && (r.thrown ==> r.processed == done)
    ensures ProcessBlocks(v, t, blocks) == ProcessBlocks(w, t, blocks)
    decreases |blocks|
  {
    ProcessedIsPrefix(w, t, blocks);
    if blocks != [] && t.polls > 0 && w.takes(t.processed, blocks[0]) {
      var next := t.(polls := t.polls - 1, processed := t.processed + [blocks[0]]);
      ProcessedIsPrefix(w, next, blocks[1..]);
      var n := |t.processed|;
      assert done[n] == next.processed[n] == blocks[0] && done[..n] == t.processed;
      ProcessReplays(w, v, next, blocks[1..], done);
    }
  }

  /** A round depends on the parser only through the blocks it processes and the next one. */
  lemma {:induction false} RoundReplays(w: World, v: World, batch: nat, latest: nat, begin: nat, t: Trace)
    requires batch > 0 && !t.thrown && Taken(w.takes, t.processed) && w.fetch == v.fetch
    requires AgreeOn(w.takes, v.takes, Batches(w, batch, latest, begin, t).processed)
    ensures Batches(v, batch, latest, begin, t) == Batches(w, batch, latest, begin, t)
    decreases latest + 1 - begin
  {
    if begin <= latest && t.polls > 0 {
      var end, done := BatchEnd(begin, batch, latest), Batches(w, batch, latest, begin, t).processed;
      var asked := t.(fetched := t.fetched + [(begin, end)], polls := t.polls - 1);
      if w.fetch(begin, end).Ok? {
        var blocks := w.fetch(begin, end).value;
        var next := ProcessBlocks(w, asked, blocks);
        ProcessedAreTaken(w, asked, blocks);
        RoundsAreTaken(w, batch, latest, end + 1, next);
        ProcessReplays(w, v, asked, blocks, done);
        if !next.thrown {
          RoundReplays(w, v, batch, latest, end + 1, next);
        }
      }
    }
  }

  // ---- runs of rounds ----

  /** One pass of the loop: the world it meets, the height it is told, and when it is stopped. */
  datatype Pass = Pass(world: World, answer: Outcome<nat>, polls: nat)

  function Progress(batch: nat, passes: seq<Pass>): nat
    requires batch > 0
  {
    if passes == [] then 0 else
      var local, p := Progress(batch, passes[..|passes| - 1]), passes[|passes| - 1];
      if p.answer.Thrown? then local else Recorded(p.world, batch, local, p.answer.value, p.polls)
  }

  ghost predicate Unstopped(batch: nat, local: nat, p: Pass)
    requires batch > 0
  {
    p.answer.Ok? && local < p.answer.value ==>
      var t := RoundTrace(p.world, batch, local, p.answer.value, p.polls); t.thrown || t.polls > 0
  }

  /** In this pass height `h` was in the range, and every block of the range was processed. */
  ghost predicate Handed(batch: nat, local: nat, p: Pass, h: nat)
    requires batch > 0
  {
    && p.answer.Ok? && local < h <= p.answer.value
    && Blocks(p.world, batch, p.answer.value, local + 1).Ok?
    && RoundTrace(p.world, batch, local, p.answer.value, p.polls).processed
       == Blocks(p.world, batch, p.answer.value, local + 1).value
  }

  lemma UnstoppedHands(batch: nat, local: nat, p: Pass, h: nat)
    requires batch > 0 && Unstopped(batch, local, p) && p.answer.Ok?
    requires local < h <= Recorded(p.world, batch, local, p.answer.value, p.polls)
    ensures Handed(batch, local, p, h)
  {
    UnstoppedIsComplete(p.world, batch, p.answer.value, local + 1, Trace([], [], p.polls, false));
    var all := Blocks(p.world, batch, p.answer.value, local + 1).value;
    assert [] + all == all;
  }

  /**
   Over any number of rounds that are not stopped midway, every height up to the recorded progress was
   processed by some round.
   */
  lemma {:induction false} EveryHeightHanded(batch: nat, passes: seq<Pass>, h: nat)
    requires batch > 0
    requires forall i :: 0 <= i < |passes| ==> Unstopped(batch, Progress(batch, passes[..i]), passes[i])
    requires 0 < h <= Progress(batch, passes)
    ensures exists i :: 0 <= i < |passes| && Handed(batch, Progress(batch, passes[..i]), passes[i], h)
  {
    var n := |passes| - 1;
    var init, p := passes[..n], passes[n];
    assert forall i :: 0 <= i < n ==> init[..i] == passes[..i] && init[i] == passes[i];
    var local := Progress(batch, init);
    if h <= local {
      EveryHeightHanded(batch, init, h);
      var i :| 0 <= i < n && Handed(batch, Progress(batch, init[..i]), init[i], h);
      assert Handed(batch, Progress(batch, passes[..i]), passes[i], h);
    } else {
      UnstoppedHands(batch, local, p, h);
      assert Handed(batch, Progress(batch, passes[..n]), passes[n], h);
    }
  }
}
