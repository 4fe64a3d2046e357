/**
 The pool class as one thread drives it. Each method runs the source's critical sections in order and
 returns, as a ghost trace, the protocol steps it is made of.
 */
module DbPool {
  import opened Wrappers
  import opened PoolProtocol

  datatype Attempted = Lent(conn: Conn) | Failed | Again

  lemma TakeIsStep(start: Pool, t: Tid, trace: seq<Pool>, first: Pool)
    requires HasCapacity(start) && PhaseOf(start, t) in {Outside, Retrying} && Sound(start)
    requires Path(trace, t, first, start)
    ensures Path(trace + [Take(start, t)], t, first, Take(start, t)) && Sound(Take(start, t))
    ensures start.idle != [] ==>
      var c := start.idle[|start.idle| - 1];
      PhaseOf(Take(start, t), t) == Checking(c) && c in start.sessions
      && Take(start, t)
        == Pool(start.size, start.idle[..|start.idle| - 1], start.total, Take(start, t).phases, start.sessions)
  {
    var taken := Take(start, t);
    assert ThreadStep(start, t, taken) by { assert Enter(start, t, taken); }
    PathExtend(trace, t, first, start, taken);
    TakeSound(start, t);
  }

  /** The position of the last idle connection that still answers, or -1. */
  function LastAlive(idle: seq<Conn>, sessions: map<Conn, Session>): (i: int)
    requires forall c :: c in idle ==> c in sessions
    ensures -1 <= i < |idle|
    ensures 0 <= i ==> sessions[idle[i]].alive
    ensures forall j :: i < j < |idle| ==> !sessions[idle[j]].alive
  {
    if idle == [] then -1
    else if sessions[idle[|idle| - 1]].alive then |idle| - 1
    else LastAlive(idle[..|idle| - 1], sessions)
  }

  /** The counted part of a pool. */
  datatype Slots = Slots(idle: seq<Conn>, total: int, sessions: map<Conn, Session>)

  /** Only dead connections have been dropped from the back of `first.idle`, each with its slot. */
  ghost predicate OnlyDeadDropped(first: Slots, now: Slots)
    requires forall c :: c in first.idle ==> c in first.sessions
  {
    && now.idle <= first.idle && now.total == first.total - (|first.idle| - |now.idle|)
    && now.sessions == first.sessions - Members(first.idle[|now.idle|..])
    && LastAlive(now.idle, first.sessions) == LastAlive(first.idle, first.sessions)
  }

  /** What one iteration of Acquire makes of the idle connections, the sessions and the total. */
  ghost predicate AttemptEffect(size: nat, factory: Option<Conn>, before: Slots, a: Attempted, after: Slots) {
    if before.idle == [] then
      && after.idle == []
      && a == (if factory.Some? && before.total < size then Lent(factory.value) else Failed)
      && after.total == before.total + (if a.Lent? then 1 else 0)
      && after.sessions
         == if a.Lent? then before.sessions[a.conn := Session(true, true, false)] else before.sessions
    else
      var c := before.idle[|before.idle| - 1];
      && c in before.sessions && after.idle == before.idle[..|before.idle| - 1]
      && if before.sessions[c].alive
         then a == Lent(c) && after.total == before.total && after.sessions == before.sessions
         else a == Again && after.total == before.total - 1 && after.sessions == before.sessions - {c}
  }

  lemma LendingIsAttempt(size: nat, before: Slots, c: Conn)
    requires before.idle != [] && c == before.idle[|before.idle| - 1] && c in before.sessions
    requires before.sessions[c].alive
    ensures AttemptEffect(size, None, before, Lent(c), before.(idle := before.idle[..|before.idle| - 1]))
  {
  }

  lemma DiscardingIsAttempt(size: nat, before: Slots, c: Conn)
    requires before.idle != [] && c == before.idle[|before.idle| - 1] && c in before.sessions
    requires !before.sessions[c].alive
    ensures AttemptEffect(size, None, before, Again,
              Slots(before.idle[..|before.idle| - 1], before.total - 1, before.sessions - {c}))
  {
  }

  /** What the whole of Acquire makes of them. */
  ghost predicate AcquireEffect(size: nat, factory: Option<Conn>, before: Slots, r: Outcome<Conn>, after: Slots)
    requires forall c :: c in before.idle ==> c in before.sessions
  {
    var i := LastAlive(before.idle, before.sessions);
    if 0 <= i then
      && r == Ok(before.idle[i]) && after.idle == before.idle[..i]
      && after.total == before.total - (|before.idle| - 1 - i)
      && after.sessions == before.sessions - Members(before.idle[i + 1..])
    else
      var left := before.sessions - Members(before.idle);
      && after.idle == []
      && r == (if factory.Some? && before.total - |before.idle| < size then Ok(factory.value) else Thrown)
      && after.total == before.total - |before.idle| + (if r.Ok? then 1 else 0)
      && after.sessions == if r.Ok? then left[r.value := Session(true, true, false)] else left
  }

  lemma AgainDropsDead(size: nat, factory: Option<Conn>, first: Slots, before: Slots, after: Slots)
    requires forall c :: c in first.idle ==> c in first.sessions
    requires OnlyDeadDropped(first, before) && AttemptEffect(size, factory, before, Again, after)
    ensures OnlyDeadDropped(first, after) && |after.idle| < |before.idle|
  {
    var k := |after.idle|;
    assert before.idle == first.idle[..k + 1] && after.idle == first.idle[..k];
    assert first.idle[k..] == [first.idle[k]] + first.idle[k + 1..];
    assert Members(first.idle[k..]) == {first.idle[k]} + Members(first.idle[k + 1..]);
  }

  lemma LastAttempt(size: nat, factory: Option<Conn>, first: Slots, before: Slots, a: Attempted, after: Slots)
    requires forall c :: c in first.idle ==> c in first.sessions
    requires OnlyDeadDropped(first, before) && AttemptEffect(size, factory, before, a, after) && !a.Again?
    ensures AcquireEffect(size, factory, first, if a.Lent? then Ok(a.conn) else Thrown, after)
  {
  }

  class DbPool {
    const size: nat
    var idle: seq<Conn>
    var total: int
    /** The sessions as the server holds them. */
    var sessions: map<Conn, Session>
    ghost var phases: map<Tid, Phase>

    constructor (size: nat)
      requires size > 0
      ensures Init(Model()) && this.size == size
    {
      this.size := size;
      idle, total, sessions := [], 0, map[];
      phases := map[];
    }

    ghost function Model(): Pool
      reads this
    {
      Pool(size, idle, total, phases, sessions)
    }

    ghost function Counted(): Slots
      reads this
    {
      Slots(idle, total, sessions)
    }

    /** The locked section of Acquire: reuse the connection at the back, or reserve a slot. */
    method TakeLocked(t: Tid) returns (reuse: Option<Conn>)
      requires HasCapacity(Model())
      modifies this
      ensures Model() == Take(old(Model()), t)
      ensures reuse == if old(idle) != [] then Some(old(idle)[|old(idle)| - 1]) else None
    {
      if idle != [] {
        var c := idle[|idle| - 1];
        idle := idle[..|idle| - 1];
        phases := phases[t := Checking(c)];
        return Some(c);
      }
      total := total + 1;
      phases := phases[t := Creating];
      return None;
    }

    /** Give the slot back under the lock, then notify. */
    method DropSlot(t: Tid) returns (ghost mid: Pool)
      requires PhaseOf(Model(), t).Dropping?
      modifies this
      ensures idle == old(idle) && sessions == old(sessions) && total == old(total) - 1
      ensures PhaseOf(Model(), t) == if old(PhaseOf(Model(), t)).after.Retry? then Retrying else Outside
      ensures ThreadStep(old(Model()), t, mid) && ThreadStep(mid, t, Model())
    {
      ghost var start, after := Model(), PhaseOf(Model(), t).after;
      total := total - 1;
      phases := phases[t := Signalling(after)];
      mid := Model();
      assert ThreadStep(start, t, mid) by {
        assert DropStep(start, t, mid);
      }
      NotifyOne(t);
    }

    ghost method NotifyOne(t: Tid)
      requires PhaseOf(Model(), t).Signalling?
      modifies this`phases
      ensures Notify(old(Model()), t, Model())
      ensures PhaseOf(Model(), t) == if old(PhaseOf(Model(), t)).after.Retry? then Retrying else Outside
    {
      ghost var start := Model();
      phases := phases[t := if PhaseOf(start, t).after.Retry? then Retrying else Outside];
      if w :| PhaseOf(start, w).Asleep? {
        phases := phases[w := Woken];
      }
    }

    /**
     Return a borrowed connection. It is pushed back clean, or dropped with its slot when it is dead or
     cannot be reset.
     */
    method Release(t: Tid, c: Conn, resetOk: bool) returns (ghost trace: seq<Pool>)
      requires PhaseOf(Model(), t) == Holding(c) && c in sessions
      modifies this
      ensures if old(sessions)[c].alive && (old(sessions)[c].autoCommit || resetOk)
        then idle == old(idle) + [c] && total == old(total)
          && sessions == old(sessions)[c := Session(true, true, old(sessions)[c].autoCommit && old(sessions)[c].openTx)]
        else idle == old(idle) && total == old(total) - 1 && sessions == old(sessions) - {c}
      ensures Path(trace, t, old(Model()), Model())
      ensures PhaseOf(Model(), t) == Outside
    {
      trace := [Model()];
      ghost var start := Model();
      phases := phases[t := Returning(c)];
      assert ThreadStep(start, t, Model()) by { assert GiveBack(start, t, Model()); }
      PathExtend(trace, t, old(Model()), start, Model());
      trace := trace + [Model()];
      ghost var returning := Model();
      if !sessions[c].alive || (!sessions[c].autoCommit && !resetOk) {
        sessions := sessions - {c};
        phases := phases[t := Dropping(Leave)];
        assert ThreadStep(returning, t, Model()) by { assert ReleaseStep(returning, t, Model()); }
        PathExtend(trace, t, old(Model()), returning, Model());
        trace := trace + [Model()];
        ghost var dropping := Model();
        ghost var mid := DropSlot(t);
        PathExtend(trace, t, old(Model()), dropping, mid);
        PathExtend(trace + [mid], t, old(Model()), mid, Model());
        trace := trace + [mid] + [Model()];
        return;
      }
      sessions := sessions[c := Restored(sessions[c])];
      idle := idle + [c];
      phases := phases[t := Signalling(Leave)];
      assert ThreadStep(returning, t, Model()) by { assert ReleaseStep(returning, t, Model()); }
      PathExtend(trace, t, old(Model()), returning, Model());
      trace := trace + [Model()];
      ghost var signalling := Model();
      NotifyOne(t);
      PathExtend(trace, t, old(Model()), signalling, Model());
      trace := trace + [Model()];
    }

    /** Nobody gives capacity back: the thread sleeps, its deadline stirs it, and Acquire throws. */
    ghost method WaitInVain(t: Tid, trace: seq<Pool>, first: Pool) returns (trace': seq<Pool>)
      requires Path(trace, t, first, Model()) && PhaseOf(Model(), t) in {Outside, Retrying} && !HasCapacity(Model())
      modifies this`phases
      ensures Path(trace', t, first, Model()) && PhaseOf(Model(), t) == Outside
    {
      var start := Model();
      phases := phases[t := Asleep];
      var asleep := Model();
      assert ThreadStep(start, t, asleep) by { assert Enter(start, t, asleep); }
      PathExtend(trace, t, first, start, asleep);
      phases := phases[t := Stirred(true)];
      var stirred := Model();
      assert ThreadStep(asleep, t, stirred) by { assert Stir(asleep, t, stirred); }
      PathExtend(trace + [asleep], t, first, asleep, stirred);
      phases := phases[t := Outside];
      assert ThreadStep(stirred, t, Model()) by { assert Resume(stirred, t, Model()); }
      PathExtend(trace + [asleep] + [stirred], t, first, stirred, Model());
      trace' := trace + [asleep] + [stirred] + [Model()];
    }

    /** The reused connection answered: lend it. */
    ghost method Lend(t: Tid, c: Conn, trace: seq<Pool>, first: Pool) returns (trace': seq<Pool>)
      requires Path(trace, t, first, Model()) && PhaseOf(Model(), t) == Checking(c) && c in sessions
        && sessions[c].alive
      modifies this`phases
      ensures Path(trace', t, first, Model()) && PhaseOf(Model(), t) == Holding(c)
    {
      var taken := Model();
      phases := phases[t := Holding(c)];
      assert ThreadStep(taken, t, Model()) by { assert Validate(taken, t, Model()); }
      PathExtend(trace, t, first, taken, Model());
      trace' := trace + [Model()];
    }

    /** Throw away a dead idle connection with its slot and go back to the top of Acquire. */
    method Discard(t: Tid, c: Conn, ghost trace: seq<Pool>, ghost first: Pool) returns (ghost trace': seq<Pool>)
      requires Path(trace, t, first, Model()) && Sound(Model())
      requires PhaseOf(Model(), t) == Checking(c) && c in sessions && !sessions[c].alive
      modifies this
      ensures idle == old(idle) && total == old(total) - 1 && sessions == old(sessions) - {c}
      ensures Path(trace', t, first, Model()) && PhaseOf(Model(), t) == Retrying && Sound(Model())
    {
      ghost var start := Model();
      sessions := sessions - {c};
      phases := phases[t := Dropping(Retry)];
      ghost var dropping := Model();
      assert ThreadStep(start, t, dropping) by { assert Validate(start, t, dropping); }
      SoundStep(start, t, dropping);
      PathExtend(trace, t, first, start, dropping);
      ghost var mid := DropSlot(t);
      SoundStep(dropping, t, mid);
      SoundStep(mid, t, Model());
      PathExtend(trace + [dropping], t, first, dropping, mid);
      PathExtend(trace + [dropping] + [mid], t, first, mid, Model());
      trace' := trace + [dropping] + [mid] + [Model()];
    }

    /** The reserved slot: a new connection, or a failure that gives the slot back. */
    method ConnectNow(t: Tid, factory: Option<Conn>, ghost trace: seq<Pool>, ghost first: Pool)
      returns (r: Outcome<Conn>, ghost trace': seq<Pool>)
      requires Path(trace, t, first, Model()) && PhaseOf(Model(), t) == Creating
      requires factory.Some? ==> factory.value !in sessions
      modifies this
      ensures idle == old(idle) && total == old(total) - (if r.Ok? then 0 else 1)
      ensures r == if factory.Some? then Ok(factory.value) else Thrown
      ensures r.Ok? ==>
        PhaseOf(Model(), t) == Holding(r.value) && sessions == old(sessions)[r.value := Session(true, true, false)]
      ensures r.Thrown? ==> PhaseOf(Model(), t) == Outside && sessions == old(sessions)
      ensures Path(trace', t, first, Model())
    {
      ghost var start := Model();
      if factory.Some? {
        sessions := sessions[factory.value := FRESH_SESSION];
        phases := phases[t := Holding(factory.value)];
        assert ThreadStep(start, t, Model()) by { assert Connect(start, t, Model()); }
        PathExtend(trace, t, first, start, Model());
        return Ok(factory.value), trace + [Model()];
      }
      phases := phases[t := Dropping(Leave)];
      ghost var dropping := Model();
      assert ThreadStep(start, t, dropping) by { assert Connect(start, t, dropping); }
      PathExtend(trace, t, first, start, dropping);
      ghost var mid := DropSlot(t);
      PathExtend(trace + [dropping], t, first, dropping, mid);
      PathExtend(trace + [dropping] + [mid], t, first, mid, Model());
      return Thrown, trace + [dropping] + [mid] + [Model()];
    }

    /** An iteration that finds an idle connection: it is lent if it answers, and thrown away if not. */
    method Reuse(t: Tid, ghost trace: seq<Pool>, ghost first: Pool) returns (a: Attempted, ghost trace': seq<Pool>)
      requires Path(trace, t, first, Model()) && PhaseOf(Model(), t) in {Outside, Retrying} && Sound(Model())
      requires idle != []
      modifies this
      ensures Path(trace', t, first, Model())
      ensures !a.Failed? && AttemptEffect(size, None, old(Counted()), a, Counted())
      ensures a.Lent? ==>
        PhaseOf(Model(), t) == Holding(a.conn) && a.conn in sessions && sessions[a.conn] == Session(true, true, false)
      ensures a.Again? ==> PhaseOf(Model(), t) == Retrying && Sound(Model())
    {
      ghost var start, before := Model(), Counted();
      var reuse := TakeLocked(t);
      TakeIsStep(start, t, trace, first);
      trace' := trace + [Model()];
      var c := reuse.value;
      if sessions[c].alive {
        LendingIsAttempt(size, before, c);
        trace' := Lend(t, c, trace', first);
        return Lent(c), trace';
      }
      DiscardingIsAttempt(size, before, c);
      trace' := Discard(t, c, trace', first);
      return Again, trace';
    }

    /** One iteration of Acquire's loop. */
    method Attempt(t: Tid, factory: Option<Conn>, ghost trace: seq<Pool>, ghost first: Pool)
      returns (a: Attempted, ghost trace': seq<Pool>)
      requires Path(trace, t, first, Model()) && PhaseOf(Model(), t) in {Outside, Retrying} && Sound(Model())
      requires factory.Some? ==> factory.value !in sessions
      modifies this
      ensures Path(trace', t, first, Model())
      ensures AttemptEffect(size, factory, old(Counted()), a, Counted())
      ensures a.Lent? ==>
        PhaseOf(Model(), t) == Holding(a.conn) && a.conn in sessions && sessions[a.conn] == Session(true, true, false)
      ensures a.Failed? ==> PhaseOf(Model(), t) == Outside
      ensures a.Again? ==> PhaseOf(Model(), t) == Retrying && Sound(Model())
    {
      if idle != [] {
        a, trace' := Reuse(t, trace, first);
        return;
      }
      if total >= size {
        trace' := WaitInVain(t, trace, first);
        return Failed, trace';
      }
      ghost var start := Model();
      var reuse := TakeLocked(t);
      TakeIsStep(start, t, trace, first);
      var r;
      r, trace' := ConnectNow(t, factory, trace + [Model()], first);
      return if r.Ok? then Lent(r.value) else Failed, trace';
    }

    /**
     Acquire with no other thread running, before its deadline. It lends the last idle connection that
     answers, having dropped the dead ones behind it; else it connects, if a slot is free. It takes at
     most |idle| + 1 iterations. `factory` is what the connection factory would return.
     */
    method Acquire(t: Tid, factory: Option<Conn>) returns (r: Outcome<Conn>, iterations: nat, ghost trace: seq<Pool>)
      requires PhaseOf(Model(), t) == Outside && Sound(Model()) && 0 <= total <= size
      requires factory.Some? ==> factory.value !in sessions
      modifies this
      ensures iterations <= |old(idle)| + 1
      ensures Path(trace, t, old(Model()), Model())
      ensures AcquireEffect(size, factory, old(Counted()), r, Counted())
      ensures r.Ok? ==> PhaseOf(Model(), t) == Holding(r.value)
      ensures r.Ok? ==> r.value in sessions && sessions[r.value] == Session(true, true, false)
      ensures r.Thrown? ==> PhaseOf(Model(), t) == Outside
    {
      trace := [Model()];
      iterations := 0;
      ghost var first, start := Model(), Counted();
      while true
        invariant iterations + |idle| == |start.idle|
        invariant Path(trace, t, first, Model())
        invariant PhaseOf(Model(), t) in {Outside, Retrying} && Sound(Model())
        invariant OnlyDeadDropped(start, Counted())
        decreases |idle|
      {
        iterations := iterations + 1;
        ghost var before := Counted();
        var a;
        a, trace := Attempt(t, factory, trace, first);
        if a.Again? {
          AgainDropsDead(size, factory, start, before, Counted());
        } else {
          LastAttempt(size, factory, start, before, a, Counted());
          return if a.Lent? then Ok(a.conn) else Thrown, iterations, trace;
        }
      }
    }
  }
}
