/**
 The connection pool as a protocol. Threads interleave at the granularity the source allows: each
 mutex-held section is one step, and everything done outside the mutex (validation, connecting,
 notify_one, the borrower's own SQL) is a step of its own.
 */
module PoolProtocol {
  import opened Sums

  type Tid = nat
  type Conn = nat

  /** A server session: whether it answers, and its transaction state. */
  datatype Session = Session(alive: bool, autoCommit: bool, openTx: bool)

  const FRESH_SESSION: Session := Session(true, true, false)

  /** Where a notification leaves its sender. */
  datatype After = Retry | Leave

  /**
   Where a thread is. `Asleep` waits on the condition variable; `Woken` has been notified and has not
   run yet; `Stirred` was woken by nobody (spuriously, or by its deadline); `Signalling` has unlocked
   and not yet called notify_one.
   */
  datatype Phase =
    | Outside
    | Asleep
    | Woken
    | Stirred(timedOut: bool)
    | Checking(conn: Conn)
    | Creating
    | Holding(conn: Conn)
    | Returning(conn: Conn)
    | Dropping(after: After)
    | Signalling(after: After)
    | Retrying

  datatype Pool = Pool(
    size: nat,
    idle: seq<Conn>,
    total: int,
    phases: map<Tid, Phase>,
    sessions: map<Conn, Session>)

  function PhaseOf(p: Pool, t: Tid): Phase {
    if t in p.phases then p.phases[t] else Outside
  }

  function At(p: Pool, t: Tid, ph: Phase): Pool {
    p.(phases := p.phases[t := ph])
  }

  ghost predicate Init(p: Pool) {
    p.size > 0 && p.idle == [] && p.total == 0 && p.phases == map[] && p.sessions == map[]
  }

  // ---- steps ----

  /** The wait predicate of Acquire. */
  predicate HasCapacity(p: Pool) {
    p.idle != [] || p.total < p.size
  }

  /** The locked part of Acquire once capacity is there: the last idle connection, or a new slot. */
  function Take(p: Pool, t: Tid): Pool {
    if p.idle != [] then
      At(p.(idle := p.idle[..|p.idle| - 1]), t, Checking(p.idle[|p.idle| - 1]))
    else
      At(p.(total := p.total + 1), t, Creating)
  }

  /** Enter Acquire or loop back to it: past the deadline it throws, else it takes or falls asleep. */
  ghost predicate Enter(p: Pool, t: Tid, p': Pool) {
    PhaseOf(p, t) in {Outside, Retrying}
    && (p' == At(p, t, Outside) || p' == if HasCapacity(p) then Take(p, t) else At(p, t, Asleep))
  }

  /** A waiter runs again: with capacity it takes whatever woke it, without it sleeps on or times out. */
  ghost predicate Resume(p: Pool, t: Tid, p': Pool) {
    && (PhaseOf(p, t).Woken? || PhaseOf(p, t).Stirred?)
    && p' == if HasCapacity(p) then Take(p, t)
             else if PhaseOf(p, t) == Stirred(true) then At(p, t, Outside)
             else At(p, t, Asleep)
  }

  ghost predicate Stir(p: Pool, t: Tid, p': Pool) {
    PhaseOf(p, t).Asleep? && (p' == At(p, t, Stirred(true)) || p' == At(p, t, Stirred(false)))
  }

  /** Validation of a reused connection, outside the lock. */
  ghost predicate Validate(p: Pool, t: Tid, p': Pool) {
    PhaseOf(p, t).Checking?
    && var c := PhaseOf(p, t).conn;
      c in p.sessions
      && p' == if p.sessions[c].alive then At(p, t, Holding(c)) else At(Forget(p, c), t, Dropping(Retry))
  }

  /** Destroy a session. */
  function Forget(p: Pool, c: Conn): Pool {
    p.(sessions := p.sessions - {c})
  }

  /** The connection factory: a fresh session, or a failure that gives the slot back and rethrows. */
  ghost predicate Connect(p: Pool, t: Tid, p': Pool) {
    PhaseOf(p, t).Creating?
    && (p' == At(p, t, Dropping(Leave))
        || exists c: Conn ::
             c !in p.sessions && p' == At(p.(sessions := p.sessions[c := FRESH_SESSION]), t, Holding(c)))
  }

  /** What SQL a borrower may issue: transactions are opened by work done with autocommit off. */
  ghost predicate SessionStep(s: Session, s': Session) {
    || s' == s.(autoCommit := false)
    || s' == s.(autoCommit := true, openTx := false)
    || s' == s.(openTx := !s.autoCommit)
    || s' == s.(openTx := false)
  }

  ghost predicate Use(p: Pool, t: Tid, p': Pool) {
    PhaseOf(p, t).Holding?
    && var c := PhaseOf(p, t).conn;
      c in p.sessions && exists s :: SessionStep(p.sessions[c], s) && p' == p.(sessions := p.sessions[c := s])
  }

  /** The server may drop any session at any time. */
  ghost predicate Break(p: Pool, c: Conn, p': Pool) {
    c in p.sessions && p' == p.(sessions := p.sessions[c := p.sessions[c].(alive := false)])
  }

  ghost predicate GiveBack(p: Pool, t: Tid, p': Pool) {
    PhaseOf(p, t).Holding? && p' == At(p, t, Returning(PhaseOf(p, t).conn))
  }

  /** Release: roll back and restore autocommit, then either push the connection or drop it. */
  ghost predicate ReleaseStep(p: Pool, t: Tid, p': Pool) {
    PhaseOf(p, t).Returning?
    && var c := PhaseOf(p, t).conn;
      c in p.sessions && (
        || p' == At(Forget(p, c), t, Dropping(Leave))
        || (p.sessions[c].alive
            && p' == At(p.(idle := p.idle + [c], sessions := p.sessions[c := Restored(p.sessions[c])]), t,
                        Signalling(Leave))))
  }

  function Restored(s: Session): Session {
    if s.autoCommit then s else s.(openTx := false, autoCommit := true)
  }

  /** The locked part of DropSlot. */
  ghost predicate DropStep(p: Pool, t: Tid, p': Pool) {
    PhaseOf(p, t).Dropping? && p' == At(p.(total := p.total - 1), t, Signalling(PhaseOf(p, t).after))
  }

  /** notify_one: some sleeper is woken, if there is one. */
  ghost predicate Notify(p: Pool, t: Tid, p': Pool) {
    PhaseOf(p, t).Signalling?
    && var gone := At(p, t, if PhaseOf(p, t).after.Retry? then Retrying else Outside);
      if exists w :: PhaseOf(p, w).Asleep?
      then exists w :: PhaseOf(p, w).Asleep? && p' == At(gone, w, Woken)
      else p' == gone
  }

  ghost predicate ThreadStep(p: Pool, t: Tid, p': Pool) {
    || Enter(p, t, p') || Resume(p, t, p') || Stir(p, t, p') || Validate(p, t, p') || Connect(p, t, p')
    || Use(p, t, p') || GiveBack(p, t, p') || ReleaseStep(p, t, p') || DropStep(p, t, p') || Notify(p, t, p')
  }

  ghost predicate Next(p: Pool, p': Pool) {
    (exists t: Tid :: ThreadStep(p, t, p')) || (exists c: Conn :: Break(p, c, p'))
  }

  ghost predicate IsRun(run: seq<Pool>) {
    |run| > 0 && Init(run[0]) && forall i :: 0 <= i < |run| - 1 ==> Next(run[i], run[i + 1])
  }

  // ---- what holds in every reachable state ----

  /** A phase that keeps one slot of the pool occupied. */
  function SlotWeight(ph: Phase): int {
    if ph.Checking? || ph.Creating? || ph.Holding? || ph.Returning? || ph.Dropping? then 1 else 0
  }

  /** A wakeup under way: a notified waiter that has not run, or a thread about to notify. */
  function WakeWeight(ph: Phase): int {
    if ph.Woken? || ph.Signalling? then 1 else 0
  }

  ghost function Slots(): (Tid, Phase) -> int {
    (t, ph) => SlotWeight(ph)
  }

  ghost function Wakes(): (Tid, Phase) -> int {
    (t, ph) => WakeWeight(ph)
  }

  ghost function Occupied(p: Pool): int {
    Total(p.phases, Slots())
  }

  ghost function PendingWakes(p: Pool): int {
    Total(p.phases, Wakes())
  }

  /** Idle connections plus unused slots. */
  function FreeCapacity(p: Pool): int {
    |p.idle| + (p.size - p.total)
  }

  ghost predicate SomeoneAsleep(p: Pool) {
    exists w :: PhaseOf(p, w).Asleep?
  }

  /** Every occupied slot is accounted for. */
  ghost predicate SlotsBalance(p: Pool) {
    p.total == |p.idle| + Occupied(p) && 0 <= p.total <= p.size
  }

  /** A sleeper is only left un-notified while wakeups cover all free capacity. */
  ghost predicate NoLostWakeup(p: Pool) {
    SomeoneAsleep(p) ==> FreeCapacity(p) <= PendingWakes(p)
  }

  /** A phase that has a connection in hand. */
  predicate Owning(ph: Phase) {
    ph.Checking? || ph.Holding? || ph.Returning?
  }

  predicate Owns(ph: Phase, c: Conn) {
    Owning(ph) && ph.conn == c
  }

  ghost predicate HasOwner(p: Pool, c: Conn) {
    c in p.idle || exists t :: Owns(PhaseOf(p, t), c)
  }

  /** At least one owner: an open session is idle or with some thread. */
  ghost predicate NoOrphan(p: Pool) {
    forall c :: c in p.sessions ==> HasOwner(p, c)
  }

  /** At most one owner: each connection is idle once or with one thread, never both, and has a session. */
  ghost predicate OneOwner(p: Pool) {
    && (forall i, j :: 0 <= i < j < |p.idle| ==> p.idle[i] != p.idle[j])
    && (forall i :: 0 <= i < |p.idle| ==> p.idle[i] in p.sessions)
    && (forall t, c :: Owns(PhaseOf(p, t), c) ==> c in p.sessions && c !in p.idle)
    && (forall t, u, c :: Owns(PhaseOf(p, t), c) && Owns(PhaseOf(p, u), c) ==> t == u)
  }

  /** With autocommit on there is no open transaction; idle and just-taken connections have it on. */
  ghost predicate Clean(p: Pool) {
    && (forall c :: c in p.sessions && p.sessions[c].autoCommit ==> !p.sessions[c].openTx)
    && (forall i :: 0 <= i < |p.idle| ==> p.idle[i] in p.sessions && p.sessions[p.idle[i]].autoCommit)
    && (forall t :: PhaseOf(p, t).Checking? ==>
        PhaseOf(p, t).conn in p.sessions && p.sessions[PhaseOf(p, t).conn].autoCommit)
  }

  ghost predicate Inv(p: Pool) {
    SlotsBalance(p) && NoLostWakeup(p) && Sound(p)
  }

  // ---- counting ----

  lemma Moved(p: Pool, t: Tid, ph: Phase)
    ensures Occupied(At(p, t, ph)) == Occupied(p) - SlotWeight(PhaseOf(p, t)) + SlotWeight(ph)
    ensures PendingWakes(At(p, t, ph)) == PendingWakes(p) - WakeWeight(PhaseOf(p, t)) + WakeWeight(ph)
  {
    TotalUpdate(p.phases, Slots(), t, ph);
    TotalUpdate(p.phases, Wakes(), t, ph);
  }

  lemma CountsNonNegative(p: Pool)
    ensures 0 <= Occupied(p) && 0 <= PendingWakes(p)
  {
    TotalNonNegative(p.phases, Slots());
    TotalNonNegative(p.phases, Wakes());
  }

  // ---- slots and wakeups ----

  /**
   What a step other than a notification does to the counts: it moves one thread, a slot changes hands
   between that thread, the idle list and `total`, and capacity is only freed by a thread that becomes
   a notifier.
   */
  ghost predicate Exchange(p: Pool, t: Tid, p': Pool) {
    var ph, ph' := PhaseOf(p, t), PhaseOf(p', t);
    && p'.phases == At(p, t, ph').phases && p'.size == p.size
    && p'.total - |p'.idle| - SlotWeight(ph') == p.total - |p.idle| - SlotWeight(ph)
    && p'.total <= p.size
    && if ph'.Asleep? then FreeCapacity(p') <= 0
       else FreeCapacity(p') - WakeWeight(ph') <= FreeCapacity(p) - WakeWeight(ph)
  }

  lemma BorrowExchanges(p: Pool, t: Tid, p': Pool)
    requires p.total <= p.size && (Enter(p, t, p') || Resume(p, t, p'))
    ensures Exchange(p, t, p')
  {
  }

  lemma SessionStepExchanges(p: Pool, t: Tid, p': Pool)
    requires p.total <= p.size && (Validate(p, t, p') || Connect(p, t, p') || Use(p, t, p'))
    ensures Exchange(p, t, p')
  {
    if Use(p, t, p') {
      assert p'.phases == At(p, t, PhaseOf(p, t)).phases;
    }
  }

  lemma ReturnExchanges(p: Pool, t: Tid, p': Pool)
    requires p.total <= p.size && (Stir(p, t, p') || GiveBack(p, t, p') || ReleaseStep(p, t, p') || DropStep(p, t, p'))
    ensures Exchange(p, t, p')
  {
  }

  lemma ExchangeKeepsCounts(p: Pool, t: Tid, p': Pool)
    requires SlotsBalance(p) && NoLostWakeup(p) && Exchange(p, t, p')
    ensures SlotsBalance(p') && NoLostWakeup(p')
  {
    var ph := PhaseOf(p', t);
    CountsNonNegative(p');
    Moved(p, t, ph);
    if SomeoneAsleep(p') && !ph.Asleep? {
      var w :| PhaseOf(p', w).Asleep?;
      assert PhaseOf(p, w).Asleep?;
    }
  }

  /** A notification hands its pending wakeup to a sleeper, or finds nobody asleep. */
  lemma NotifyKeepsCounts(p: Pool, t: Tid, p': Pool)
    requires SlotsBalance(p) && NoLostWakeup(p) && Notify(p, t, p')
    ensures SlotsBalance(p') && NoLostWakeup(p')
  {
    var next := if PhaseOf(p, t).after.Retry? then Retrying else Outside;
    var gone := At(p, t, next);
    Moved(p, t, next);
    if SomeoneAsleep(p) {
      var w :| PhaseOf(p, w).Asleep? && p' == At(gone, w, Woken);
      assert PhaseOf(gone, w).Asleep?;
      Moved(gone, w, Woken);
    } else {
      assert forall w :: PhaseOf(gone, w).Asleep? ==> PhaseOf(p, w).Asleep?;
    }
  }

  lemma CountsStep(p: Pool, t: Tid, p': Pool)
    requires SlotsBalance(p) && NoLostWakeup(p) && ThreadStep(p, t, p')
    ensures SlotsBalance(p') && NoLostWakeup(p')
  {
    if Notify(p, t, p') {
      NotifyKeepsCounts(p, t, p');
    } else {
      if Enter(p, t, p') || Resume(p, t, p') {
        BorrowExchanges(p, t, p');
      } else if Validate(p, t, p') || Connect(p, t, p') || Use(p, t, p') {
        SessionStepExchanges(p, t, p');
      } else {
        ReturnExchanges(p, t, p');
      }
      ExchangeKeepsCounts(p, t, p');
    }
  }

  // ---- ownership ----

  ghost predicate Safe(p: Pool) {
    OneOwner(p) && Clean(p)
  }

  /** Moving a thread to a phase that owns no more than before. */
  lemma MoveSafe(p: Pool, t: Tid, ph: Phase)
    requires Safe(p)
    requires forall c :: Owns(ph, c) ==> Owns(PhaseOf(p, t), c)
    requires ph.Checking? ==> PhaseOf(p, t).Checking?
    ensures Safe(At(p, t, ph))
  {
    var p' := At(p, t, ph);
    assert forall u, c :: Owns(PhaseOf(p', u), c) ==> Owns(PhaseOf(p, u), c);
    assert ph.Checking? ==> Owns(ph, ph.conn);
    forall u | PhaseOf(p', u).Checking? ensures PhaseOf(p', u) == PhaseOf(p, u) {
    }
  }

  lemma TakeSafe(p: Pool, t: Tid)
    requires Safe(p) && HasCapacity(p) && forall c :: !Owns(PhaseOf(p, t), c)
    ensures Safe(Take(p, t))
  {
    var p' := Take(p, t);
    if p.idle != [] {
      var c := p.idle[|p.idle| - 1];
      assert c !in p'.idle;
      assert c in p.idle;
      forall u | u != t ensures PhaseOf(p', u) == PhaseOf(p, u) {
      }
      forall u | u != t ensures !Owns(PhaseOf(p, u), c) {
      }
      forall u, d | Owns(PhaseOf(p', u), d) ensures if u == t then d == c else Owns(PhaseOf(p, u), d) {
      }
      forall d | d in p'.idle ensures d in p.idle {
      }
    } else {
      MoveSafe(p, t, Creating);
      assert forall u :: PhaseOf(p', u) == PhaseOf(At(p, t, Creating), u);
    }
  }

  /** Destroying the stepping thread's own connection. */
  lemma ForgetSafe(p: Pool, t: Tid, c: Conn, ph: Phase)
    requires Safe(p) && Owns(PhaseOf(p, t), c) && forall d :: !Owns(ph, d)
    ensures Safe(At(Forget(p, c), t, ph))
  {
    var p' := At(Forget(p, c), t, ph);
    forall u, d | Owns(PhaseOf(p', u), d) ensures Owns(PhaseOf(p, u), d) && d != c && u != t {
    }
    forall i | 0 <= i < |p.idle| ensures p.idle[i] != c {
      assert p.idle[i] in p.idle;
    }
    forall u | PhaseOf(p', u).Checking? ensures Owns(PhaseOf(p', u), PhaseOf(p', u).conn) {
    }
  }

  lemma ConnectSafe(p: Pool, t: Tid, c: Conn)
    requires Safe(p) && c !in p.sessions
    ensures Safe(At(p.(sessions := p.sessions[c := FRESH_SESSION]), t, Holding(c)))
  {
    var p' := At(p.(sessions := p.sessions[c := FRESH_SESSION]), t, Holding(c));
    forall u, d | Owns(PhaseOf(p', u), d) && u != t ensures Owns(PhaseOf(p, u), d) && d != c {
    }
    forall u | PhaseOf(p', u).Checking? ensures PhaseOf(p, u) == PhaseOf(p', u) && PhaseOf(p, u).conn != c {
    }
  }

  /** SQL of one borrower touches no session but its own, which is neither idle nor being checked. */
  lemma UseSafe(p: Pool, t: Tid, c: Conn, s: Session)
    requires Safe(p) && PhaseOf(p, t) == Holding(c) && c in p.sessions && SessionStep(p.sessions[c], s)
    ensures Safe(p.(sessions := p.sessions[c := s]))
  {
    var p' := p.(sessions := p.sessions[c := s]);
    assert Owns(PhaseOf(p, t), c);
    forall i | 0 <= i < |p.idle| ensures p.idle[i] != c {
      assert p.idle[i] in p.idle;
    }
    forall u | PhaseOf(p, u).Checking? ensures PhaseOf(p, u).conn != c {
      assert Owns(PhaseOf(p, u), PhaseOf(p, u).conn);
    }
    assert forall u :: PhaseOf(p', u) == PhaseOf(p, u);
  }

  lemma PushSafe(p: Pool, t: Tid, c: Conn)
    requires Safe(p) && PhaseOf(p, t) == Returning(c) && c in p.sessions
    ensures Safe(At(p.(idle := p.idle + [c], sessions := p.sessions[c := Restored(p.sessions[c])]), t,
                     Signalling(Leave)))
  {
    var p' := At(p.(idle := p.idle + [c], sessions := p.sessions[c := Restored(p.sessions[c])]), t, Signalling(Leave));
    assert Owns(PhaseOf(p, t), c);
    forall u, d | Owns(PhaseOf(p', u), d) ensures Owns(PhaseOf(p, u), d) && d != c && u != t {
    }
    forall i | 0 <= i < |p.idle| ensures p.idle[i] != c {
      assert p.idle[i] in p.idle;
    }
    forall u | PhaseOf(p', u).Checking? ensures Owns(PhaseOf(p', u), PhaseOf(p', u).conn) {
    }
  }

  /** Steps that create, use or destroy the session of the stepping thread. */
  lemma SessionSafe(p: Pool, t: Tid, p': Pool)
    requires Safe(p) && (Connect(p, t, p') || Use(p, t, p'))
    ensures Safe(p')
  {
    var ph := PhaseOf(p, t);
    if Connect(p, t, p') {
      MoveSafe(p, t, Dropping(Leave));
      if p' != At(p, t, Dropping(Leave)) {
        var c: Conn :| c !in p.sessions && p' == At(p.(sessions := p.sessions[c := FRESH_SESSION]), t, Holding(c));
        ConnectSafe(p, t, c);
      }
    } else {
      var s :| SessionStep(p.sessions[ph.conn], s) && p' == p.(sessions := p.sessions[ph.conn := s]);
      UseSafe(p, t, ph.conn, s);
    }
  }

  lemma ReturnSafe(p: Pool, t: Tid, p': Pool)
    requires Safe(p) && (Validate(p, t, p') || ReleaseStep(p, t, p') || DropStep(p, t, p'))
    ensures Safe(p')
  {
    var ph := PhaseOf(p, t);
    if Validate(p, t, p') {
      MoveSafe(p, t, Holding(ph.conn));
      ForgetSafe(p, t, ph.conn, Dropping(Retry));
    } else if ReleaseStep(p, t, p') {
      ForgetSafe(p, t, ph.conn, Dropping(Leave));
      PushSafe(p, t, ph.conn);
    } else {
      var moved := At(p, t, Signalling(ph.after));
      MoveSafe(p, t, Signalling(ph.after));
      assert p' == moved.(total := p.total - 1);
      assert forall u :: PhaseOf(p', u) == PhaseOf(moved, u);
    }
  }

  lemma SafeStep(p: Pool, t: Tid, p': Pool)
    requires Safe(p) && ThreadStep(p, t, p')
    ensures Safe(p')
  {
    if Enter(p, t, p') || Resume(p, t, p') {
      if HasCapacity(p) { TakeSafe(p, t); }
      MoveSafe(p, t, Outside);
      MoveSafe(p, t, Asleep);
    } else if Stir(p, t, p') || GiveBack(p, t, p') {
      MoveSafe(p, t, PhaseOf(p', t));
    } else if Connect(p, t, p') || Use(p, t, p') {
      SessionSafe(p, t, p');
    } else if Notify(p, t, p') {
      NotifySafe(p, t, p');
    } else {
      ReturnSafe(p, t, p');
    }
  }

  lemma NotifySafe(p: Pool, t: Tid, p': Pool)
    requires Safe(p) && Notify(p, t, p')
    ensures Safe(p')
  {
    var next := if PhaseOf(p, t).after.Retry? then Retrying else Outside;
    var gone := At(p, t, next);
    MoveSafe(p, t, next);
    if SomeoneAsleep(p) {
      var w :| PhaseOf(p, w).Asleep? && p' == At(gone, w, Woken);
      MoveSafe(gone, w, Woken);
    }
  }

  lemma BreakSafe(p: Pool, c: Conn, p': Pool)
    requires Safe(p) && Break(p, c, p')
    ensures Safe(p')
  {
    assert forall u :: PhaseOf(p', u) == PhaseOf(p, u);
  }

  // ---- no session is left behind ----

  /**
   A step leaves no orphan if each connection that was idle or owned still has an owner or no session, and
   each new session has one.
   */
  lemma OwnersPassOn(p: Pool, p': Pool)
    requires NoOrphan(p)
    requires forall c :: c in p'.sessions ==> c in p.sessions || HasOwner(p', c)
    requires forall c :: c in p.idle && c in p'.sessions ==> HasOwner(p', c)
    requires forall t, c :: Owns(PhaseOf(p, t), c) && c in p'.sessions ==> HasOwner(p', c)
    ensures NoOrphan(p')
  {
    forall c | c in p'.sessions ensures HasOwner(p', c) {
      if c in p.sessions {
        assert HasOwner(p, c);
      }
    }
  }

  /** One thread moves, and passes on what it owned or closes it. */
  lemma OneThreadPassesOn(p: Pool, t: Tid, p': Pool)
    requires NoOrphan(p) && forall u :: u != t ==> PhaseOf(p', u) == PhaseOf(p, u)
    requires forall c :: c in p'.sessions ==> c in p.sessions || HasOwner(p', c)
    requires forall c :: c in p.idle && c in p'.sessions ==> HasOwner(p', c)
    requires forall c :: Owns(PhaseOf(p, t), c) && c in p'.sessions ==> HasOwner(p', c)
    ensures NoOrphan(p')
  {
    forall u, c | Owns(PhaseOf(p, u), c) && c in p'.sessions ensures HasOwner(p', c) {
      if u != t {
        assert Owns(PhaseOf(p', u), c);
      }
    }
    OwnersPassOn(p, p');
  }

  /** A thread that keeps what it has in hand, while idle connections stay idle. */
  lemma KeptInHand(p: Pool, t: Tid, p': Pool)
    requires NoOrphan(p) && forall u :: u != t ==> PhaseOf(p', u) == PhaseOf(p, u)
    requires p'.idle == p.idle && p'.sessions.Keys == p.sessions.Keys
    requires forall c :: Owns(PhaseOf(p, t), c) ==> Owns(PhaseOf(p', t), c)
    ensures NoOrphan(p')
  {
    forall c | Owns(PhaseOf(p, t), c) ensures HasOwner(p', c) {
      assert Owns(PhaseOf(p', t), c);
    }
    OneThreadPassesOn(p, t, p');
  }

  lemma TakeLeavesNone(p: Pool, t: Tid)
    requires NoOrphan(p) && HasCapacity(p) && !Owning(PhaseOf(p, t))
    ensures NoOrphan(Take(p, t))
  {
    var p' := Take(p, t);
    forall c | c in p.idle ensures HasOwner(p', c) {
      assert c in p'.idle || Owns(PhaseOf(p', t), c);
    }
    OneThreadPassesOn(p, t, p');
  }

  lemma BorrowLeavesNone(p: Pool, t: Tid, p': Pool)
    requires NoOrphan(p) && (Enter(p, t, p') || Resume(p, t, p'))
    ensures NoOrphan(p')
  {
    if HasCapacity(p) && p' == Take(p, t) {
      TakeLeavesNone(p, t);
    } else {
      KeptInHand(p, t, p');
    }
  }

  lemma ConnectLeavesNone(p: Pool, t: Tid, p': Pool)
    requires NoOrphan(p) && Connect(p, t, p')
    ensures NoOrphan(p')
  {
    forall c | c in p'.sessions && c !in p.sessions ensures HasOwner(p', c) {
      assert Owns(PhaseOf(p', t), c);
    }
    forall c | c in p.idle ensures HasOwner(p', c) {
    }
    OneThreadPassesOn(p, t, p');
  }

  lemma ReleaseLeavesNone(p: Pool, t: Tid, p': Pool)
    requires NoOrphan(p) && ReleaseStep(p, t, p')
    ensures NoOrphan(p')
  {
    forall c | c in p.idle ensures HasOwner(p', c) {
      assert c in p'.idle;
    }
    var mine := PhaseOf(p, t).conn;
    if mine in p'.sessions {
      assert p'.idle[|p'.idle| - 1] == mine;
    }
    OneThreadPassesOn(p, t, p');
  }

  lemma ValidateLeavesNone(p: Pool, t: Tid, p': Pool)
    requires NoOrphan(p) && Validate(p, t, p')
    ensures NoOrphan(p')
  {
    forall c | c in p.idle ensures HasOwner(p', c) {
    }
    forall c | Owns(PhaseOf(p, t), c) && c in p'.sessions ensures HasOwner(p', c) {
      assert Owns(PhaseOf(p', t), c);
    }
    OneThreadPassesOn(p, t, p');
  }

  /** A notification wakes a sleeper, who has nothing in hand either. */
  lemma NotifyLeavesNone(p: Pool, t: Tid, p': Pool)
    requires NoOrphan(p) && Notify(p, t, p')
    ensures NoOrphan(p')
  {
    var gone := At(p, t, if PhaseOf(p, t).after.Retry? then Retrying else Outside);
    KeptInHand(p, t, gone);
    if SomeoneAsleep(p) {
      var w :| PhaseOf(p, w).Asleep? && p' == At(gone, w, Woken);
      KeptInHand(gone, w, p');
    }
  }

  /** Every step of a thread keeps every open session idle or owned. */
  lemma StepLeavesNone(p: Pool, t: Tid, p': Pool)
    requires NoOrphan(p) && ThreadStep(p, t, p')
    ensures NoOrphan(p')
  {
    if Enter(p, t, p') || Resume(p, t, p') {
      BorrowLeavesNone(p, t, p');
    } else if Connect(p, t, p') {
      ConnectLeavesNone(p, t, p');
    } else if ReleaseStep(p, t, p') {
      ReleaseLeavesNone(p, t, p');
    } else if Validate(p, t, p') {
      ValidateLeavesNone(p, t, p');
    } else if Notify(p, t, p') {
      NotifyLeavesNone(p, t, p');
    } else {
      KeptInHand(p, t, p');
    }
  }

  lemma BreakLeavesNone(p: Pool, c: Conn, p': Pool)
    requires NoOrphan(p) && Break(p, c, p')
    ensures NoOrphan(p')
  {
    assert forall t :: PhaseOf(p', t) == PhaseOf(p, t);
    KeptInHand(p, 0, p');
  }

  // ---- ownership as a whole ----

  /** Each open session has exactly one owner, the idle list or a thread, and what is idle is clean. */
  ghost predicate Sound(p: Pool) {
    Safe(p) && NoOrphan(p)
  }

  lemma TakeSound(p: Pool, t: Tid)
    requires Sound(p) && HasCapacity(p) && !Owning(PhaseOf(p, t))
    ensures Sound(Take(p, t))
  {
    TakeSafe(p, t);
    TakeLeavesNone(p, t);
  }

  lemma SoundStep(p: Pool, t: Tid, p': Pool)
    requires Sound(p) && ThreadStep(p, t, p')
    ensures Sound(p')
  {
    SafeStep(p, t, p');
    StepLeavesNone(p, t, p');
  }

  lemma BreakSound(p: Pool, c: Conn, p': Pool)
    requires Sound(p) && Break(p, c, p')
    ensures Sound(p')
  {
    BreakSafe(p, c, p');
    BreakLeavesNone(p, c, p');
  }

  // ---- runs ----

  lemma StepKeepsInv(p: Pool, p': Pool)
    requires Inv(p) && Next(p, p')
    ensures Inv(p')
  {
    if t: Tid :| ThreadStep(p, t, p') {
      CountsStep(p, t, p');
      SoundStep(p, t, p');
    } else {
      var c: Conn :| Break(p, c, p');
      BreakSound(p, c, p');
      assert forall u :: PhaseOf(p', u) == PhaseOf(p, u);
    }
  }

  /** Every reachable state, under timeouts, spurious wakes, failed connects and barging threads. */
  lemma {:induction false} ReachableInv(run: seq<Pool>, n: nat)
    requires IsRun(run) && n < |run|
    ensures Inv(run[n])
  {
    if n > 0 {
      ReachableInv(run, n - 1);
      assert Next(run[n - 1], run[n - 1 + 1]);
      StepKeepsInv(run[n - 1], run[n]);
    }
  }

  /** A sleeper can only be kept waiting beside free capacity while some thread is about to wake or to notify. */
  lemma SleeperIsCovered(run: seq<Pool>, n: nat)
    requires IsRun(run) && n < |run|
    requires SomeoneAsleep(run[n]) && FreeCapacity(run[n]) > 0
    ensures exists t :: PhaseOf(run[n], t).Woken? || PhaseOf(run[n], t).Signalling?
  {
    var p := run[n];
    ReachableInv(run, n);
    if forall t :: !(PhaseOf(p, t).Woken? || PhaseOf(p, t).Signalling?) {
      forall t | t in p.phases ensures Wakes()(t, p.phases[t]) == 0 {
        assert PhaseOf(p, t) == p.phases[t];
      }
      TotalZero(p.phases, Wakes());
    }
  }

  /** An idle connection answers to no thread, has autocommit on and no transaction open. */
  lemma IdleIsClean(run: seq<Pool>, n: nat, i: nat)
    requires IsRun(run) && n < |run| && i < |run[n].idle|
    ensures var c := run[n].idle[i];
      c in run[n].sessions && run[n].sessions[c].autoCommit && !run[n].sessions[c].openTx
      && forall t :: !Owns(PhaseOf(run[n], t), c)
  {
    ReachableInv(run, n);
    assert run[n].idle[i] in run[n].idle;
  }

  // ---- in what state a session changes hands ----

  /** A thread's own step brings a connection into its hands only by validating or making it. */
  lemma LentByOwnStep(p: Pool, t: Tid, p': Pool)
    requires ThreadStep(p, t, p') && !Notify(p, t, p')
    ensures !PhaseOf(p, t).Holding? && PhaseOf(p', t).Holding? ==> Validate(p, t, p') || Connect(p, t, p')
    ensures forall u :: u != t ==> PhaseOf(p', u) == PhaseOf(p, u)
  {
    if Enter(p, t, p') || Resume(p, t, p') {
      assert !PhaseOf(p', t).Holding?;
    } else if Stir(p, t, p') || GiveBack(p, t, p') || DropStep(p, t, p') {
      assert !PhaseOf(p', t).Holding?;
    } else if ReleaseStep(p, t, p') {
      assert !PhaseOf(p', t).Holding?;
    }
  }

  /** A notification brings nobody a connection. */
  lemma NotifyLendsNone(p: Pool, t: Tid, p': Pool, u: Tid)
    requires Notify(p, t, p')
    ensures PhaseOf(p', u).Holding? ==> PhaseOf(p, u).Holding?
  {
    if SomeoneAsleep(p) {
      var gone := At(p, t, if PhaseOf(p, t).after.Retry? then Retrying else Outside);
      var w :| PhaseOf(p, w).Asleep? && p' == At(gone, w, Woken);
    }
  }

  /** Only a validated connection or a new one comes into a borrower's hands. */
  lemma LentByStep(p: Pool, p': Pool, t: Tid)
    requires Next(p, p')
    ensures !PhaseOf(p, t).Holding? && PhaseOf(p', t).Holding? ==> Validate(p, t, p') || Connect(p, t, p')
  {
    if u: Tid :| ThreadStep(p, u, p') {
      if Notify(p, u, p') {
        NotifyLendsNone(p, u, p', t);
      } else {
        LentByOwnStep(p, u, p');
      }
    } else {
      var c: Conn :| Break(p, c, p');
      assert PhaseOf(p', t) == PhaseOf(p, t);
    }
  }

  /** A session that is lent answers, commits by itself and has no transaction open. */
  lemma LentIsFresh(run: seq<Pool>, n: nat, t: Tid)
    requires IsRun(run) && n + 1 < |run|
    requires !PhaseOf(run[n], t).Holding? && PhaseOf(run[n + 1], t).Holding?
    ensures var c := PhaseOf(run[n + 1], t).conn;
      c in run[n + 1].sessions && run[n + 1].sessions[c] == Session(true, true, false)
  {
    var p, p' := run[n], run[n + 1];
    ReachableInv(run, n);
    assert Next(p, p');
    LentByStep(p, p', t);
  }

  /** A connection enters the idle list only when its borrower returns it. */
  lemma IdleByThread(p: Pool, t: Tid, p': Pool, c: Conn)
    requires ThreadStep(p, t, p')
    ensures c in p'.idle ==> c in p.idle || (PhaseOf(p, t) == Returning(c) && ReleaseStep(p, t, p'))
  {
    if Enter(p, t, p') || Resume(p, t, p') {
      assert p'.idle <= p.idle;
    } else if !ReleaseStep(p, t, p') {
      assert p'.idle == p.idle;
    }
  }

  /** So does a session that becomes idle, whatever its borrower left behind. */
  lemma ReturnedIsFresh(run: seq<Pool>, n: nat, c: Conn)
    requires IsRun(run) && n + 1 < |run| && c !in run[n].idle && c in run[n + 1].idle
    ensures c in run[n + 1].sessions && run[n + 1].sessions[c] == Session(true, true, false)
  {
    var p, p' := run[n], run[n + 1];
    ReachableInv(run, n);
    assert Next(p, p');
    assert forall d: Conn :: Break(p, d, p') ==> p'.idle == p.idle;
    var t: Tid :| ThreadStep(p, t, p');
    IdleByThread(p, t, p', c);
  }

  /** A waiter is sent away only past its deadline, with no connection idle and every slot in use. */
  lemma TimeoutMeansFull(run: seq<Pool>, n: nat, t: Tid)
    requires IsRun(run) && n + 1 < |run|
    requires (PhaseOf(run[n], t).Woken? || PhaseOf(run[n], t).Stirred?) && PhaseOf(run[n + 1], t) == Outside
    ensures PhaseOf(run[n], t) == Stirred(true) && run[n].idle == [] && run[n].total == run[n].size
  {
    var p, p' := run[n], run[n + 1];
    ReachableInv(run, n);
    assert Next(p, p');
    assert forall c: Conn :: Break(p, c, p') ==> p'.phases == p.phases;
    var u: Tid :| ThreadStep(p, u, p');
    if Notify(p, u, p') {
      NotifyWakes(p, u, p', t);
    } else {
      LentByOwnStep(p, u, p');
    }
    assert Resume(p, t, p');
  }

  lemma NotifyWakes(p: Pool, t: Tid, p': Pool, u: Tid)
    requires Notify(p, t, p')
    ensures u != t ==> PhaseOf(p', u) == PhaseOf(p, u) || PhaseOf(p', u) == Woken
  {
    if SomeoneAsleep(p) {
      var gone := At(p, t, if PhaseOf(p, t).after.Retry? then Retrying else Outside);
      var w :| PhaseOf(p, w).Asleep? && p' == At(gone, w, Woken);
    }
  }

  // ---- counting sessions ----

  /** A slot whose connection is not there yet, or not there any more. */
  function ReserveWeight(ph: Phase): int {
    if ph.Creating? || ph.Dropping? then 1 else 0
  }

  ghost function Reserves(): (Tid, Phase) -> int {
    (t, ph) => ReserveWeight(ph)
  }

  ghost function Owners(): (Tid, Phase) -> int {
    (t, ph) => if Owning(ph) then 1 else 0
  }

  /** Slots held without a connection. */
  ghost function Reserved(p: Pool): int {
    Total(p.phases, Reserves())
  }

  function ConnsOf(phases: map<Tid, Phase>): set<Conn> {
    set t | t in phases && Owning(phases[t]) :: phases[t].conn
  }

  ghost predicate OwnApart(phases: map<Tid, Phase>) {
    forall t, u :: t in phases && u in phases && Owning(phases[t]) && Owning(phases[u]) && t != u ==>
      phases[t].conn != phases[u].conn
  }

  lemma ConnsWithout(phases: map<Tid, Phase>, t: Tid)
    requires t in phases
    ensures ConnsOf(phases) == ConnsOf(phases - {t}) + if Owning(phases[t]) then {phases[t].conn} else {}
  {
    var rest := phases - {t};
    forall c | c in ConnsOf(phases) && !Owns(phases[t], c) ensures c in ConnsOf(rest) {
      var u :| u in phases && Owning(phases[u]) && phases[u].conn == c;
      assert u in rest && Owning(rest[u]) && rest[u].conn == c;
    }
    forall c | c in ConnsOf(rest) ensures c in ConnsOf(phases) {
      var u :| u in rest && Owning(rest[u]) && rest[u].conn == c;
      assert u in phases && Owning(phases[u]) && phases[u].conn == c;
    }
  }

  lemma ConnsOneMore(phases: map<Tid, Phase>, t: Tid)
    requires OwnApart(phases) && t in phases
    ensures |ConnsOf(phases)| == |ConnsOf(phases - {t})| + if Owning(phases[t]) then 1 else 0
  {
    ConnsWithout(phases, t);
    if Owning(phases[t]) {
      var rest := phases - {t};
      forall u | u in rest && Owning(rest[u]) ensures rest[u].conn != phases[t].conn {
        assert u in phases && phases[u] == rest[u];
      }
    }
  }

  /** Threads that own anything own different connections, so there are as many of the one as of the other. */
  lemma {:induction false} OwnersAreConns(phases: map<Tid, Phase>)
    requires OwnApart(phases)
    ensures |ConnsOf(phases)| == Total(phases, Owners())
    decreases |phases|
  {
    if phases == map[] {
      assert ConnsOf(phases) == {};
    } else {
      var t :| t in phases;
      var rest := phases - {t};
      TotalRemove(phases, Owners(), t);
      assert forall u :: u in rest ==> u in phases && rest[u] == phases[u];
      OwnersAreConns(rest);
      ConnsOneMore(phases, t);
    }
  }

  function Members(cs: seq<Conn>): set<Conn> {
    set c | c in cs
  }

  lemma {:induction false} DistinctMembers(cs: seq<Conn>)
    requires forall i, j :: 0 <= i < j < |cs| ==> cs[i] != cs[j]
    ensures |Members(cs)| == |cs|
  {
    if cs != [] {
      var init, c := cs[..|cs| - 1], cs[|cs| - 1];
      DistinctMembers(init);
      assert cs == init + [c];
      assert Members(cs) == Members(init) + {c} && c !in Members(init);
    }
  }

  /** The open sessions are the idle connections and the owned ones. */
  lemma SessionsAreOwned(p: Pool)
    requires OneOwner(p) && NoOrphan(p)
    ensures p.sessions.Keys == Members(p.idle) + ConnsOf(p.phases) && Members(p.idle) !! ConnsOf(p.phases)
  {
    forall t | t in p.phases && Owning(p.phases[t]) ensures p.phases[t].conn in p.sessions
      && p.phases[t].conn !in p.idle
    {
      assert Owns(PhaseOf(p, t), p.phases[t].conn);
    }
    forall c | c in p.sessions ensures c in Members(p.idle) + ConnsOf(p.phases) {
      assert HasOwner(p, c);
      if c !in p.idle {
        var t :| Owns(PhaseOf(p, t), c);
        assert t in p.phases;
      }
    }
  }

  lemma OwnersDiffer(p: Pool)
    requires OneOwner(p)
    ensures |ConnsOf(p.phases)| == Total(p.phases, Owners())
  {
    forall t, u | t in p.phases && u in p.phases && Owning(p.phases[t]) && Owning(p.phases[u]) && t != u
      ensures p.phases[t].conn != p.phases[u].conn
    {
      assert Owns(PhaseOf(p, t), p.phases[t].conn) && Owns(PhaseOf(p, u), p.phases[u].conn);
    }
    OwnersAreConns(p.phases);
  }

  /** The pool never has more sessions open than its size: `total_` counts them and the reserved slots. */
  lemma WithinSize(run: seq<Pool>, n: nat)
    requires IsRun(run) && n < |run|
    ensures |run[n].sessions| + Reserved(run[n]) == run[n].total <= run[n].size
    ensures |run[n].idle| + Occupied(run[n]) == run[n].total
    ensures |run[n].sessions| <= run[n].total
  {
    var p := run[n];
    ReachableInv(run, n);
    SessionsAreOwned(p);
    OwnersDiffer(p);
    DistinctMembers(p.idle);
    TotalLinear(p.phases, Slots(), Owners(), Reserves());
    TotalNonNegative(p.phases, Reserves());
    assert |p.sessions| == |p.sessions.Keys|;
  }

  // ---- one thread on its own ----

  /** Consecutive steps of one thread. */
  ghost predicate Path(trace: seq<Pool>, t: Tid, first: Pool, last: Pool) {
    && |trace| > 0 && trace[0] == first && trace[|trace| - 1] == last
    && forall i :: 0 <= i < |trace| - 1 ==> ThreadStep(trace[i], t, trace[i + 1])
  }

  lemma PathExtend(trace: seq<Pool>, t: Tid, first: Pool, last: Pool, next: Pool)
    requires Path(trace, t, first, last) && ThreadStep(last, t, next)
    ensures Path(trace + [next], t, first, next)
  {
  }
}
