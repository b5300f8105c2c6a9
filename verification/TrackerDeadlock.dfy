/**
  When the span tracker deadlocks. The program's locks are task-fair: while a writer waits for a lock, new readers
  queue behind it. A step is ready when such a lock cannot refuse it.
 */
module TrackerDeadlock {
  import opened Common
  import opened Tracker
  import opened TrackerLocks

  ghost predicate WriterWaits(m: Machine, k: Lock)
  {
    exists u: ThreadId :: u in m.calls && Wants(m.calls[u]) == Some(Acquire(k, Write))
  }

  ghost predicate Ready(m: Machine, l: Label)
  {
    && Enabled(m, l)
    && (l.Advance? ==>
          match Wants(m.calls[l.thread])
          case None => true
          case Some(a) => a.mode == Read ==> !WriterWaits(m, a.lock))
  }

  /** A schedule that never overtakes a waiting writer. */
  ghost predicate Fair(ls: seq<Label>)
    ensures Fair(ls) ==> Play(ls).Some?
  {
    ls == [] ||
    var front := ls[..|ls| - 1];
    Fair(front) && Ready(Play(front).value, ls[|ls| - 1])
  }

  /** Some method is in progress and the locks may refuse every one of them. */
  ghost predicate Deadlocked(m: Machine)
  {
    m.calls != map[] && forall t: ThreadId :: t in m.calls ==> !Ready(m, Advance(t))
  }

  /** An enter that holds the stacks and waits for the spans. */
  ghost predicate EnterWaits(m: Machine, t: ThreadId)
  {
    t in m.calls && m.calls[t].op.Enter? && m.calls[t].stage == WantSecond
  }

  /** A close that holds the spans and waits for the stacks. */
  ghost predicate CloseWaits(m: Machine, t: ThreadId)
  {
    t in m.calls && m.calls[t].op.Close? && m.calls[t].stage == WantSecond
  }

  /** A stats that reads the spans and waits for the stacks. */
  ghost predicate StatsWaits(m: Machine, t: ThreadId)
  {
    t in m.calls && m.calls[t].op.Stats? && m.calls[t].stage == WantSecond
  }

  /** An enter waits for a close, or behind a writer that waits for a stats; the close or stats waits for the enter. */
  ghost predicate Knot(m: Machine, e: ThreadId)
  {
    && EnterWaits(m, e)
    && ((exists c: ThreadId :: CloseWaits(m, c)) ||
        (WriterWaits(m, SpansLock) && exists s: ThreadId :: StatsWaits(m, s)))
  }

  /** No one who reads the spans can go on. */
  ghost predicate ReadersWait(m: Machine)
  {
    forall s: ThreadId :: s in m.spansLock.readers ==> StatsWaits(m, s)
  }

  // ---------- from a deadlock to a knot

  /** In a deadlock, whoever holds a lock is waiting for its second one. */
  lemma {:induction false} HolderWaits(m: Machine, t: ThreadId, k: Lock)
    requires StagesOk(m) && Deadlocked(m) && HoldsIn(m, t, k).Some?
    ensures m.calls[t].stage == WantSecond && Second(m.calls[t].op).Some?
    ensures First(m.calls[t].op) == Acquire(k, HoldsIn(m, t, k).value)
  {
    assert !Ready(m, Advance(t));
    assert StageOk(m.calls[t]);
  }

  lemma {:induction false} Holder(m: Machine, k: Lock, mode: Mode) returns (t: ThreadId)
    requires LocksOk(m) && !Grantable(LockOf(m, k), mode)
    ensures HoldsIn(m, t, k).Some? && (mode == Read ==> HoldsIn(m, t, k) == Some(Write))
  {
    assert LockOk(m, k);
    var s := LockOf(m, k);
    if s.writer.Some? {
      t := s.writer.value;
    } else {
      t :| t in s.readers;
    }
  }

  /** In a deadlock a refused request is refused because of some holder, perhaps through a waiting writer. */
  lemma {:induction false} Blocker(m: Machine, t: ThreadId) returns (y: ThreadId)
    requires LocksOk(m) && StagesOk(m) && Deadlocked(m) && t in m.calls
    ensures Wants(m.calls[t]).Some?
    ensures var a := Wants(m.calls[t]).value;
      HoldsIn(m, y, a.lock).Some? && (a.mode == Read ==> HoldsIn(m, y, a.lock) == Some(Write) || WriterWaits(m, a.lock))
  {
    assert !Ready(m, Advance(t));
    assert StageOk(m.calls[t]);
    var a := Wants(m.calls[t]).value;
    if !Grantable(LockOf(m, a.lock), a.mode) {
      y := Holder(m, a.lock, a.mode);
    } else {
      var u: ThreadId :| u in m.calls && Wants(m.calls[u]) == Some(Acquire(a.lock, Write));
      assert !Ready(m, Advance(u));
      y := Holder(m, a.lock, Write);
    }
  }

  lemma {:induction false} StacksHolder(m: Machine, e: ThreadId)
    requires StagesOk(m) && Deadlocked(m) && HoldsIn(m, e, StacksLock).Some?
    ensures EnterWaits(m, e)
  {
    HolderWaits(m, e, StacksLock);
  }

  lemma {:induction false} SpansHolder(m: Machine, x: ThreadId)
    requires StagesOk(m) && Deadlocked(m) && HoldsIn(m, x, SpansLock).Some?
    ensures x in m.calls && Wants(m.calls[x]).Some? && Wants(m.calls[x]).value.lock == StacksLock
    ensures if HoldsIn(m, x, SpansLock) == Some(Write) then CloseWaits(m, x) else StatsWaits(m, x)
  {
    HolderWaits(m, x, SpansLock);
  }

  lemma {:induction false} SomeEnterWaits(m: Machine) returns (e: ThreadId)
    requires LocksOk(m) && StagesOk(m) && Deadlocked(m)
    ensures EnterWaits(m, e)
  {
    var t: ThreadId :| t in m.calls;
    e := Blocker(m, t);
    if HoldsIn(m, e, SpansLock).Some? {
      SpansHolder(m, e);
      e := Blocker(m, e);
    }
    StacksHolder(m, e);
  }

  lemma {:induction false} DeadlockKnot(m: Machine) returns (e: ThreadId)
    requires LocksOk(m) && StagesOk(m) && Deadlocked(m)
    ensures Knot(m, e)
  {
    e := SomeEnterWaits(m);
    var x := Blocker(m, e);
    SpansHolder(m, x);
  }

  lemma {:induction false} DeadlockReaders(m: Machine)
    requires LocksOk(m) && StagesOk(m) && Deadlocked(m)
    ensures ReadersWait(m)
  {
    forall s: ThreadId | s in m.spansLock.readers ensures StatsWaits(m, s) {
      assert HoldsIn(m, s, SpansLock) == Some(Read);
      SpansHolder(m, s);
    }
  }

  // ---------- from a knot to a deadlock

  /** What a knot does to the locks: the stacks belong to the enter, and the spans have a holder. */
  lemma {:induction false} KnotLocks(m: Machine, e: ThreadId)
    requires LocksOk(m) && Knot(m, e)
    ensures m.stacksLock.writer == Some(e)
    ensures m.spansLock.writer.Some? || (WriterWaits(m, SpansLock) && m.spansLock.readers != {})
    ensures m.spansLock.writer.Some? ==> CloseWaits(m, m.spansLock.writer.value)
  {
    assert HoldsIn(m, e, StacksLock) == Some(Write);
    if c: ThreadId :| CloseWaits(m, c) {
      assert HoldsIn(m, c, SpansLock) == Some(Write);
    } else {
      var s: ThreadId :| StatsWaits(m, s);
      assert HoldsIn(m, s, SpansLock) == Some(Read);
    }
  }

  /** With both locks so, no request is ready. */
  lemma {:induction false} WaiterStuck(m: Machine, e: ThreadId, t: ThreadId)
    requires LocksOk(m) && Knot(m, e) && t in m.calls && Wants(m.calls[t]).Some?
    ensures !Ready(m, Advance(t))
  {
    KnotLocks(m, e);
  }

  lemma {:induction false} KnotBlocks(m: Machine, e: ThreadId, t: ThreadId)
    requires LocksOk(m) && StagesOk(m) && Knot(m, e) && ReadersWait(m) && t in m.calls
    ensures Wants(m.calls[t]).Some?
  {
    KnotLocks(m, e);
    assert StageOk(m.calls[t]);
    var c := m.calls[t];
    if c.stage != WantFirst && c.stage != WantSecond {
      assert HoldsIn(m, t, SpansLock).Some? || HoldsIn(m, t, StacksLock).Some?;
      assert HoldsIn(m, t, StacksLock).None?;
    }
  }

  /**
    Exactly when no method can go on: an enter that holds the stacks waits for a close that holds the spans, or
    waits behind a writer of the spans that waits for a stats, and no other reader of the spans is on its way.
   */
  lemma {:induction false} DeadlockIff(ls: seq<Label>)
    requires Play(ls).Some?
    ensures var m := Play(ls).value;
      Deadlocked(m) <==> ReadersWait(m) && exists e: ThreadId :: Knot(m, e)
  {
    InvReached(ls);
    var m := Play(ls).value;
    if Deadlocked(m) {
      var e := DeadlockKnot(m);
      DeadlockReaders(m);
    }
    if e: ThreadId :| ReadersWait(m) && Knot(m, e) {
      forall t: ThreadId | t in m.calls ensures !Ready(m, Advance(t)) {
        KnotBlocks(m, e, t);
        WaiterStuck(m, e, t);
      }
    }
  }

  // ---------- a knot is for ever

  /** A step of another thread leaves a waiting call where it is. */
  lemma {:induction false} WaitersStay(m: Machine, l: Label, e: ThreadId, u: ThreadId)
    requires LocksOk(m) && Knot(m, e) && Ready(m, l) && u in m.calls && Wants(m.calls[u]).Some?
    ensures u in Next(m, l).calls && Next(m, l).calls[u] == m.calls[u]
  {
    WaiterStuck(m, e, u);
    if l.thread != u {
      OthersKept(m, l, u);
    }
  }

  lemma {:induction false} KnotKept(m: Machine, l: Label, e: ThreadId)
    requires LocksOk(m) && Knot(m, e) && Ready(m, l)
    ensures Knot(Next(m, l), e) && l.thread != e
  {
    WaitersStay(m, l, e, e);
    if c: ThreadId :| CloseWaits(m, c) {
      WaitersStay(m, l, e, c);
      assert CloseWaits(Next(m, l), c);
    } else {
      var s: ThreadId :| StatsWaits(m, s);
      WaitersStay(m, l, e, s);
      assert StatsWaits(Next(m, l), s);
      var u: ThreadId :| u in m.calls && Wants(m.calls[u]) == Some(Acquire(SpansLock, Write));
      WaitersStay(m, l, e, u);
    }
  }

  ghost predicate Knotted(ls: seq<Label>, e: ThreadId)
  {
    Play(ls).Some? && Knot(Play(ls).value, e)
  }

  /** The thread takes no step from step `k` on. */
  ghost predicate Idle(ls: seq<Label>, k: nat, e: ThreadId)
  {
    forall i :: k <= i < |ls| ==> ls[i].thread != e
  }

  lemma {:induction false} IdleNext(ls: seq<Label>, k: nat, e: ThreadId)
    requires k < |ls| && Idle(ls[..|ls| - 1], k, e) && ls[|ls| - 1].thread != e
    ensures Idle(ls, k, e)
  {
    assert forall i :: 0 <= i < |ls| - 1 ==> ls[i] == ls[..|ls| - 1][i];
  }

  lemma {:induction false} KnotNext(ls: seq<Label>, e: ThreadId)
    requires ls != [] && Fair(ls) && Knotted(ls[..|ls| - 1], e)
    ensures Knotted(ls, e) && ls[|ls| - 1].thread != e
  {
    InvReached(ls[..|ls| - 1]);
    KnotKept(Play(ls[..|ls| - 1]).value, ls[|ls| - 1], e);
  }

  /** A knot is never undone: however the schedule goes on, the enter never takes another step. */
  lemma {:induction false} KnotForever(ls: seq<Label>, k: nat, e: ThreadId)
    requires Fair(ls) && k <= |ls| && Knotted(ls[..k], e)
    ensures Knotted(ls, e) && Idle(ls, k, e)
    decreases |ls|
  {
    if k == |ls| {
      assert ls[..k] == ls;
    } else {
      assert ls[..|ls| - 1][..k] == ls[..k];
      KnotForever(ls[..|ls| - 1], k, e);
      KnotNext(ls, e);
      IdleNext(ls, k, e);
    }
  }

  // ---------- workloads

  /** The calls a schedule begins are among those of the workload. */
  ghost predicate From(ls: seq<Label>, w: iset<(ThreadId, Op)>)
  {
    forall i :: 0 <= i < |ls| && ls[i].Begin? ==> (ls[i].thread, ls[i].op) in w
  }

  ghost predicate PairIn(w: iset<(ThreadId, Op)>, e: ThreadId, c: ThreadId, i: SpanId, j: SpanId)
  {
    e != c && (e, Enter(i)) in w && (c, Close(j)) in w
  }

  ghost predicate TripleIn(w: iset<(ThreadId, Op)>, e: ThreadId, s: ThreadId, u: ThreadId, i: SpanId, op: Op)
  {
    && e != s && s != u && u != e
    && (e, Enter(i)) in w && (s, Stats) in w && (u, op) in w && (op.NewSpan? || op.Record?)
  }

  /**
    What a caller must not run concurrently: an enter with a close on another thread; or an enter, a stats and
    a creation or recording of a span, on three threads.
   */
  ghost predicate Unsafe(w: iset<(ThreadId, Op)>)
  {
    || (exists e: ThreadId, c: ThreadId, i: SpanId, j: SpanId :: PairIn(w, e, c, i, j))
    || (exists e: ThreadId, s: ThreadId, u: ThreadId, i: SpanId, op: Op :: TripleIn(w, e, s, u, i, op))
  }

  lemma {:induction false} CallFrom(ls: seq<Label>, w: iset<(ThreadId, Op)>, t: ThreadId)
    requires Play(ls).Some? && From(ls, w) && t in Play(ls).value.calls
    ensures (t, Play(ls).value.calls[t].op) in w
  {
    StampsReached(ls);
    var c := Play(ls).value.calls[t];
    assert BeganAt(ls, t, c.op, c.begun);
  }

  /** Under any queueing policy, only an unsafe workload can be knotted. */
  lemma {:induction false} KnotNeeds(ls: seq<Label>, w: iset<(ThreadId, Op)>, e: ThreadId)
    requires Play(ls).Some? && From(ls, w) && Knot(Play(ls).value, e)
    ensures Unsafe(w)
  {
    var m := Play(ls).value;
    CallFrom(ls, w, e);
    if c: ThreadId :| CloseWaits(m, c) {
      CallFrom(ls, w, c);
      assert PairIn(w, e, c, m.calls[e].op.id, m.calls[c].op.id);
    } else {
      var s: ThreadId :| StatsWaits(m, s);
      var u: ThreadId :| u in m.calls && Wants(m.calls[u]) == Some(Acquire(SpansLock, Write));
      CallFrom(ls, w, s);
      CallFrom(ls, w, u);
      if m.calls[u].op.Close? {
        assert PairIn(w, e, u, m.calls[e].op.id, m.calls[u].op.id);
      } else {
        assert TripleIn(w, e, s, u, m.calls[e].op.id, m.calls[u].op);
      }
    }
  }

  // ---------- schedules that deadlock

  ghost predicate Reaches(ls: seq<Label>, m: Machine)
  {
    Fair(ls) && Play(ls) == Some(m)
  }

  lemma {:induction false} ReachNext(ls: seq<Label>, m: Machine, l: Label)
    requires Reaches(ls, m) && Ready(m, l)
    ensures Reaches(ls + [l], Next(m, l))
  {
    assert (ls + [l])[..|ls|] == ls;
  }

  /** Begin a method, take its first lock and do its first half. */
  function Half(t: ThreadId, op: Op): (r: seq<Label>)
  {
    [Begin(t, op), Advance(t), Advance(t)]
  }

  lemma {:induction false} ReachHalf(ls: seq<Label>, m: Machine, t: ThreadId, op: Op) returns (m': Machine)
    requires Reaches(ls, m) && t !in m.calls && Second(op).Some?
    requires LockOf(m, First(op).lock) == FREE && !WriterWaits(m, First(op).lock)
    ensures Reaches(ls + Half(t, op), m')
    ensures t in m'.calls && m'.calls[t].op == op && m'.calls[t].stage == WantSecond
    ensures m'.calls == m.calls[t := m'.calls[t]]
    ensures forall k :: LockOf(m', k) == if k == First(op).lock then Grant(FREE, First(op).mode, t) else LockOf(m, k)
  {
    var m1 := Next(m, Begin(t, op));
    ReachNext(ls, m, Begin(t, op));
    FirstIsReady(m, t, op);
    var m2 := Next(m1, Advance(t));
    ReachNext(ls + [Begin(t, op)], m1, Advance(t));
    m' := Next(m2, Advance(t));
    ReachNext(ls + [Begin(t, op)] + [Advance(t)], m2, Advance(t));
    assert ls + [Begin(t, op)] + [Advance(t)] + [Advance(t)] == ls + Half(t, op);
    HalfMachine(m, t, op);
  }

  /** What those three steps do to the machine. */
  lemma {:induction false} HalfMachine(m: Machine, t: ThreadId, op: Op)
    requires t !in m.calls && Second(op).Some? && LockOf(m, First(op).lock) == FREE
    ensures Enabled(Next(m, Begin(t, op)), Advance(t))
    ensures Enabled(Next(Next(m, Begin(t, op)), Advance(t)), Advance(t))
    ensures var m' := Next(Next(Next(m, Begin(t, op)), Advance(t)), Advance(t));
      && t in m'.calls && m'.calls[t].op == op && m'.calls[t].stage == WantSecond
      && m'.calls == m.calls[t := m'.calls[t]]
      && forall k :: LockOf(m', k) == if k == First(op).lock then Grant(FREE, First(op).mode, t) else LockOf(m, k)
  {
  }

  lemma {:induction false} FirstIsReady(m: Machine, t: ThreadId, op: Op)
    requires t !in m.calls && LockOf(m, First(op).lock) == FREE && !WriterWaits(m, First(op).lock)
    ensures Ready(Next(m, Begin(t, op)), Advance(t))
  {
    var m' := Next(m, Begin(t, op));
    if First(op).mode == Read {
      forall u: ThreadId | u in m'.calls ensures Wants(m'.calls[u]) != Some(Acquire(First(op).lock, Write)) {
        if u != t {
          OthersKept(m, Begin(t, op), u);
        }
      }
    }
  }

  /** The two methods take their first locks before either takes its second. */
  function PairSchedule(e: ThreadId, c: ThreadId, i: SpanId, j: SpanId): (r: seq<Label>)
  {
    Half(e, Enter(i)) + Half(c, Close(j))
  }

  lemma {:induction false} PairDeadlocks(e: ThreadId, c: ThreadId, i: SpanId, j: SpanId)
    requires e != c
    ensures Fair(PairSchedule(e, c, i, j)) && Deadlocked(Play(PairSchedule(e, c, i, j)).value)
  {
    assert [] + Half(e, Enter(i)) == Half(e, Enter(i));
    var m1 := ReachHalf([], START, e, Enter(i));
    assert LockOf(m1, SpansLock) == FREE;
    var m2 := ReachHalf(Half(e, Enter(i)), m1, c, Close(j));
    assert EnterWaits(m2, e) && CloseWaits(m2, c);
    assert Knot(m2, e);
    assert LockOf(m2, SpansLock) == LockState(Some(c), {});
    DeadlockIff(PairSchedule(e, c, i, j));
  }

  /** The writer of the spans arrives while a stats reads them and an enter holds the stacks. */
  function TripleSchedule(e: ThreadId, s: ThreadId, u: ThreadId, i: SpanId, op: Op): (r: seq<Label>)
  {
    Half(s, Stats) + Half(e, Enter(i)) + [Begin(u, op)]
  }

  lemma {:induction false} TripleDeadlocks(e: ThreadId, s: ThreadId, u: ThreadId, i: SpanId, op: Op)
    requires e != s && s != u && u != e && (op.NewSpan? || op.Record?)
    ensures Fair(TripleSchedule(e, s, u, i, op)) && Deadlocked(Play(TripleSchedule(e, s, u, i, op)).value)
  {
    assert [] + Half(s, Stats) == Half(s, Stats);
    var m1 := ReachHalf([], START, s, Stats);
    assert LockOf(m1, StacksLock) == FREE;
    var m2 := ReachHalf(Half(s, Stats), m1, e, Enter(i));
    assert LockOf(m2, SpansLock) == LockState(None, {s});
    var m3 := Next(m2, Begin(u, op));
    ReachNext(Half(s, Stats) + Half(e, Enter(i)), m2, Begin(u, op));
    assert EnterWaits(m3, e) && StatsWaits(m3, s);
    assert Wants(m3.calls[u]) == Some(Acquire(SpansLock, Write));
    assert Knot(m3, e);
    assert ReadersWait(m3);
    DeadlockIff(TripleSchedule(e, s, u, i, op));
  }

  ghost predicate CanDeadlock(w: iset<(ThreadId, Op)>)
  {
    exists ls :: From(ls, w) && Fair(ls) && Deadlocked(Play(ls).value)
  }

  lemma {:induction false} DeadlockNeeds(ls: seq<Label>, w: iset<(ThreadId, Op)>)
    requires From(ls, w) && Fair(ls) && Deadlocked(Play(ls).value)
    ensures Unsafe(w)
  {
    DeadlockIff(ls);
    var e: ThreadId :| Knot(Play(ls).value, e);
    KnotNeeds(ls, w, e);
  }

  lemma {:induction false} PairSuffices(w: iset<(ThreadId, Op)>, e: ThreadId, c: ThreadId, i: SpanId, j: SpanId)
    requires PairIn(w, e, c, i, j)
    ensures CanDeadlock(w)
  {
    PairDeadlocks(e, c, i, j);
    assert From(PairSchedule(e, c, i, j), w);
  }

  lemma {:induction false} TripleSuffices(
    w: iset<(ThreadId, Op)>, e: ThreadId, s: ThreadId, u: ThreadId, i: SpanId, op: Op)
    requires TripleIn(w, e, s, u, i, op)
    ensures CanDeadlock(w)
  {
    TripleDeadlocks(e, s, u, i, op);
    assert From(TripleSchedule(e, s, u, i, op), w);
  }

  /** A workload can deadlock exactly when it is unsafe. */
  lemma {:induction false} WorkloadDeadlockIff(w: iset<(ThreadId, Op)>)
    ensures CanDeadlock(w) <==> Unsafe(w)
  {
    if ls :| From(ls, w) && Fair(ls) && Deadlocked(Play(ls).value) {
      DeadlockNeeds(ls, w);
    }
    if e: ThreadId, c: ThreadId, i: SpanId, j: SpanId :| PairIn(w, e, c, i, j) {
      PairSuffices(w, e, c, i, j);
    } else if e: ThreadId, s: ThreadId, u: ThreadId, i: SpanId, op: Op :| TripleIn(w, e, s, u, i, op) {
      TripleSuffices(w, e, s, u, i, op);
    }
  }

  // ---------- queries share the locks

  predicate Query(op: Op)
  {
    op.CurrentContext? || op.CurrentStack? || op.CurrentDepth? || op.GetSpan? || op.Stats?
  }

  /** Queries never wait for each other: while only queries are in progress, every one of them can go on. */
  lemma {:induction false} QueriesNeverWait(ls: seq<Label>, t: ThreadId)
    requires Play(ls).Some? && t in Play(ls).value.calls
    requires forall u: ThreadId :: u in Play(ls).value.calls ==> Query(Play(ls).value.calls[u].op)
    ensures Ready(Play(ls).value, Advance(t))
  {
    InvReached(ls);
    var m := Play(ls).value;
    NoWriter(m, SpansLock);
    NoWriter(m, StacksLock);
  }

  lemma {:induction false} NoWriter(m: Machine, k: Lock)
    requires LocksOk(m) && forall u: ThreadId :: u in m.calls ==> Query(m.calls[u].op)
    ensures LockOf(m, k).writer.None? && !WriterWaits(m, k)
  {
    assert LockOk(m, k);
    assert forall u: ThreadId :: HoldsIn(m, u, k) != Some(Write);
  }

  // ---------- safe workloads complete

  /** Steps a method has left. */
  function Left(c: Call): (r: nat)
  {
    match c.stage
    case WantFirst => 6
    case HasFirst => 5
    case WantSecond => 4
    case HasSecond => 3
    case Finished => 2
    case Leaving => 1
  }

  ghost function Work(calls: map<ThreadId, Call>): (r: nat)
    decreases |calls|
  {
    if calls == map[] then 0
    else
      var t :| t in calls;
      Left(calls[t]) + Work(calls - {t})
  }

  lemma {:induction false} WorkSplit(calls: map<ThreadId, Call>, t: ThreadId)
    requires t in calls
    ensures Work(calls) == Left(calls[t]) + Work(calls - {t})
    decreases |calls|
  {
    var u :| u in calls && Work(calls) == Left(calls[u]) + Work(calls - {u});
    if u != t {
      WorkSplit(calls - {u}, t);
      WorkSplit(calls - {t}, u);
      assert calls - {u} - {t} == calls - {t} - {u};
    }
  }

  lemma {:induction false} LeftDrops(m: Machine, t: ThreadId)
    requires StagesOk(m) && Enabled(m, Advance(t))
    ensures var calls' := Next(m, Advance(t)).calls;
      || calls' == m.calls - {t}
      || (t in calls' && calls' == m.calls[t := calls'[t]] && Left(calls'[t]) < Left(m.calls[t]))
  {
    assert StageOk(m.calls[t]);
  }

  lemma {:induction false} WorkDrops(m: Machine, t: ThreadId)
    requires StagesOk(m) && Enabled(m, Advance(t))
    ensures Work(Next(m, Advance(t)).calls) < Work(m.calls)
  {
    var calls' := Next(m, Advance(t)).calls;
    LeftDrops(m, t);
    WorkSplit(m.calls, t);
    if t in calls' {
      WorkSplit(calls', t);
      assert calls' - {t} == m.calls - {t};
    }
  }

  predicate OnlyAdvances(more: seq<Label>)
  {
    forall i :: 0 <= i < |more| ==> more[i].Advance?
  }

  lemma {:induction false} SafeStep(ls: seq<Label>, w: iset<(ThreadId, Op)>) returns (t: ThreadId)
    requires Fair(ls) && From(ls, w) && !Unsafe(w) && Play(ls).value.calls != map[]
    ensures t in Play(ls).value.calls && Ready(Play(ls).value, Advance(t))
  {
    WorkloadDeadlockIff(w);
    var m := Play(ls).value;
    assert !Deadlocked(m);
    t :| t in m.calls && Ready(m, Advance(t));
  }

  lemma {:induction false} AdvanceKeeps(ls: seq<Label>, w: iset<(ThreadId, Op)>, t: ThreadId)
    requires Fair(ls) && From(ls, w) && Ready(Play(ls).value, Advance(t))
    ensures Fair(ls + [Advance(t)]) && From(ls + [Advance(t)], w)
    ensures Work(Play(ls + [Advance(t)]).value.calls) < Work(Play(ls).value.calls)
  {
    InvReached(ls);
    WorkDrops(Play(ls).value, t);
    ReachNext(ls, Play(ls).value, Advance(t));
  }

  /** How a schedule can be completed: steps of methods in progress, after which none is. */
  ghost predicate Completes(ls: seq<Label>, more: seq<Label>)
  {
    OnlyAdvances(more) && Fair(ls + more) && Play(ls + more).value.calls == map[]
  }

  lemma {:induction false} CompletesFrom(ls: seq<Label>, t: ThreadId, rest: seq<Label>)
    requires Completes(ls + [Advance(t)], rest)
    ensures Completes(ls, [Advance(t)] + rest)
  {
    assert ls + ([Advance(t)] + rest) == ls + [Advance(t)] + rest;
  }

  /** Running a safe workload never gets stuck: from wherever a schedule has led, all calls can be completed. */
  lemma {:induction false} SafeCompletes(ls: seq<Label>, w: iset<(ThreadId, Op)>) returns (more: seq<Label>)
    requires Fair(ls) && From(ls, w) && !Unsafe(w)
    ensures Completes(ls, more)
    decreases Work(Play(ls).value.calls)
  {
    if Play(ls).value.calls == map[] {
      more := [];
      assert ls + more == ls;
    } else {
      var t := SafeStep(ls, w);
      AdvanceKeeps(ls, w, t);
      var rest := SafeCompletes(ls + [Advance(t)], w);
      CompletesFrom(ls, t, rest);
      more := [Advance(t)] + rest;
    }
  }
}
