/**
  The span tracker at lock granularity: acquiring a lock, each half of a method's work and releasing a lock
  are separate steps that threads interleave freely. Every interleaving is shown to be a serial run. The locks
  grant whatever a reader-writer lock may grant at all, so the results hold for every queueing policy.
 */
module TrackerLocks {
  import opened Common
  import opened Tracker

  datatype Lock = SpansLock | StacksLock

  datatype Mode = Read | Write

  datatype Acquire = Acquire(lock: Lock, mode: Mode)

  datatype LockState = LockState(writer: Option<ThreadId>, readers: set<ThreadId>)

  /** The lock a method takes first. */
  function First(op: Op): (r: Acquire)
  {
    match op
    case NewSpan(_) => Acquire(SpansLock, Write)
    case Enter(_) => Acquire(StacksLock, Write)
    case Exit(_) => Acquire(StacksLock, Write)
    case Close(_) => Acquire(SpansLock, Write)
    case Record(_, _) => Acquire(SpansLock, Write)
    case GetSpan(_) => Acquire(SpansLock, Read)
    case Stats => Acquire(SpansLock, Read)
    case _ => Acquire(StacksLock, Read)
  }

  /** The lock it takes while holding the first, if any. */
  function Second(op: Op): (r: Option<Acquire>)
  {
    match op
    case Enter(_) => Some(Acquire(SpansLock, Read))
    case Close(_) => Some(Acquire(StacksLock, Write))
    case Stats => Some(Acquire(StacksLock, Read))
    case _ => None
  }

  /**
    The lock released last. Guards bound to variables go in reverse order of taking; the spans guard of an
    enter is a temporary of the method's tail expression and outlives the stacks guard.
   */
  function Late(op: Op): (r: Acquire)
  {
    if op.Enter? then Acquire(SpansLock, Read) else First(op)
  }

  /** The lock released before the last, if the method takes two. */
  function Early(op: Op): (r: Option<Acquire>)
  {
    if op.Enter? then Some(First(op)) else Second(op)
  }

  /** Where a thread is inside its method; between `Finished` and `Leaving` it releases its early lock. */
  datatype Stage = WantFirst | HasFirst | WantSecond | HasSecond | Finished | Leaving

  /**
    A method in progress. `created` remembers that this enter inserted an empty stack, `removed` the span
    this close took out of the table; `answer` is set once the work is done; `begun` is the step it began at.
   */
  datatype Call = Call(
    op: Op, stage: Stage, created: bool, removed: Option<SpanData>, answer: Answer, begun: nat)

  /** A completed method with its answer. */
  datatype Completed = Completed(thread: ThreadId, op: Op, answer: Answer, begun: nat)

  /** `log` has the methods in the order they completed, `returned` in the order they returned. */
  datatype Machine = Machine(
    shared: State, spansLock: LockState, stacksLock: LockState, calls: map<ThreadId, Call>,
    log: seq<Completed>, returned: seq<Completed>, clock: nat)

  const FREE: LockState := LockState(None, {})

  const START: Machine := Machine(INITIAL, FREE, FREE, map[], [], [], 0)

  function LockOf(m: Machine, l: Lock): (r: LockState)
  {
    if l == SpansLock then m.spansLock else m.stacksLock
  }

  function SetLock(m: Machine, l: Lock, s: LockState): (r: Machine)
  {
    if l == SpansLock then m.(spansLock := s) else m.(stacksLock := s)
  }

  predicate Grantable(s: LockState, mode: Mode)
  {
    s.writer.None? && (mode == Write ==> s.readers == {})
  }

  function Grant(s: LockState, mode: Mode, t: ThreadId): (r: LockState)
  {
    if mode == Write then s.(writer := Some(t)) else s.(readers := s.readers + {t})
  }

  function Release(s: LockState, mode: Mode, t: ThreadId): (r: LockState)
  {
    if mode == Write then s.(writer := None) else s.(readers := s.readers - {t})
  }

  // ---------- steps

  datatype Label = Begin(thread: ThreadId, op: Op) | Advance(thread: ThreadId)

  /** What the next step of a method waits for. */
  function Wants(c: Call): (r: Option<Acquire>)
  {
    if c.stage == WantFirst then Some(First(c.op))
    else if c.stage == WantSecond then Second(c.op)
    else None
  }

  predicate Enabled(m: Machine, l: Label)
  {
    match l
    case Begin(t, _) => t !in m.calls
    case Advance(t) =>
      t in m.calls &&
      match Wants(m.calls[t])
      case None => true
      case Some(a) => Grantable(LockOf(m, a.lock), a.mode)
  }

  /** The work done under the first lock alone, before the second is taken. */
  function FirstHalf(m: Machine, t: ThreadId, c: Call): (r: Machine)
  {
    match c.op
    case Enter(_) =>
      var created := t !in m.shared.stacks;
      m.(shared := if created then m.shared.(stacks := m.shared.stacks[t := []]) else m.shared,
         calls := m.calls[t := c.(stage := WantSecond, created := created)])
    case Close(id) =>
      var removed := if id in m.shared.spans then Some(m.shared.spans[id]) else None;
      m.(shared := m.shared.(spans := m.shared.spans - {id}),
         calls := m.calls[t := c.(stage := WantSecond, removed := removed)])
    case _ => m.(calls := m.calls[t := c.(stage := WantSecond)])
  }

  /** The work done once every lock is held, on the shared state as the method finds it. */
  ghost function LastHalf(s: State, t: ThreadId, op: Op): (r: (State, Answer))
  {
    match op
    case Close(id) =>
      (s.(stacks := if t in s.stacks then Kept(s.stacks, t, Without(s.stacks[t], id)) else s.stacks), Nothing)
    case _ => Apply(s, t, op)
  }

  ghost function Commit(m: Machine, t: ThreadId, c: Call): (r: Machine)
  {
    var (s, answer) := LastHalf(m.shared, t, c.op);
    m.(shared := s, calls := m.calls[t := c.(stage := Finished, answer := answer)],
       log := m.log + [Completed(t, c.op, answer, c.begun)])
  }

  /** Release the last lock and return. */
  function Return(m: Machine, t: ThreadId, c: Call): (r: Machine)
  {
    Released(m, t, Late(c.op)).(
      calls := m.calls - {t}, returned := m.returned + [Completed(t, c.op, c.answer, c.begun)])
  }

  function Released(m: Machine, t: ThreadId, a: Acquire): (r: Machine)
  {
    SetLock(m, a.lock, Release(LockOf(m, a.lock), a.mode, t))
  }

  function Acquired(m: Machine, t: ThreadId, c: Call, a: Acquire, stage: Stage): (r: Machine)
  {
    SetLock(m, a.lock, Grant(LockOf(m, a.lock), a.mode, t)).(calls := m.calls[t := c.(stage := stage)])
  }

  /** What a method does in its next step. */
  ghost function Advanced(m: Machine, t: ThreadId, c: Call): (r: Machine)
  {
    match c.stage
    case WantFirst => Acquired(m, t, c, First(c.op), HasFirst)
    case HasFirst => if Second(c.op).Some? then FirstHalf(m, t, c) else Commit(m, t, c)
    case WantSecond => if Second(c.op).Some? then Acquired(m, t, c, Second(c.op).value, HasSecond) else m
    case HasSecond => Commit(m, t, c)
    case Finished =>
      (match Early(c.op)
       case None => Return(m, t, c)
       case Some(a) => Released(m, t, a).(calls := m.calls[t := c.(stage := Leaving)]))
    case Leaving => Return(m, t, c)
  }

  ghost function Next(m: Machine, l: Label): (r: Machine)
    requires Enabled(m, l)
  {
    match l
    case Begin(t, op) =>
      m.(calls := m.calls[t := Call(op, WantFirst, false, None, Nothing, m.clock)], clock := m.clock + 1)
    case Advance(t) => Advanced(m, t, m.calls[t]).(clock := m.clock + 1)
  }

  /** The machine a schedule leads to; None if the schedule asks for a step that is not enabled. */
  ghost function Play(ls: seq<Label>): (r: Option<Machine>)
  {
    if ls == [] then Some(START)
    else
      match Play(ls[..|ls| - 1])
      case None => None
      case Some(m) => if Enabled(m, ls[|ls| - 1]) then Some(Next(m, ls[|ls| - 1])) else None
  }

  // ---------- lock discipline

  /** The mode in which a method at its stage holds a lock. */
  function Holds(c: Call, l: Lock): (r: Option<Mode>)
  {
    if c.stage == WantFirst then None
    else if c.stage == Leaving then if Late(c.op).lock == l then Some(Late(c.op).mode) else None
    else if First(c.op).lock == l then Some(First(c.op).mode)
    else if (c.stage == HasSecond || c.stage == Finished) && Second(c.op).Some? && Second(c.op).value.lock == l
    then Some(Second(c.op).value.mode)
    else None
  }

  function HoldsIn(m: Machine, t: ThreadId, l: Lock): (r: Option<Mode>)
  {
    if t in m.calls then Holds(m.calls[t], l) else None
  }

  /** A lock records exactly the threads that hold it, and a writer is alone. */
  ghost predicate LockOk(m: Machine, l: Lock)
  {
    var s := LockOf(m, l);
    && (forall t: ThreadId :: s.writer == Some(t) <==> HoldsIn(m, t, l) == Some(Write))
    && (forall t: ThreadId :: t in s.readers <==> HoldsIn(m, t, l) == Some(Read))
    && (s.writer.Some? ==> s.readers == {})
  }

  ghost predicate LocksOk(m: Machine)
  {
    LockOk(m, SpansLock) && LockOk(m, StacksLock)
  }

  predicate StageOk(c: Call)
  {
    Second(c.op).None? ==> c.stage in {WantFirst, HasFirst, Finished}
  }

  ghost predicate StagesOk(m: Machine)
  {
    forall t: ThreadId :: t in m.calls ==> StageOk(m.calls[t])
  }

  /** A method is between its first half and its last. */
  predicate Halfway(c: Call)
  {
    c.stage == WantSecond || c.stage == HasSecond
  }

  /** What a method halfway through has left in the shared state, protected by its lock. */
  ghost predicate HalfOk(m: Machine, t: ThreadId)
  {
    t in m.calls && Halfway(m.calls[t]) ==>
      var c := m.calls[t];
      && (c.op.Enter? ==> t in m.shared.stacks && (c.created ==> m.shared.stacks[t] == []))
      && (c.op.Close? ==> c.op.id !in m.shared.spans)
  }

  ghost predicate HalvesOk(m: Machine)
  {
    forall t: ThreadId :: HalfOk(m, t)
  }

  // ---------- the abstract state: half-done work not yet counted

  function AbsSpans(m: Machine): (r: map<SpanId, SpanData>)
  {
    match m.spansLock.writer
    case Some(t) =>
      if t in m.calls && Halfway(m.calls[t]) && m.calls[t].op.Close? && m.calls[t].removed.Some?
      then m.shared.spans[m.calls[t].op.id := m.calls[t].removed.value]
      else m.shared.spans
    case None => m.shared.spans
  }

  function AbsStacks(m: Machine): (r: map<ThreadId, Stack>)
  {
    match m.stacksLock.writer
    case Some(t) =>
      if t in m.calls && Halfway(m.calls[t]) && m.calls[t].op.Enter? && m.calls[t].created
      then m.shared.stacks - {t}
      else m.shared.stacks
    case None => m.shared.stacks
  }

  function Abs(m: Machine): (r: State)
  {
    State(AbsSpans(m), AbsStacks(m))
  }

  // ---------- the log is a serial run

  function EventsOf(log: seq<Completed>): (r: seq<Event>)
    ensures |r| == |log| && forall i :: 0 <= i < |log| ==> r[i] == Event(log[i].thread, log[i].op)
  {
    seq(|log|, i requires 0 <= i < |log| => Event(log[i].thread, log[i].op))
  }

  /** The state after performing the logged methods one at a time, in log order. */
  ghost function Serial(log: seq<Completed>): (r: State)
  {
    Run(INITIAL, EventsOf(log))
  }

  /** Every logged answer is the one the serial run gives. */
  ghost predicate AnswersOk(log: seq<Completed>)
  {
    forall i :: 0 <= i < |log| ==> log[i].answer == Apply(Serial(log[..i]), log[i].thread, log[i].op).1
  }

  lemma {:induction false} SerialAppend(log: seq<Completed>, d: Completed)
    ensures Serial(log + [d]) == Apply(Serial(log), d.thread, d.op).0
  {
    var evs := EventsOf(log + [d]);
    assert evs[..|log|] == EventsOf(log);
  }

  lemma {:induction false} AnswersAppend(log: seq<Completed>, d: Completed)
    requires AnswersOk(log) && d.answer == Apply(Serial(log), d.thread, d.op).1
    ensures AnswersOk(log + [d])
  {
    var all := log + [d];
    forall i | 0 <= i < |all| ensures all[i].answer == Apply(Serial(all[..i]), all[i].thread, all[i].op).1 {
      if i < |log| {
        assert all[..i] == log[..i];
      } else {
        assert all[..i] == log;
      }
    }
  }

  // ---------- each thread's returns are its part of the log

  function Of(log: seq<Completed>, t: ThreadId): (r: seq<Completed>)
  {
    if log == [] then []
    else Of(log[..|log| - 1], t) + if log[|log| - 1].thread == t then [log[|log| - 1]] else []
  }

  /** The method of `t` that is done but has not returned yet. */
  function Pending(m: Machine, t: ThreadId): (r: seq<Completed>)
  {
    if t in m.calls && (m.calls[t].stage == Finished || m.calls[t].stage == Leaving)
    then [Completed(t, m.calls[t].op, m.calls[t].answer, m.calls[t].begun)]
    else []
  }

  ghost predicate ReturnsOk(m: Machine)
  {
    forall t: ThreadId :: Of(m.log, t) == Of(m.returned, t) + Pending(m, t)
  }

  lemma {:induction false} OfAppend(log: seq<Completed>, d: Completed, t: ThreadId)
    ensures Of(log + [d], t) == Of(log, t) + if d.thread == t then [d] else []
  {
    assert (log + [d])[..|log|] == log;
  }

  // ---------- the invariant

  ghost predicate Inv(m: Machine)
  {
    && LocksOk(m) && StagesOk(m) && HalvesOk(m)
    && Abs(m) == Serial(m.log) && AnswersOk(m.log) && ReturnsOk(m)
  }

  // --- locks

  lemma {:induction false} OthersKept(m: Machine, l: Label, u: ThreadId)
    requires Enabled(m, l) && u != l.thread
    ensures u in Next(m, l).calls <==> u in m.calls
    ensures u in m.calls ==> Next(m, l).calls[u] == m.calls[u]
  {
  }

  lemma {:induction false} LocksKept(m: Machine, l: Label)
    requires LocksOk(m) && StagesOk(m) && Enabled(m, l)
    ensures LocksOk(Next(m, l)) && StagesOk(Next(m, l))
  {
    StagesKept(m, l);
    LockKept(m, l, SpansLock);
    LockKept(m, l, StacksLock);
  }

  lemma {:induction false} StagesKept(m: Machine, l: Label)
    requires StagesOk(m) && Enabled(m, l)
    ensures StagesOk(Next(m, l))
  {
    var m' := Next(m, l);
    forall u: ThreadId | u in m'.calls ensures StageOk(m'.calls[u]) {
      if u != l.thread {
        OthersKept(m, l, u);
      } else {
        assert u in m.calls ==> StageOk(m.calls[u]);
      }
    }
  }

  lemma {:induction false} LockKept(m: Machine, l: Label, k: Lock)
    requires LocksOk(m) && StagesOk(m) && Enabled(m, l)
    ensures LockOk(Next(m, l), k)
  {
    var m', t := Next(m, l), l.thread;
    forall u: ThreadId | u != t ensures HoldsIn(m', u, k) == HoldsIn(m, u, k) {
      OthersKept(m, l, u);
    }
    assert LockOk(m, k);
    LockChange(m, l, k);
    LockFollows(m, m', t, k);
  }

  /** What a lock does when one thread's hold on it goes from `before` to `after`. */
  predicate Follows(s: LockState, s': LockState, t: ThreadId, before: Option<Mode>, after: Option<Mode>)
  {
    if before == after then s' == s
    else if after.Some? then before.None? && Grantable(s, after.value) && s' == Grant(s, after.value, t)
    else s' == Release(s, before.value, t)
  }

  lemma {:induction false} LockFollows(m: Machine, m': Machine, t: ThreadId, k: Lock)
    requires LockOk(m, k) && Follows(LockOf(m, k), LockOf(m', k), t, HoldsIn(m, t, k), HoldsIn(m', t, k))
    requires forall u: ThreadId :: u != t ==> HoldsIn(m', u, k) == HoldsIn(m, u, k)
    ensures LockOk(m', k)
  {
  }

  /** A step changes a lock exactly as it changes what its thread holds. */
  lemma {:induction false} LockChange(m: Machine, l: Label, k: Lock)
    requires StagesOk(m) && Enabled(m, l)
    ensures var t := l.thread;
      Follows(LockOf(m, k), LockOf(Next(m, l), k), t, HoldsIn(m, t, k), HoldsIn(Next(m, l), t, k))
  {
    if l.Advance? {
      var c := m.calls[l.thread];
      assert StageOk(c);
      if c.stage == WantFirst || c.stage == WantSecond {
        LockTaken(m, l.thread, k);
      } else if c.stage == Finished || c.stage == Leaving {
        LockGiven(m, l.thread, k);
      }
    }
  }

  lemma {:induction false} LockTaken(m: Machine, t: ThreadId, k: Lock)
    requires Enabled(m, Advance(t)) && StageOk(m.calls[t]) && Wants(m.calls[t]).Some?
    ensures var m' := Next(m, Advance(t));
      Follows(LockOf(m, k), LockOf(m', k), t, HoldsIn(m, t, k), HoldsIn(m', t, k))
  {
  }

  lemma {:induction false} LockGiven(m: Machine, t: ThreadId, k: Lock)
    requires Enabled(m, Advance(t)) && StageOk(m.calls[t])
    requires m.calls[t].stage == Finished || m.calls[t].stage == Leaving
    ensures var m' := Next(m, Advance(t));
      Follows(LockOf(m, k), LockOf(m', k), t, HoldsIn(m, t, k), HoldsIn(m', t, k))
  {
  }

  // --- half-done work

  lemma {:induction false} HalvesKept(m: Machine, l: Label)
    requires LocksOk(m) && StagesOk(m) && HalvesOk(m) && Enabled(m, l)
    ensures HalvesOk(Next(m, l))
  {
    var m', t := Next(m, l), l.thread;
    forall u: ThreadId ensures HalfOk(m', u) {
      assert HalfOk(m, u);
      if u != t {
        OthersHalf(m, l, u);
      }
    }
  }

  /** A step cannot touch what another thread's held lock protects. */
  lemma {:induction false} OthersHalf(m: Machine, l: Label, u: ThreadId)
    requires LocksOk(m) && StagesOk(m) && HalfOk(m, u) && Enabled(m, l) && u != l.thread
    ensures HalfOk(Next(m, l), u)
  {
    if u in m.calls && Halfway(m.calls[u]) {
      var c := m.calls[u];
      if c.op.Enter? {
        assert HoldsIn(m, u, StacksLock) == Some(Write);
        StacksGuarded(m, l, u);
      } else if c.op.Close? {
        assert HoldsIn(m, u, SpansLock) == Some(Write);
        SpansGuarded(m, l, u);
      }
    }
  }

  lemma {:induction false} StacksGuarded(m: Machine, l: Label, u: ThreadId)
    requires LocksOk(m) && StagesOk(m) && Enabled(m, l) && u != l.thread && HoldsIn(m, u, StacksLock) == Some(Write)
    ensures Next(m, l).shared.stacks == m.shared.stacks
  {
    assert m.stacksLock.writer == Some(u);
    assert HoldsIn(m, l.thread, StacksLock) == None;
  }

  lemma {:induction false} SpansGuarded(m: Machine, l: Label, u: ThreadId)
    requires LocksOk(m) && StagesOk(m) && Enabled(m, l) && u != l.thread && HoldsIn(m, u, SpansLock) == Some(Write)
    ensures Next(m, l).shared.spans == m.shared.spans
  {
    assert m.spansLock.writer == Some(u);
    assert HoldsIn(m, l.thread, SpansLock) == None;
  }

  // --- the abstract state

  /** The step that completes a method. */
  predicate Commits(m: Machine, l: Label)
  {
    && l.Advance? && l.thread in m.calls
    && var c := m.calls[l.thread]; c.stage == HasSecond || (c.stage == HasFirst && Second(c.op).None?)
  }

  /** Steps that do not complete a method are invisible. */
  lemma {:induction false} QuietSteps(m: Machine, l: Label)
    requires LocksOk(m) && StagesOk(m) && HalvesOk(m) && Enabled(m, l) && !Commits(m, l)
    ensures Abs(Next(m, l)) == Abs(m) && Next(m, l).log == m.log
  {
    LocksKept(m, l);
    QuietSpans(m, l);
    QuietStacks(m, l);
  }

  lemma {:induction false} QuietSpans(m: Machine, l: Label)
    requires LocksOk(m) && StagesOk(m) && HalvesOk(m) && Enabled(m, l) && !Commits(m, l) && LocksOk(Next(m, l))
    ensures AbsSpans(Next(m, l)) == AbsSpans(m)
  {
    var t := l.thread;
    assert HalfOk(m, t);
    if m.spansLock.writer.None? {
      assert HoldsIn(m, t, SpansLock) != Some(Write);
      SpansUnwritten(m, l);
    } else if m.spansLock.writer != Some(t) {
      SpansOfOther(m, l, m.spansLock.writer.value);
    } else {
      assert HoldsIn(m, t, SpansLock) == Some(Write);
      SpansOfWriter(m, t);
    }
  }

  lemma {:induction false} SpansOfOther(m: Machine, l: Label, u: ThreadId)
    requires LocksOk(m) && StagesOk(m) && Enabled(m, l) && LocksOk(Next(m, l))
    requires m.spansLock.writer == Some(u) && u != l.thread
    ensures AbsSpans(Next(m, l)) == AbsSpans(m)
  {
    assert HoldsIn(m, u, SpansLock) == Some(Write);
    SpansGuarded(m, l, u);
    OthersKept(m, l, u);
    assert HoldsIn(Next(m, l), u, SpansLock) == Some(Write);
  }

  lemma {:induction false} SpansUnwritten(m: Machine, l: Label)
    requires StagesOk(m) && Enabled(m, l) && !Commits(m, l)
    requires m.spansLock.writer.None? && HoldsIn(m, l.thread, SpansLock) != Some(Write)
    ensures AbsSpans(Next(m, l)) == AbsSpans(m)
  {
  }

  lemma {:induction false} SpansOfWriter(m: Machine, t: ThreadId)
    requires StagesOk(m) && HalfOk(m, t) && Enabled(m, Advance(t)) && !Commits(m, Advance(t))
    requires m.spansLock.writer == Some(t) && HoldsIn(m, t, SpansLock) == Some(Write)
    ensures AbsSpans(Next(m, Advance(t))) == AbsSpans(m)
  {
    assert StageOk(m.calls[t]);
  }

  lemma {:induction false} QuietStacks(m: Machine, l: Label)
    requires LocksOk(m) && StagesOk(m) && HalvesOk(m) && Enabled(m, l) && !Commits(m, l) && LocksOk(Next(m, l))
    ensures AbsStacks(Next(m, l)) == AbsStacks(m)
  {
    var t := l.thread;
    assert HalfOk(m, t);
    if m.stacksLock.writer.None? {
      assert HoldsIn(m, t, StacksLock) != Some(Write);
      StacksUnwritten(m, l);
    } else if m.stacksLock.writer != Some(t) {
      StacksOfOther(m, l, m.stacksLock.writer.value);
    } else {
      assert HoldsIn(m, t, StacksLock) == Some(Write);
      StacksOfWriter(m, t);
    }
  }

  lemma {:induction false} StacksOfOther(m: Machine, l: Label, u: ThreadId)
    requires LocksOk(m) && StagesOk(m) && Enabled(m, l) && LocksOk(Next(m, l))
    requires m.stacksLock.writer == Some(u) && u != l.thread
    ensures AbsStacks(Next(m, l)) == AbsStacks(m)
  {
    assert HoldsIn(m, u, StacksLock) == Some(Write);
    StacksGuarded(m, l, u);
    OthersKept(m, l, u);
    assert HoldsIn(Next(m, l), u, StacksLock) == Some(Write);
  }

  lemma {:induction false} StacksUnwritten(m: Machine, l: Label)
    requires StagesOk(m) && Enabled(m, l) && !Commits(m, l)
    requires m.stacksLock.writer.None? && HoldsIn(m, l.thread, StacksLock) != Some(Write)
    ensures AbsStacks(Next(m, l)) == AbsStacks(m)
  {
  }

  lemma {:induction false} StacksOfWriter(m: Machine, t: ThreadId)
    requires StagesOk(m) && HalfOk(m, t) && Enabled(m, Advance(t)) && !Commits(m, Advance(t))
    requires m.stacksLock.writer == Some(t) && HoldsIn(m, t, StacksLock) == Some(Write)
    ensures AbsStacks(Next(m, Advance(t))) == AbsStacks(m)
  {
    assert StageOk(m.calls[t]);
  }

  /** A thread that holds a lock sees the abstract contents, unless the hidden half-done work is its own. */
  lemma {:induction false} SpansSeen(m: Machine, t: ThreadId)
    requires LocksOk(m) && HoldsIn(m, t, SpansLock).Some? && !(Halfway(m.calls[t]) && m.calls[t].op.Close?)
    ensures AbsSpans(m) == m.shared.spans
  {
    if m.spansLock.writer.Some? {
      assert HoldsIn(m, m.spansLock.writer.value, SpansLock) == Some(Write);
      assert HoldsIn(m, t, SpansLock) == Some(Read) ==> t in m.spansLock.readers;
    }
  }

  lemma {:induction false} StacksSeen(m: Machine, t: ThreadId)
    requires LocksOk(m) && HoldsIn(m, t, StacksLock).Some? && !(Halfway(m.calls[t]) && m.calls[t].op.Enter?)
    ensures AbsStacks(m) == m.shared.stacks
  {
    if m.stacksLock.writer.Some? {
      assert HoldsIn(m, m.stacksLock.writer.value, StacksLock) == Some(Write);
      assert HoldsIn(m, t, StacksLock) == Some(Read) ==> t in m.stacksLock.readers;
    }
  }

  lemma {:induction false} CommitSpans(m: Machine, l: Label)
    requires LocksOk(m) && StagesOk(m) && HalvesOk(m) && Enabled(m, l) && Commits(m, l)
    ensures AbsSpans(Next(m, l)) == Apply(Abs(m), l.thread, m.calls[l.thread].op).0.spans
  {
    LocksKept(m, l);
    var t := l.thread;
    assert HalfOk(m, t);
    if HoldsIn(m, t, SpansLock).None? {
      SpansUntouched(m, l);
    } else {
      SpansSeen(Next(m, l), t);
      if m.calls[t].op.Close? {
        CommitClose(m, t);
      } else {
        SpansSeen(m, t);
      }
    }
  }

  lemma {:induction false} SpansUntouched(m: Machine, l: Label)
    requires LocksOk(m) && StagesOk(m) && Enabled(m, l) && Commits(m, l) && HoldsIn(m, l.thread, SpansLock).None?
    ensures AbsSpans(Next(m, l)) == AbsSpans(m)
    ensures Apply(Abs(m), l.thread, m.calls[l.thread].op).0.spans == AbsSpans(m)
  {
    assert m.spansLock.writer != Some(l.thread);
  }

  /** The span a close takes out is the one its first half has taken out already. */
  lemma {:induction false} CommitClose(m: Machine, t: ThreadId)
    requires LocksOk(m) && HalfOk(m, t) && t in m.calls && m.calls[t].op.Close? && m.calls[t].stage == HasSecond
    ensures LastHalf(m.shared, t, m.calls[t].op).0.spans == Apply(Abs(m), t, m.calls[t].op).0.spans
  {
    assert HoldsIn(m, t, SpansLock) == Some(Write);
    assert m.spansLock.writer == Some(t);
  }

  lemma {:induction false} CommitStacks(m: Machine, l: Label)
    requires LocksOk(m) && StagesOk(m) && HalvesOk(m) && Enabled(m, l) && Commits(m, l)
    ensures AbsStacks(Next(m, l)) == Apply(Abs(m), l.thread, m.calls[l.thread].op).0.stacks
  {
    LocksKept(m, l);
    var m', t := Next(m, l), l.thread;
    var c := m.calls[t];
    assert HalfOk(m, t);
    if HoldsIn(m, t, StacksLock).Some? {
      StacksSeen(m', t);
      if c.op.Enter? {
        CommitEnter(m, t);
      } else {
        StacksSeen(m, t);
      }
    } else {
      StacksUntouched(m, l);
    }
  }

  /** The push of an enter, on the stack its first half made sure of. */
  lemma {:induction false} CommitEnter(m: Machine, t: ThreadId)
    requires LocksOk(m) && HalfOk(m, t) && t in m.calls && m.calls[t].op.Enter? && m.calls[t].stage == HasSecond
    ensures LastHalf(m.shared, t, m.calls[t].op).0.stacks == Apply(Abs(m), t, m.calls[t].op).0.stacks
  {
    assert HoldsIn(m, t, StacksLock) == Some(Write);
    assert m.stacksLock.writer == Some(t);
    SpansSeen(m, t);
    var created := m.calls[t].created;
    assert AbsStacks(m) == if created then m.shared.stacks - {t} else m.shared.stacks;
    assert StackOf(Abs(m), t) == m.shared.stacks[t];
    var st := StackOf(LastHalf(m.shared, t, m.calls[t].op).0, t);
    assert (m.shared.stacks - {t})[t := st] == m.shared.stacks[t := st];
  }

  lemma {:induction false} StacksUntouched(m: Machine, l: Label)
    requires LocksOk(m) && StagesOk(m) && Enabled(m, l) && Commits(m, l) && HoldsIn(m, l.thread, StacksLock).None?
    ensures AbsStacks(Next(m, l)) == AbsStacks(m)
    ensures Apply(Abs(m), l.thread, m.calls[l.thread].op).0.stacks == AbsStacks(m)
  {
    assert m.stacksLock.writer != Some(l.thread);
  }

  lemma {:induction false} CommitAnswer(m: Machine, l: Label)
    requires LocksOk(m) && StagesOk(m) && Commits(m, l)
    ensures LastHalf(m.shared, l.thread, m.calls[l.thread].op).1 == Apply(Abs(m), l.thread, m.calls[l.thread].op).1
  {
    var t := l.thread;
    match m.calls[t].op
    case GetSpan(_) => SpansSeen(m, t);
    case CurrentContext => StacksSeen(m, t);
    case CurrentStack => StacksSeen(m, t);
    case CurrentDepth => StacksSeen(m, t);
    case Stats =>
      SpansSeen(m, t);
      StacksSeen(m, t);
    case _ =>
  }

  /** Completing a method does to the abstract state what the atomic method does, with the same answer. */
  lemma {:induction false} CommitIsAtomic(m: Machine, l: Label)
    requires LocksOk(m) && StagesOk(m) && HalvesOk(m) && Enabled(m, l) && Commits(m, l)
    ensures var t := l.thread;
      var op := m.calls[t].op;
      var (s, answer) := Apply(Abs(m), t, op);
      Abs(Next(m, l)) == s && Next(m, l).log == m.log + [Completed(t, op, answer, m.calls[t].begun)]
  {
    CommitSpans(m, l);
    CommitStacks(m, l);
    CommitAnswer(m, l);
  }

  // --- returns

  /** The step with which a method returns. */
  predicate Returns(m: Machine, l: Label)
  {
    && l.Advance? && l.thread in m.calls
    && var c := m.calls[l.thread]; c.stage == Leaving || (c.stage == Finished && Second(c.op).None?)
  }

  /** A commit logs one method and makes it pending; a return hands the pending one over; other steps do neither. */
  lemma {:induction false} HistorySteps(m: Machine, l: Label)
    requires StagesOk(m) && Enabled(m, l)
    ensures var m', t := Next(m, l), l.thread;
      && (forall u: ThreadId :: u != t ==> Pending(m', u) == Pending(m, u))
      && (Commits(m, l) ==>
            Pending(m, t) == [] && m'.returned == m.returned
            && |Pending(m', t)| == 1 && m'.log == m.log + Pending(m', t) && Pending(m', t)[0].thread == t)
      && (Returns(m, l) ==>
            |Pending(m, t)| == 1 && Pending(m, t)[0].thread == t
            && m'.log == m.log && m'.returned == m.returned + Pending(m, t) && Pending(m', t) == [])
      && (!Commits(m, l) && !Returns(m, l) ==>
            m'.log == m.log && m'.returned == m.returned && Pending(m', t) == Pending(m, t))
  {
  }

  lemma {:induction false} ReturnsKept(m: Machine, l: Label)
    requires StagesOk(m) && ReturnsOk(m) && Enabled(m, l)
    ensures ReturnsOk(Next(m, l))
  {
    HistorySteps(m, l);
    var m', t := Next(m, l), l.thread;
    forall u: ThreadId ensures Of(m'.log, u) == Of(m'.returned, u) + Pending(m', u) {
      assert Of(m.log, u) == Of(m.returned, u) + Pending(m, u);
      if Commits(m, l) {
        CommitHistory(m.log, m'.log, Pending(m', t), t, u);
      } else if Returns(m, l) {
        CommitHistory(m.returned, m'.returned, Pending(m, t), t, u);
      }
    }
  }

  lemma {:induction false} CommitHistory(
    log: seq<Completed>, log': seq<Completed>, one: seq<Completed>, t: ThreadId, u: ThreadId)
    requires |one| == 1 && one[0].thread == t && log' == log + one
    ensures Of(log', u) == Of(log, u) + if u == t then one else []
  {
    assert one == [one[0]];
    OfAppend(log, one[0], u);
  }

  // ---------- the theorems

  lemma {:induction false} InvKept(m: Machine, l: Label)
    requires Inv(m) && Enabled(m, l)
    ensures Inv(Next(m, l))
  {
    LocksKept(m, l);
    HalvesKept(m, l);
    ReturnsKept(m, l);
    if Commits(m, l) {
      CommitIsAtomic(m, l);
      var op := m.calls[l.thread].op;
      var d := Completed(l.thread, op, Apply(Abs(m), l.thread, op).1, m.calls[l.thread].begun);
      SerialAppend(m.log, d);
      AnswersAppend(m.log, d);
    } else {
      QuietSteps(m, l);
    }
  }

  lemma {:induction false} InvReached(ls: seq<Label>)
    requires Play(ls).Some?
    ensures Inv(Play(ls).value)
  {
    if ls != [] {
      InvReached(ls[..|ls| - 1]);
      InvKept(Play(ls[..|ls| - 1]).value, ls[|ls| - 1]);
    }
  }

  /**
    Every interleaving is serial: after any schedule there is one order of the completed methods, agreeing
    with the order in which each thread's own calls returned, such that performing them one at a time gives
    every method the answer it got, and gives the shared state whenever no method is in progress.
   */
  lemma {:induction false} Serializable(ls: seq<Label>)
    requires Play(ls).Some?
    ensures var m := Play(ls).value;
      && AnswersOk(m.log)
      && (forall t: ThreadId :: Of(m.log, t) == Of(m.returned, t) + Pending(m, t))
      && (m.calls == map[] ==> m.shared == Serial(m.log))
  {
    InvReached(ls);
    var m := Play(ls).value;
    if m.calls == map[] {
      assert forall t: ThreadId :: HoldsIn(m, t, SpansLock) == None && HoldsIn(m, t, StacksLock) == None;
      assert LockOk(m, SpansLock) && LockOk(m, StacksLock);
      assert m.spansLock.writer.None? && m.stacksLock.writer.None?;
    }
  }

  // ---------- real time

  /** A call is stamped with the step of the schedule that began it. */
  ghost predicate BeganAt(ls: seq<Label>, t: ThreadId, op: Op, begun: nat)
  {
    begun < |ls| && ls[begun] == Begin(t, op)
  }

  ghost predicate Stamped(ls: seq<Label>, m: Machine)
  {
    && m.clock == |ls|
    && (forall t: ThreadId :: t in m.calls ==> BeganAt(ls, t, m.calls[t].op, m.calls[t].begun))
    && (forall i :: 0 <= i < |m.log| ==> BeganAt(ls, m.log[i].thread, m.log[i].op, m.log[i].begun))
  }

  /** In every schedule the stamps are right. */
  lemma {:induction false} StampsReached(ls: seq<Label>)
    requires Play(ls).Some?
    ensures Stamped(ls, Play(ls).value)
  {
    if ls != [] {
      StampsReached(ls[..|ls| - 1]);
      StampsKept(ls[..|ls| - 1], Play(ls[..|ls| - 1]).value, ls[|ls| - 1]);
      assert ls == ls[..|ls| - 1] + [ls[|ls| - 1]];
    }
  }

  lemma {:induction false} StampsKept(ls: seq<Label>, m: Machine, l: Label)
    requires Stamped(ls, m) && Enabled(m, l)
    ensures Stamped(ls + [l], Next(m, l))
  {
    var m', ls' := Next(m, l), ls + [l];
    assert forall t: ThreadId, op, n: nat :: BeganAt(ls, t, op, n) ==> BeganAt(ls', t, op, n);
    forall t: ThreadId | t in m'.calls ensures BeganAt(ls', t, m'.calls[t].op, m'.calls[t].begun) {
      if t != l.thread {
        OthersKept(m, l, t);
      } else if l.Begin? {
        assert ls'[|ls|] == l;
      } else {
        assert BeganAt(ls, t, m.calls[t].op, m.calls[t].begun);
      }
    }
    StampLogged(m, l);
  }

  /** A step logs at most one method, the one in progress on its thread. */
  lemma {:induction false} StampLogged(m: Machine, l: Label)
    requires Enabled(m, l)
    ensures var m', t := Next(m, l), l.thread;
      m'.log == m.log
      || (l.Advance? && |m'.log| == |m.log| + 1 && m.log == m'.log[..|m.log|]
          && var d := m'.log[|m.log|]; d.thread == t && d.op == m.calls[t].op && d.begun == m.calls[t].begun)
  {
  }

  lemma {:induction false} LogGrows(ls: seq<Label>, k: nat)
    requires Play(ls).Some? && k <= |ls|
    ensures Play(ls[..k]).Some? && Play(ls[..k]).value.log <= Play(ls).value.log
    decreases |ls|
  {
    if k == |ls| {
      assert ls[..k] == ls;
    } else {
      var front := ls[..|ls| - 1];
      LogGrows(front, k);
      assert front[..k] == ls[..k];
      StampLogged(Play(front).value, ls[|ls| - 1]);
    }
  }

  lemma {:induction false} OfMember(log: seq<Completed>, d: Completed)
    ensures d in log <==> d in Of(log, d.thread)
  {
    if log != [] {
      OfMember(log[..|log| - 1], d);
      assert log == log[..|log| - 1] + [log[|log| - 1]];
    }
  }

  /**
    The serial order respects real time: cut any schedule at any step. Every method that had returned by then
    stands in the serial order before every method that began at that step or later.
   */
  lemma {:induction false} RealTime(ls: seq<Label>, k: nat, d: Completed, i: nat)
    requires Play(ls).Some? && k <= |ls|
    ensures Play(ls[..k]).Some?
    ensures var before, m := Play(ls[..k]).value, Play(ls).value;
      d in before.returned && i < |m.log| && m.log[i].begun >= k ==>
        exists j :: 0 <= j < i && m.log[j] == d
    ensures var m := Play(ls).value;
      i < |m.log| ==> BeganAt(ls, m.log[i].thread, m.log[i].op, m.log[i].begun)
  {
    LogGrows(ls, k);
    StampsReached(ls);
    StampsReached(ls[..k]);
    InvReached(ls[..k]);
    var before, m := Play(ls[..k]).value, Play(ls).value;
    if d in before.returned && i < |m.log| && m.log[i].begun >= k {
      var j := ReturnedIsLogged(before, d);
      EarlierInLog(ls[..k], before, m.log);
      assert m.log[j] == d;
    }
  }

  lemma {:induction false} ReturnedIsLogged(m: Machine, d: Completed) returns (j: nat)
    requires ReturnsOk(m) && d in m.returned
    ensures j < |m.log| && m.log[j] == d
  {
    OfMember(m.returned, d);
    assert Of(m.log, d.thread) == Of(m.returned, d.thread) + Pending(m, d.thread);
    OfMember(m.log, d);
    j :| 0 <= j < |m.log| && m.log[j] == d;
  }

  lemma {:induction false} EarlierInLog(ls: seq<Label>, m: Machine, log: seq<Completed>)
    requires Stamped(ls, m) && m.log <= log
    ensures forall n :: 0 <= n < |m.log| ==> log[n].begun < |ls|
  {
    forall n | 0 <= n < |m.log| ensures log[n].begun < |ls| {
      assert log[n] == m.log[n];
    }
  }
}
