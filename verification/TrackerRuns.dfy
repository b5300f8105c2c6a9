/** What holds over whole runs of the span tracker, whatever the interleaving of threads. */
module TrackerRuns {
  import opened Common
  import opened Tracker
  import Json

  // ---------- isolation

  /** No step changes the stack of another thread, nor whether it has one. */
  lemma {:induction false} StepIsolated(s: State, t: ThreadId, op: Op, u: ThreadId)
    requires u != t
    ensures var s' := Apply(s, t, op).0; StackOf(s', u) == StackOf(s, u) && (u in s'.stacks <==> u in s.stacks)
  {
    if t in s.stacks {
      match op
      case Exit(id) => KeptIsolated(s.stacks, t, Popped(s.stacks[t], id), u);
      case Close(id) => KeptIsolated(s.stacks, t, Without(s.stacks[t], id), u);
      case _ =>
    }
  }

  lemma {:induction false} KeptIsolated(stacks: map<ThreadId, Stack>, t: ThreadId, st: Stack, u: ThreadId)
    requires u != t
    ensures u in Kept(stacks, t, st) <==> u in stacks
    ensures u in stacks ==> Kept(stacks, t, st)[u] == stacks[u]
  {
  }

  /** A thread's stack depends only on its own steps: other threads can take any steps in between. */
  lemma {:induction false} RunIsolated(s: State, evs: seq<Event>, u: ThreadId)
    requires forall i :: 0 <= i < |evs| ==> evs[i].thread != u
    ensures StackOf(Run(s, evs), u) == StackOf(s, u) && (u in Run(s, evs).stacks <==> u in s.stacks)
  {
    if evs != [] {
      var front, e := evs[..|evs| - 1], evs[|evs| - 1];
      RunIsolated(s, front, u);
      StepIsolated(Run(s, front), e.thread, e.op, u);
    }
  }

  /** Every span is stored under its own id. */
  ghost predicate WellKeyed(s: State)
  {
    forall k :: k in s.spans ==> s.spans[k].id == k
  }

  lemma {:induction false} RunWellKeyed(s: State, evs: seq<Event>)
    requires WellKeyed(s)
    ensures WellKeyed(Run(s, evs))
  {
    if evs != [] {
      RunWellKeyed(s, evs[..|evs| - 1]);
    }
  }

  // ---------- the span table, from the events alone

  predicate Creates(op: Op, id: SpanId)
  {
    op.NewSpan? && op.data.id == id
  }

  /** The event at `k` creates the span and no later one closes it. */
  ghost predicate CreatedAt(evs: seq<Event>, k: int, id: SpanId)
  {
    0 <= k < |evs| && Creates(evs[k].op, id) && forall j :: k < j < |evs| ==> evs[j].op != Close(id)
  }

  lemma {:induction false} CreatedNext(evs: seq<Event>, e: Event, k: int, id: SpanId)
    ensures CreatedAt(evs + [e], k, id) <==>
      if k == |evs| then Creates(e.op, id) else CreatedAt(evs, k, id) && e.op != Close(id)
  {
    var all := evs + [e];
    assert all[|evs|] == e;
    assert forall j :: 0 <= j < |evs| ==> all[j] == evs[j];
  }

  ghost predicate EverCreated(evs: seq<Event>, id: SpanId)
  {
    exists k :: CreatedAt(evs, k, id)
  }

  lemma {:induction false} EverCreatedNext(evs: seq<Event>, e: Event, id: SpanId)
    ensures EverCreated(evs + [e], id) <==> Creates(e.op, id) || (EverCreated(evs, id) && e.op != Close(id))
  {
    CreatedNext(evs, e, |evs|, id);
    forall k | k != |evs| ensures CreatedAt(evs + [e], k, id) <==> CreatedAt(evs, k, id) && e.op != Close(id) {
      CreatedNext(evs, e, k, id);
    }
    assert !CreatedAt(evs, |evs|, id);
  }

  lemma {:induction false} SpansNext(s: State, e: Event, id: SpanId)
    ensures id in Apply(s, e.thread, e.op).0.spans <==> Creates(e.op, id) || (id in s.spans && e.op != Close(id))
  {
  }

  /** A span is known after a run if and only if it was created and not closed since, by whatever thread. */
  lemma {:induction false} KnownIff(evs: seq<Event>, id: SpanId)
    ensures id in Run(INITIAL, evs).spans <==> EverCreated(evs, id)
  {
    if evs != [] {
      var front, e := evs[..|evs| - 1], evs[|evs| - 1];
      KnownIff(front, id);
      assert front + [e] == evs;
      EverCreatedNext(front, e, id);
      SpansNext(Run(INITIAL, front), e, id);
    }
  }

  /** The event gives the field of the span the value. */
  predicate Writes(op: Op, id: SpanId, f: string, v: Json.JsonValue)
  {
    match op
    case NewSpan(data) => data.id == id && f in data.fields && data.fields[f] == v
    case Record(i, fields) => i == id && f in fields && fields[f] == v
    case _ => false
  }

  /** The event decides what the field of the span is, or that it is absent. */
  predicate Settles(op: Op, id: SpanId, f: string)
  {
    Creates(op, id) || op == Close(id) || (op.Record? && op.id == id && f in op.fields)
  }

  /** The event at `k` is the last one that settles the field, and it wrote the value. */
  ghost predicate LastWrite(evs: seq<Event>, k: int, id: SpanId, f: string, v: Json.JsonValue)
  {
    && 0 <= k < |evs| && Writes(evs[k].op, id, f, v)
    && forall j :: k < j < |evs| ==> !Settles(evs[j].op, id, f)
  }

  lemma {:induction false} LastWriteNext(
    evs: seq<Event>, e: Event, k: int, id: SpanId, f: string, v: Json.JsonValue)
    ensures LastWrite(evs + [e], k, id, f, v) <==>
      if k == |evs| then Writes(e.op, id, f, v) else LastWrite(evs, k, id, f, v) && !Settles(e.op, id, f)
  {
    var all := evs + [e];
    assert all[|evs|] == e;
    assert forall j :: 0 <= j < |evs| ==> all[j] == evs[j];
  }

  ghost predicate Written(evs: seq<Event>, id: SpanId, f: string, v: Json.JsonValue)
  {
    exists k :: LastWrite(evs, k, id, f, v)
  }

  lemma {:induction false} WrittenNext(evs: seq<Event>, e: Event, id: SpanId, f: string, v: Json.JsonValue)
    ensures Written(evs + [e], id, f, v) <==>
      Writes(e.op, id, f, v) || (Written(evs, id, f, v) && !Settles(e.op, id, f))
  {
    LastWriteNext(evs, e, |evs|, id, f, v);
    forall k | k != |evs|
      ensures LastWrite(evs + [e], k, id, f, v) <==> LastWrite(evs, k, id, f, v) && !Settles(e.op, id, f)
    {
      LastWriteNext(evs, e, k, id, f, v);
    }
    assert !LastWrite(evs, |evs|, id, f, v);
  }

  ghost predicate HasField(s: State, id: SpanId, f: string, v: Json.JsonValue)
  {
    id in s.spans && f in s.spans[id].fields && s.spans[id].fields[f] == v
  }

  lemma {:induction false} FieldNext(s: State, e: Event, id: SpanId, f: string, v: Json.JsonValue)
    ensures HasField(Apply(s, e.thread, e.op).0, id, f, v) <==>
      (Writes(e.op, id, f, v) && (e.op.Record? ==> id in s.spans)) || (HasField(s, id, f, v) && !Settles(e.op, id, f))
  {
  }

  /**
    Recording over a whole run: the field of a known span has a value if and only if the last event that creates
    the span or records that field wrote it.
   */
  lemma {:induction false} FieldIsLastWrite(evs: seq<Event>, id: SpanId, f: string, v: Json.JsonValue)
    requires id in Run(INITIAL, evs).spans
    ensures HasField(Run(INITIAL, evs), id, f, v) <==> Written(evs, id, f, v)
  {
    var front, e := evs[..|evs| - 1], evs[|evs| - 1];
    assert front + [e] == evs;
    WrittenNext(front, e, id, f, v);
    FieldNext(Run(INITIAL, front), e, id, f, v);
    SpansNext(Run(INITIAL, front), e, id);
    if !Creates(e.op, id) {
      FieldIsLastWrite(front, id, f, v);
    }
  }

  // ---------- conservation

  /** Entries a step adds: one when it enters a live span. */
  function Pushes(s: State, op: Op): (r: nat)
  {
    if op.Enter? && op.id in s.spans then 1 else 0
  }

  /** Entries a step pops: one when it exits the span on top of its own stack. */
  function Pops(s: State, t: ThreadId, op: Op): (r: nat)
  {
    if op.Exit? && Top(StackOf(s, t)) == Some(op.id) then 1 else 0
  }

  /** How often a span is on a stack. */
  function Occurrences(st: Stack, id: SpanId): (r: nat)
  {
    if st == [] then 0
    else Occurrences(st[..|st| - 1], id) + if st[|st| - 1].data.id == id then 1 else 0
  }

  /** Entries a step removes: all those of the closed span on the closing thread's stack. */
  function Removals(s: State, t: ThreadId, op: Op): (r: nat)
  {
    if op.Close? then Occurrences(StackOf(s, t), op.id) else 0
  }

  ghost function AllPushes(s: State, evs: seq<Event>): (r: nat)
  {
    if evs == [] then 0
    else AllPushes(s, evs[..|evs| - 1]) + Pushes(Run(s, evs[..|evs| - 1]), evs[|evs| - 1].op)
  }

  ghost function AllPops(s: State, evs: seq<Event>): (r: nat)
  {
    if evs == [] then 0
    else
      AllPops(s, evs[..|evs| - 1]) + Pops(Run(s, evs[..|evs| - 1]), evs[|evs| - 1].thread, evs[|evs| - 1].op)
  }

  ghost function AllRemovals(s: State, evs: seq<Event>): (r: nat)
  {
    if evs == [] then 0
    else
      AllRemovals(s, evs[..|evs| - 1]) + Removals(Run(s, evs[..|evs| - 1]), evs[|evs| - 1].thread, evs[|evs| - 1].op)
  }

  lemma {:induction false} WithoutCounts(st: Stack, id: SpanId)
    ensures |Without(st, id)| + Occurrences(st, id) == |st|
  {
    if st != [] {
      WithoutCounts(st[..|st| - 1], id);
    }
  }

  lemma {:induction false} TotalOf(s: State, t: ThreadId)
    ensures Total(s.stacks) == Total(s.stacks - {t}) + |StackOf(s, t)|
  {
    if t in s.stacks {
      TotalSplit(s.stacks, t);
    } else {
      assert s.stacks - {t} == s.stacks;
    }
  }

  lemma {:induction false} StepConserves(s: State, t: ThreadId, op: Op)
    ensures Total(Apply(s, t, op).0.stacks) + Pops(s, t, op) + Removals(s, t, op) == Total(s.stacks) + Pushes(s, op)
  {
    TotalOf(s, t);
    match op
    case Enter(id) =>
      TotalSet(s.stacks, t, if id in s.spans then Pushed(StackOf(s, t), s.spans[id]) else StackOf(s, t));
    case Exit(id) =>
      if t in s.stacks {
        TotalKept(s.stacks, t, Popped(s.stacks[t], id));
      }
    case Close(id) =>
      if t in s.stacks {
        TotalKept(s.stacks, t, Without(s.stacks[t], id));
        WithoutCounts(s.stacks[t], id);
      }
    case _ =>
  }

  /** Conservation: `active_spans` is pushes minus pops minus entries removed by close, after every run. */
  lemma {:induction false} ActiveSpansConserved(evs: seq<Event>, t: ThreadId)
    ensures var s := Run(INITIAL, evs);
      Apply(s, t, Stats).1.activeSpans == AllPushes(INITIAL, evs) - AllPops(INITIAL, evs) - AllRemovals(INITIAL, evs)
  {
    if evs != [] {
      var front, e := evs[..|evs| - 1], evs[|evs| - 1];
      ActiveSpansConserved(front, t);
      StepConserves(Run(INITIAL, front), e.thread, e.op);
    }
  }

  // ---------- empty stacks

  ghost predicate NoEmptyStack(s: State)
  {
    forall t :: t in s.stacks ==> s.stacks[t] != []
  }

  /** A step leaves an empty stack behind if and only if it enters an unknown span on a thread without a stack. */
  lemma {:induction false} EmptyStackIff(s: State, t: ThreadId, op: Op)
    requires NoEmptyStack(s)
    ensures NoEmptyStack(Apply(s, t, op).0) <==> !(op.Enter? && op.id !in s.spans && t !in s.stacks)
  {
    var s' := Apply(s, t, op).0;
    if op.Enter? && op.id !in s.spans && t !in s.stacks {
      assert s'.stacks[t] == [];
    }
  }

  ghost predicate EntersAreLive(s: State, evs: seq<Event>)
  {
    evs == []
    || (EntersAreLive(s, evs[..|evs| - 1])
        && (evs[|evs| - 1].op.Enter? ==> evs[|evs| - 1].op.id in Run(s, evs[..|evs| - 1]).spans))
  }

  /** If every enter names a live span, `active_threads` counts exactly the threads with an open entry. */
  lemma {:induction false} ActiveThreadsExact(evs: seq<Event>, t: ThreadId)
    requires EntersAreLive(INITIAL, evs)
    ensures var s := Run(INITIAL, evs);
      && NoEmptyStack(s)
      && Apply(s, t, Stats).1.activeThreads == |set u | u in s.stacks && StackOf(s, u) != []|
      && forall u :: u !in s.stacks ==> StackOf(s, u) == []
  {
    if evs != [] {
      var front, e := evs[..|evs| - 1], evs[|evs| - 1];
      ActiveThreadsExact(front, t);
      EmptyStackIff(Run(INITIAL, front), e.thread, e.op);
    }
    var s := Run(INITIAL, evs);
    assert (set u | u in s.stacks && StackOf(s, u) != []) == s.stacks.Keys;
  }

  // ---------- depth and parent

  /** Depth and parent of every entry describe its place in the stack. */
  ghost predicate Tidy(st: Stack)
  {
    forall i :: 0 <= i < |st| ==> st[i].depth == i && st[i].parentId == Top(st[..i])
  }

  /** Weaker: an entry is never recorded above where it is. */
  ghost predicate DepthAtLeastIndex(st: Stack)
  {
    forall i :: 0 <= i < |st| ==> st[i].depth >= i
  }

  lemma {:induction false} WithoutKeepsDepth(st: Stack, id: SpanId)
    requires DepthAtLeastIndex(st)
    ensures DepthAtLeastIndex(Without(st, id))
  {
    if st != [] {
      WithoutKeepsDepth(st[..|st| - 1], id);
    }
  }

  lemma {:induction false} StepKeepsDepth(s: State, t: ThreadId, op: Op)
    requires forall u :: DepthAtLeastIndex(StackOf(s, u))
    ensures forall u :: DepthAtLeastIndex(StackOf(Apply(s, t, op).0, u))
  {
    var s' := Apply(s, t, op).0;
    forall u ensures DepthAtLeastIndex(StackOf(s', u)) {
      assert DepthAtLeastIndex(StackOf(s, u));
      if u != t {
        StepIsolated(s, t, op, u);
      } else if op.Close? {
        WithoutKeepsDepth(StackOf(s, t), op.id);
      }
    }
  }

  /** In every reachable state each entry's depth is at least its index. */
  lemma {:induction false} DepthBound(evs: seq<Event>)
    ensures forall u :: DepthAtLeastIndex(StackOf(Run(INITIAL, evs), u))
  {
    if evs != [] {
      DepthBound(evs[..|evs| - 1]);
      StepKeepsDepth(Run(INITIAL, evs[..|evs| - 1]), evs[|evs| - 1].thread, evs[|evs| - 1].op);
    }
  }

  /** All entries of the span are on top: no entry of another span is above one of them. */
  ghost predicate OnTop(st: Stack, id: SpanId)
  {
    forall i, j :: 0 <= i < j < |st| && st[i].data.id == id ==> st[j].data.id == id
  }

  lemma {:induction false} WithoutTop(st: Stack, id: SpanId)
    requires OnTop(st, id)
    ensures Without(st, id) == st[..|Without(st, id)|]
    ensures forall i :: |Without(st, id)| <= i < |st| ==> st[i].data.id == id
  {
    if st != [] {
      var front, last := st[..|st| - 1], st[|st| - 1];
      WithoutTop(front, id);
      if last.data.id != id {
        assert forall i :: 0 <= i < |front| ==> st[i].data.id != id;
        WithoutNone(front, id);
      }
    }
  }

  lemma {:induction false} WithoutNone(st: Stack, id: SpanId)
    requires forall i :: 0 <= i < |st| ==> st[i].data.id != id
    ensures Without(st, id) == st
  {
    if st != [] {
      WithoutNone(st[..|st| - 1], id);
    }
  }

  /** The surviving entry at `j` moves down by the number of entries removed below it. */
  lemma {:induction false} WithoutIndex(st: Stack, id: SpanId, j: nat)
    requires j < |st| && st[j].data.id != id
    ensures var i := |Without(st[..j], id)|; i < |Without(st, id)| && Without(st, id)[i] == st[j]
  {
    if j < |st| - 1 {
      WithoutIndex(st[..|st| - 1], id, j);
      assert st[..|st| - 1][..j] == st[..j];
    }
  }

  lemma {:induction false} WithoutShrinks(st: Stack, id: SpanId, i: nat)
    requires i < |st| && st[i].data.id == id
    ensures |Without(st, id)| < |st|
  {
    if i < |st| - 1 {
      WithoutShrinks(st[..|st| - 1], id, i);
    }
  }

  /** Closing keeps a tidy stack tidy if and only if the closed span's entries are all on top. */
  lemma {:induction false} CloseTidyIff(st: Stack, id: SpanId)
    requires Tidy(st)
    ensures Tidy(Without(st, id)) <==> OnTop(st, id)
  {
    if OnTop(st, id) {
      WithoutTop(st, id);
      PrefixTidy(st, |Without(st, id)|);
    } else {
      var i, j :| 0 <= i < j < |st| && st[i].data.id == id && st[j].data.id != id;
      WithoutIndex(st, id, j);
      WithoutShrinks(st[..j], id, i);
      assert Without(st, id)[|Without(st[..j], id)|].depth == j;
    }
  }

  lemma {:induction false} PrefixTidy(st: Stack, n: nat)
    requires Tidy(st) && n <= |st|
    ensures Tidy(st[..n])
  {
    assert forall i :: 0 <= i < n ==> st[..n][..i] == st[..i];
  }

  lemma {:induction false} PushTidy(st: Stack, data: SpanData)
    requires Tidy(st)
    ensures Tidy(Pushed(st, data))
  {
    var st' := Pushed(st, data);
    assert forall i :: 0 <= i <= |st| ==> st'[..i] == st[..i];
    assert st[..|st|] == st;
  }

  lemma {:induction false} OwnStepTidy(s: State, t: ThreadId, op: Op)
    requires Tidy(StackOf(s, t)) && (op.Close? ==> OnTop(StackOf(s, t), op.id))
    ensures Tidy(StackOf(Apply(s, t, op).0, t))
  {
    match op
    case Enter(id) =>
      if id in s.spans {
        PushTidy(StackOf(s, t), s.spans[id]);
      }
    case Exit(id) =>
      if StackOf(s, t) != [] {
        PrefixTidy(StackOf(s, t), |StackOf(s, t)| - 1);
      }
    case Close(id) => CloseTidyIff(StackOf(s, t), id);
    case _ =>
  }

  lemma {:induction false} StepTidy(s: State, t: ThreadId, op: Op)
    requires AllTidy(s) && (op.Close? ==> OnTop(StackOf(s, t), op.id))
    ensures AllTidy(Apply(s, t, op).0)
  {
    forall u: ThreadId ensures Tidy(StackOf(Apply(s, t, op).0, u)) {
      assert Tidy(StackOf(s, u));
      if u != t {
        StepIsolated(s, t, op, u);
      } else {
        OwnStepTidy(s, t, op);
      }
    }
  }

  ghost predicate AllTidy(s: State)
  {
    forall u: ThreadId :: Tidy(StackOf(s, u))
  }

  /** Every stack is tidy all through the run. */
  ghost predicate AlwaysTidy(evs: seq<Event>)
  {
    forall k :: 0 <= k <= |evs| ==> AllTidy(Run(INITIAL, evs[..k]))
  }

  ghost predicate CloseOnTop(s: State, e: Event)
  {
    e.op.Close? ==> OnTop(StackOf(s, e.thread), e.op.id)
  }

  /** Every close of the run finds the entries of its span on top of its thread's stack, if there are any. */
  ghost predicate ClosesOnTop(evs: seq<Event>)
  {
    forall k :: 0 <= k < |evs| ==> CloseOnTop(Run(INITIAL, evs[..k]), evs[k])
  }

  lemma {:induction false} RunNext(evs: seq<Event>, k: nat)
    requires k < |evs|
    ensures Run(INITIAL, evs[..k + 1]) == Apply(Run(INITIAL, evs[..k]), evs[k].thread, evs[k].op).0
  {
    assert evs[..k + 1][..k] == evs[..k];
  }

  lemma {:induction false} TidyUpTo(evs: seq<Event>, k: nat)
    requires ClosesOnTop(evs) && k <= |evs|
    ensures AllTidy(Run(INITIAL, evs[..k]))
  {
    if k > 0 {
      TidyUpTo(evs, k - 1);
      RunNext(evs, k - 1);
      assert CloseOnTop(Run(INITIAL, evs[..k - 1]), evs[k - 1]);
      StepTidy(Run(INITIAL, evs[..k - 1]), evs[k - 1].thread, evs[k - 1].op);
    }
  }

  /** A close that leaves a tidy stack tidy was on top. */
  lemma {:induction false} TidyCloseOnTop(s: State, e: Event)
    requires AllTidy(s) && AllTidy(Apply(s, e.thread, e.op).0)
    ensures CloseOnTop(s, e)
  {
    if e.op.Close? {
      assert Tidy(StackOf(s, e.thread));
      CloseTidyIff(StackOf(s, e.thread), e.op.id);
      assert StackOf(Apply(s, e.thread, e.op).0, e.thread) == Without(StackOf(s, e.thread), e.op.id);
    }
  }

  /**
    Exactly in which runs depth is always the index and the parent always the entry below: those in which every
    close finds the entries of its span on top of the closing thread's stack.
   */
  lemma {:induction false} TidyIff(evs: seq<Event>)
    ensures AlwaysTidy(evs) <==> ClosesOnTop(evs)
  {
    if ClosesOnTop(evs) {
      forall k | 0 <= k <= |evs| ensures AllTidy(Run(INITIAL, evs[..k])) {
        TidyUpTo(evs, k);
      }
    }
    if AlwaysTidy(evs) {
      forall k | 0 <= k < |evs| ensures CloseOnTop(Run(INITIAL, evs[..k]), evs[k]) {
        RunNext(evs, k);
        assert AllTidy(Run(INITIAL, evs[..k])) && AllTidy(Run(INITIAL, evs[..k + 1]));
        TidyCloseOnTop(Run(INITIAL, evs[..k]), evs[k]);
      }
    }
  }

  /** Depth is not always the index: closing the outer of two entered spans leaves the inner one misnumbered. */
  lemma {:induction false} OwnCloseMisnumbers(a: SpanData, b: SpanData, t: ThreadId)
    requires a.id != b.id
    ensures var evs := [
        Event(t, NewSpan(a)), Event(t, NewSpan(b)),
        Event(t, Enter(a.id)), Event(t, Enter(b.id)), Event(t, Close(a.id))];
      StackOf(Run(INITIAL, evs), t) == [StackEntry(b, 1, Some(a.id))]
  {
    var e1, e2, e3, e4, e5 :=
      Event(t, NewSpan(a)), Event(t, NewSpan(b)), Event(t, Enter(a.id)), Event(t, Enter(b.id)), Event(t, Close(a.id));
    var evs := [e1, e2, e3, e4, e5];
    assert evs[..4] == [e1, e2, e3, e4] && [e1, e2, e3, e4][..3] == [e1, e2, e3];
    assert [e1, e2, e3][..2] == [e1, e2] && [e1, e2][..1] == [e1] && [e1][..0] == [];
    var x, y := StackEntry(a, 0, None), StackEntry(b, 1, Some(a.id));
    assert Run(INITIAL, []) == INITIAL;
    assert Run(INITIAL, [e1]) == State(map[a.id := a], map[]);
    assert Run(INITIAL, [e1, e2]) == State(map[a.id := a, b.id := b], map[]);
    assert Pushed([], a) == [x] && Pushed([x], b) == [x, y];
    assert Run(INITIAL, [e1, e2, e3]) == State(map[a.id := a, b.id := b], map[t := [x]]);
    assert StackOf(Run(INITIAL, [e1, e2, e3]), t) == [x];
    assert StackOf(Run(INITIAL, [e1, e2, e3, e4]), t) == [x, y];
    assert [x, y][..1] == [x] && [x][..0] == [];
    assert Without([x], a.id) == [];
    assert Without([x, y], a.id) == [y];
  }

  // ---------- balanced runs

  /**
    The spans a thread has entered and not yet exited, when its own steps are well nested so far:
    every exit names the innermost open span, and there is no close.
   */
  function Open(evs: seq<Event>, t: ThreadId): (r: Option<seq<SpanId>>)
  {
    if evs == [] then Some([])
    else
      var e := evs[|evs| - 1];
      match Open(evs[..|evs| - 1], t)
      case None => None
      case Some(open) =>
        if e.thread != t then Some(open)
        else
          match e.op
          case Enter(id) => Some(open + [id])
          case Exit(id) => if open != [] && open[|open| - 1] == id then Some(open[..|open| - 1]) else None
          case Close(_) => None
          case _ => Some(open)
  }

  /** Each span the thread enters is live at that moment. */
  ghost predicate OwnEntersLive(s: State, evs: seq<Event>, t: ThreadId)
  {
    evs == []
    || (OwnEntersLive(s, evs[..|evs| - 1], t)
        && var e := evs[|evs| - 1];
           e.thread == t && e.op.Enter? ==> e.op.id in Run(s, evs[..|evs| - 1]).spans)
  }

  /** The stack is the one the run began with, and on top of it one entry for each open span. */
  ghost predicate Extends(st: Stack, base: Stack, open: seq<SpanId>)
  {
    && |st| == |base| + |open| && st[..|base|] == base
    && forall i :: 0 <= i < |open| ==> st[|base|..][i].data.id == open[i]
  }

  lemma {:induction false} ExtendsPush(st: Stack, base: Stack, open: seq<SpanId>, data: SpanData)
    requires Extends(st, base, open)
    ensures Extends(Pushed(st, data), base, open + [data.id])
  {
    var st' := Pushed(st, data);
    assert st'[|base|..] == st[|base|..] + [st'[|st|]];
  }

  lemma {:induction false} ExtendsPop(st: Stack, base: Stack, open: seq<SpanId>)
    requires Extends(st, base, open) && open != []
    ensures Top(st) == Some(open[|open| - 1]) && Extends(st[..|st| - 1], base, open[..|open| - 1])
  {
    assert st[|base|..][|open| - 1] == st[|st| - 1];
    assert st[..|st| - 1][|base|..] == st[|base|..][..|open| - 1];
  }

  lemma {:induction false} OpenSpansOnTop(s: State, evs: seq<Event>, t: ThreadId)
    requires WellKeyed(s) && OwnEntersLive(s, evs, t) && Open(evs, t).Some?
    ensures Extends(StackOf(Run(s, evs), t), StackOf(s, t), Open(evs, t).value)
  {
    var base := StackOf(s, t);
    if evs != [] {
      var front, e := evs[..|evs| - 1], evs[|evs| - 1];
      OpenSpansOnTop(s, front, t);
      RunWellKeyed(s, front);
      var mid := Run(s, front);
      var open := Open(front, t).value;
      if e.thread != t {
        StepIsolated(mid, e.thread, e.op, t);
      } else if e.op.Enter? {
        ExtendsPush(StackOf(mid, t), base, open, mid.spans[e.op.id]);
      } else if e.op.Exit? {
        ExtendsPop(StackOf(mid, t), base, open);
      }
    } else {
      assert base[..|base|] == base;
    }
  }

  /**
    Balanced runs restore the stack: when a thread's steps are well nested, every span it enters is live at
    its enter and it closes nothing, then whatever the other threads did, its stack ends as it began.
   */
  lemma {:induction false} BalancedRestores(s: State, evs: seq<Event>, t: ThreadId)
    requires WellKeyed(s) && OwnEntersLive(s, evs, t) && Open(evs, t) == Some([])
    ensures StackOf(Run(s, evs), t) == StackOf(s, t)
  {
    OpenSpansOnTop(s, evs, t);
    var st := StackOf(Run(s, evs), t);
    assert st[..|st|] == st;
  }
}
