/**
  The span tracker with every method one atomic step: a shared table of spans and a stack of entered
  spans for each thread.
 */
module Tracker {
  import opened Common
  import Json

  type ThreadId = nat
  type SpanId = nat

  datatype Level = Trace | Debug | Info | Warn | Error

  type Fields = map<string, Json.JsonValue>

  datatype SpanData = SpanData(
    id: SpanId, name: string, target: string, level: Level, fields: Fields, file: Option<string>, line: Option<nat>)

  datatype StackEntry = StackEntry(data: SpanData, depth: nat, parentId: Option<SpanId>)

  datatype SpanContext = SpanContext(
    id: SpanId, name: string, target: string, level: Level, fields: Fields, depth: nat, parentId: Option<SpanId>)

  type Stack = seq<StackEntry>

  datatype State = State(spans: map<SpanId, SpanData>, stacks: map<ThreadId, Stack>)

  const INITIAL: State := State(map[], map[])

  datatype Op =
    | NewSpan(data: SpanData) | Enter(id: SpanId) | Exit(id: SpanId) | Close(id: SpanId)
    | Record(id: SpanId, fields: Fields)
    | CurrentContext | CurrentStack | GetSpan(id: SpanId) | CurrentDepth | Stats

  datatype Answer =
    | Nothing
    | Context(context: Option<SpanContext>)
    | Contexts(contexts: seq<SpanContext>)
    | Span(span: Option<SpanData>)
    | Depth(depth: nat)
    | Metrics(totalSpans: nat, activeThreads: nat, activeSpans: nat)

  // ---------- stacks

  function StackOf(s: State, t: ThreadId): (r: Stack)
  {
    if t in s.stacks then s.stacks[t] else []
  }

  function Top(st: Stack): (r: Option<SpanId>)
  {
    if st == [] then None else Some(st[|st| - 1].data.id)
  }

  function Pushed(st: Stack, data: SpanData): (r: Stack)
  {
    st + [StackEntry(data, |st|, Top(st))]
  }

  function Popped(st: Stack, id: SpanId): (r: Stack)
  {
    if Top(st) == Some(id) then st[..|st| - 1] else st
  }

  /** The entries of other spans, in order. */
  function Without(st: Stack, id: SpanId): (r: Stack)
    ensures |r| <= |st|
  {
    if st == [] then []
    else
      Without(st[..|st| - 1], id) + if st[|st| - 1].data.id != id then [st[|st| - 1]] else []
  }

  function ContextOf(e: StackEntry): (r: SpanContext)
  {
    SpanContext(e.data.id, e.data.name, e.data.target, e.data.level, e.data.fields, e.depth, e.parentId)
  }

  function ContextsOf(st: Stack): (r: seq<SpanContext>)
    ensures |r| == |st| && forall i :: 0 <= i < |st| ==> r[i] == ContextOf(st[i])
  {
    seq(|st|, i requires 0 <= i < |st| => ContextOf(st[i]))
  }

  /** Store a stack, dropping the thread when it is empty. */
  function Kept(stacks: map<ThreadId, Stack>, t: ThreadId, st: Stack): (r: map<ThreadId, Stack>)
  {
    if st == [] then stacks - {t} else stacks[t := st]
  }

  /** The number of entries on all stacks. */
  ghost function Total(stacks: map<ThreadId, Stack>): (r: nat)
    decreases |stacks|
  {
    if stacks == map[] then 0
    else
      var t :| t in stacks;
      |stacks[t]| + Total(stacks - {t})
  }

  // ---------- the methods

  ghost function Apply(s: State, t: ThreadId, op: Op): (r: (State, Answer))
  {
    match op
    case NewSpan(data) => (s.(spans := s.spans[data.id := data]), Nothing)
    case Enter(id) =>
      var st := StackOf(s, t);
      (s.(stacks := s.stacks[t := if id in s.spans then Pushed(st, s.spans[id]) else st]), Nothing)
    case Exit(id) =>
      (if t in s.stacks then s.(stacks := Kept(s.stacks, t, Popped(s.stacks[t], id))) else s, Nothing)
    case Close(id) =>
      (State(s.spans - {id}, if t in s.stacks then Kept(s.stacks, t, Without(s.stacks[t], id)) else s.stacks), Nothing)
    case Record(id, fields) =>
      (if id in s.spans
       then s.(spans := s.spans[id := s.spans[id].(fields := s.spans[id].fields + fields)])
       else s, Nothing)
    case CurrentContext =>
      var st := StackOf(s, t);
      (s, Context(if st == [] then None else Some(ContextOf(st[|st| - 1]))))
    case CurrentStack => (s, Contexts(ContextsOf(StackOf(s, t))))
    case GetSpan(id) => (s, Span(if id in s.spans then Some(s.spans[id]) else None))
    case CurrentDepth => (s, Depth(|StackOf(s, t)|))
    case Stats => (s, Metrics(|s.spans|, |s.stacks|, Total(s.stacks)))
  }

  datatype Event = Event(thread: ThreadId, op: Op)

  ghost function Run(s: State, evs: seq<Event>): (r: State)
  {
    if evs == [] then s
    else Apply(Run(s, evs[..|evs| - 1]), evs[|evs| - 1].thread, evs[|evs| - 1].op).0
  }

  // ---------- sums over the stacks

  lemma {:induction false} TotalSplit(stacks: map<ThreadId, Stack>, t: ThreadId)
    requires t in stacks
    ensures Total(stacks) == |stacks[t]| + Total(stacks - {t})
    decreases |stacks|
  {
    var u :| u in stacks && Total(stacks) == |stacks[u]| + Total(stacks - {u});
    if u != t {
      TotalSplit(stacks - {u}, t);
      TotalSplit(stacks - {t}, u);
      assert stacks - {u} - {t} == stacks - {t} - {u};
    }
  }

  lemma {:induction false} TotalSet(stacks: map<ThreadId, Stack>, t: ThreadId, st: Stack)
    ensures Total(stacks[t := st]) == Total(stacks - {t}) + |st|
  {
    TotalSplit(stacks[t := st], t);
    assert stacks[t := st] - {t} == stacks - {t};
  }

  lemma {:induction false} TotalKept(stacks: map<ThreadId, Stack>, t: ThreadId, st: Stack)
    ensures Total(Kept(stacks, t, st)) == Total(stacks - {t}) + |st|
  {
    TotalSet(stacks, t, st);
  }
}
