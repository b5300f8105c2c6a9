/** What the queries of the span tracker answer after any run, from the events alone. */
module TrackerAnswers {
  import opened Common
  import opened Tracker
  import opened TrackerRuns
  import Json

  // ---------- spans

  /** The event at `j` is the last that creates the span, and none after it closes it. */
  ghost predicate LastCreation(evs: seq<Event>, j: int, id: SpanId)
  {
    && 0 <= j < |evs| && Creates(evs[j].op, id)
    && forall i :: j < i < |evs| ==> !Creates(evs[i].op, id) && evs[i].op != Close(id)
  }

  /** Everything about two spans but their fields is the same. */
  predicate SameAttributes(d: SpanData, c: SpanData)
  {
    && d.id == c.id && d.name == c.name && d.target == c.target && d.level == c.level
    && d.file == c.file && d.line == c.line
  }

  /** The fields are those that the last event to settle each of them wrote. */
  ghost predicate FieldsWritten(evs: seq<Event>, id: SpanId, fields: Fields)
  {
    forall f, v :: Written(evs, id, f, v) <==> f in fields && fields[f] == v
  }

  lemma {:induction false} LastCreationNext(evs: seq<Event>, e: Event, j: int, id: SpanId)
    requires LastCreation(evs, j, id) && !Creates(e.op, id) && e.op != Close(id)
    ensures LastCreation(evs + [e], j, id)
  {
    var all := evs + [e];
    assert all[|evs|] == e && forall i :: 0 <= i < |evs| ==> all[i] == evs[i];
  }

  lemma {:induction false} StepKeepsAttributes(s: State, e: Event, id: SpanId)
    requires id in Apply(s, e.thread, e.op).0.spans
    ensures if Creates(e.op, id) then Apply(s, e.thread, e.op).0.spans[id] == e.op.data
            else e.op != Close(id) && id in s.spans
                 && SameAttributes(Apply(s, e.thread, e.op).0.spans[id], s.spans[id])
  {
  }

  /** Every attribute of a known span but its fields is that of its last creation. */
  lemma {:induction false} AttributesAreCreated(evs: seq<Event>, id: SpanId) returns (j: nat)
    requires id in Run(INITIAL, evs).spans
    ensures LastCreation(evs, j, id) && SameAttributes(Run(INITIAL, evs).spans[id], evs[j].op.data)
  {
    var front, e := evs[..|evs| - 1], evs[|evs| - 1];
    assert front + [e] == evs;
    StepKeepsAttributes(Run(INITIAL, front), e, id);
    if Creates(e.op, id) {
      j := |evs| - 1;
    } else {
      j := AttributesAreCreated(front, id);
      LastCreationNext(front, e, j, id);
    }
  }

  lemma {:induction false} FieldsAreWritten(evs: seq<Event>, id: SpanId)
    requires id in Run(INITIAL, evs).spans
    ensures FieldsWritten(evs, id, Run(INITIAL, evs).spans[id].fields)
  {
    var fields := Run(INITIAL, evs).spans[id].fields;
    forall f, v ensures Written(evs, id, f, v) <==> f in fields && fields[f] == v {
      FieldIsLastWrite(evs, id, f, v);
    }
  }

  /** What `get_span` answers: nothing for a span that is not known, else what the events made of it. */
  lemma {:induction false} GetSpanAnswers(evs: seq<Event>, t: ThreadId, id: SpanId) returns (j: nat)
    ensures var a := Apply(Run(INITIAL, evs), t, GetSpan(id)).1;
      && a.Span? && (a.span.Some? <==> EverCreated(evs, id))
      && (a.span.Some? ==>
            && LastCreation(evs, j, id) && SameAttributes(a.span.value, evs[j].op.data)
            && FieldsWritten(evs, id, a.span.value.fields))
  {
    KnownIff(evs, id);
    j := 0;
    if id in Run(INITIAL, evs).spans {
      j := AttributesAreCreated(evs, id);
      FieldsAreWritten(evs, id);
    }
  }

  // ---------- contexts

  /** What `current_stack` answers after a run. */
  ghost function StackAnswer(evs: seq<Event>, t: ThreadId): (r: seq<SpanContext>)
  {
    Apply(Run(INITIAL, evs), t, CurrentStack).1.contexts
  }

  /** The context names the span as its last creation does. */
  ghost predicate NamedAsCreated(evs: seq<Event>, j: int, c: SpanContext)
  {
    && LastCreation(evs, j, c.id)
    && c.name == evs[j].op.data.name && c.target == evs[j].op.data.target && c.level == evs[j].op.data.level
  }

  /** The context is that of the span as the events made it. */
  ghost predicate Remembers(evs: seq<Event>, c: SpanContext)
  {
    FieldsWritten(evs, c.id, c.fields) && exists j :: NamedAsCreated(evs, j, c)
  }

  /** The context belongs on top of the thread's stack: its depth is the height, its parent the span below. */
  ghost predicate PlacedOn(below: seq<SpanContext>, c: SpanContext)
  {
    c.depth == |below| && c.parentId == if below == [] then None else Some(below[|below| - 1].id)
  }

  /** The event at `k` is an enter by the thread that made the context, and the thread did not close the span since. */
  ghost predicate EnteredAt(evs: seq<Event>, k: int, t: ThreadId, c: SpanContext)
  {
    && 0 <= k < |evs| && evs[k] == Event(t, Enter(c.id))
    && Remembers(evs[..k], c) && PlacedOn(StackAnswer(evs[..k], t), c)
    && forall i :: k < i < |evs| ==> evs[i] != Event(t, Close(c.id))
  }

  lemma {:induction false} StillEntered(evs: seq<Event>, e: Event, k: int, t: ThreadId, c: SpanContext)
    requires EnteredAt(evs, k, t, c) && e != Event(t, Close(c.id))
    ensures EnteredAt(evs + [e], k, t, c)
  {
    var all := evs + [e];
    assert all[|evs|] == e && forall i :: 0 <= i < |evs| ==> all[i] == evs[i];
    assert all[..k] == evs[..k];
  }

  // ---------- stacks and the steps their entries come from

  /** Entry by entry, the steps `ks` have the property, and they increase. */
  predicate Matched(p: (int, StackEntry) -> bool, st: Stack, ks: seq<int>)
  {
    && |ks| == |st| && (forall i, j :: 0 <= i < j < |ks| ==> ks[i] < ks[j])
    && forall i :: 0 <= i < |st| ==> p(ks[i], st[i])
  }

  lemma {:induction false} MatchedPrefix(p: (int, StackEntry) -> bool, st: Stack, ks: seq<int>, n: nat)
    requires Matched(p, st, ks) && n <= |st|
    ensures Matched(p, st[..n], ks[..n])
  {
  }

  lemma {:induction false} MatchedSnoc(p: (int, StackEntry) -> bool, st: Stack, ks: seq<int>, e: StackEntry, k: int)
    requires Matched(p, st, ks) && p(k, e) && (ks != [] ==> ks[|ks| - 1] < k)
    ensures Matched(p, st + [e], ks + [k])
  {
    var st', ks' := st + [e], ks + [k];
    assert forall i :: 0 <= i < |st| ==> st'[i] == st[i] && ks'[i] == ks[i];
    assert forall i :: 0 <= i < |ks| ==> ks[i] <= ks[|ks| - 1];
  }

  /** Dropping the entries of a span drops their steps. */
  lemma {:induction false} MatchedWithout(p: (int, StackEntry) -> bool, st: Stack, ks: seq<int>, id: SpanId)
    returns (left: seq<int>)
    requires Matched(p, st, ks)
    ensures Matched(p, Without(st, id), left)
    ensures left != [] ==> ks != [] && left[|left| - 1] <= ks[|ks| - 1]
  {
    left := [];
    if st != [] {
      var n := |st| - 1;
      MatchedPrefix(p, st, ks, n);
      left := MatchedWithout(p, st[..n], ks[..n], id);
      if st[n].data.id != id {
        MatchedSnoc(p, Without(st[..n], id), left, st[n], ks[n]);
        left := left + [ks[n]];
      }
    }
  }

  lemma {:induction false} WithoutGone(st: Stack, id: SpanId)
    ensures forall i :: 0 <= i < |Without(st, id)| ==> Without(st, id)[i].data.id != id
  {
    if st != [] {
      WithoutGone(st[..|st| - 1], id);
    }
  }

  ghost function Entering(evs: seq<Event>, t: ThreadId): (p: (int, StackEntry) -> bool)
  {
    (k, e) => EnteredAt(evs, k, t, ContextOf(e))
  }

  /** The entries of a stack come from enters at the steps `ks`, in order. */
  ghost predicate EnteredBy(evs: seq<Event>, t: ThreadId, st: Stack, ks: seq<int>)
  {
    Matched(Entering(evs, t), st, ks)
  }

  lemma {:induction false} StillEnteredBy(evs: seq<Event>, e: Event, t: ThreadId, st: Stack, ks: seq<int>)
    requires EnteredBy(evs, t, st, ks)
    requires forall i :: 0 <= i < |st| ==> e != Event(t, Close(st[i].data.id))
    ensures EnteredBy(evs + [e], t, st, ks)
  {
    forall i | 0 <= i < |st| ensures Entering(evs + [e], t)(ks[i], st[i]) {
      assert Entering(evs, t)(ks[i], st[i]);
      StillEntered(evs, e, ks[i], t, ContextOf(st[i]));
    }
  }

  /** An enter of a known span makes a context of it as it then is. */
  lemma {:induction false} EnterMakes(evs: seq<Event>, t: ThreadId, id: SpanId)
    requires id in Run(INITIAL, evs).spans
    ensures var st := StackOf(Run(INITIAL, evs), t);
      var pushed := Pushed(st, Run(INITIAL, evs).spans[id]);
      EnteredAt(evs + [Event(t, Enter(id))], |evs|, t, ContextOf(pushed[|st|]))
  {
    var j := AttributesAreCreated(evs, id);
    FieldsAreWritten(evs, id);
    var st := StackOf(Run(INITIAL, evs), t);
    var c := ContextOf(Pushed(st, Run(INITIAL, evs).spans[id])[|st|]);
    assert NamedAsCreated(evs, j, c);
    assert (evs + [Event(t, Enter(id))])[..|evs|] == evs;
  }

  /** Every entry of every stack, after any run, comes from an enter of its thread, in the order of the enters. */
  lemma {:induction false} EntriesWereEntered(evs: seq<Event>, t: ThreadId) returns (ks: seq<int>)
    ensures EnteredBy(evs, t, StackOf(Run(INITIAL, evs), t), ks)
  {
    ks := [];
    if evs != [] {
      var front, e := evs[..|evs| - 1], evs[|evs| - 1];
      assert front + [e] == evs;
      var before := EntriesWereEntered(front, t);
      if e.thread != t {
        StepIsolated(Run(INITIAL, front), e.thread, e.op, t);
        StillEnteredBy(front, e, t, StackOf(Run(INITIAL, front), t), before);
        ks := before;
      } else {
        ks := OwnStepEntered(front, e, before);
      }
    }
  }

  lemma {:induction false} OwnStepEntered(evs: seq<Event>, e: Event, ks: seq<int>) returns (after: seq<int>)
    requires EnteredBy(evs, e.thread, StackOf(Run(INITIAL, evs), e.thread), ks)
    ensures EnteredBy(evs + [e], e.thread, StackOf(Apply(Run(INITIAL, evs), e.thread, e.op).0, e.thread), after)
  {
    var s, t := Run(INITIAL, evs), e.thread;
    var st := StackOf(s, t);
    match e.op
    case Close(id) => after := CloseEntered(evs, t, st, ks, id);
    case Enter(id) => after := EnterEntered(evs, t, id, ks);
    case Exit(id) =>
      StillEnteredBy(evs, e, t, st, ks);
      after := ks;
      if Top(st) == Some(id) {
        MatchedPrefix(Entering(evs + [e], t), st, ks, |st| - 1);
        after := ks[..|st| - 1];
      }
    case _ =>
      StillEnteredBy(evs, e, t, st, ks);
      after := ks;
  }

  lemma {:induction false} CloseEntered(evs: seq<Event>, t: ThreadId, st: Stack, ks: seq<int>, id: SpanId)
    returns (after: seq<int>)
    requires EnteredBy(evs, t, st, ks)
    ensures EnteredBy(evs + [Event(t, Close(id))], t, Without(st, id), after)
  {
    after := MatchedWithout(Entering(evs, t), st, ks, id);
    WithoutGone(st, id);
    StillEnteredBy(evs, Event(t, Close(id)), t, Without(st, id), after);
  }

  lemma {:induction false} EnterEntered(evs: seq<Event>, t: ThreadId, id: SpanId, ks: seq<int>)
    returns (after: seq<int>)
    requires EnteredBy(evs, t, StackOf(Run(INITIAL, evs), t), ks)
    ensures EnteredBy(evs + [Event(t, Enter(id))], t, StackOf(Apply(Run(INITIAL, evs), t, Enter(id)).0, t), after)
  {
    var s, e := Run(INITIAL, evs), Event(t, Enter(id));
    var st := StackOf(s, t);
    StillEnteredBy(evs, e, t, st, ks);
    after := ks;
    if id in s.spans {
      EnterMakes(evs, t, id);
      assert ks != [] ==> Entering(evs, t)(ks[|ks| - 1], st[|st| - 1]);
      MatchedSnoc(Entering(evs + [e], t), st, ks, Pushed(st, s.spans[id])[|st|], |evs|);
      after := ks + [|evs|];
    }
  }

  // ---------- the queries

  /**
    What `current_stack` answers: one context for each of an increasing sequence of the thread's own enters, each
    with the name, target and level of the last creation of its span before that enter, the fields written by
    then, and the depth and parent of that moment. No span the thread has closed since is in it.
   */
  lemma {:induction false} CurrentStackAnswers(evs: seq<Event>, t: ThreadId) returns (ks: seq<int>)
    ensures var cs := StackAnswer(evs, t);
      && |ks| == |cs| && (forall i, j :: 0 <= i < j < |ks| ==> ks[i] < ks[j])
      && forall i :: 0 <= i < |cs| ==> EnteredAt(evs, ks[i], t, cs[i])
  {
    ks := EntriesWereEntered(evs, t);
    var st := StackOf(Run(INITIAL, evs), t);
    assert forall i :: 0 <= i < |st| ==> Entering(evs, t)(ks[i], st[i]);
  }

  /** What `current_context` and `current_depth` answer: the last of the stack, if any, and its height. */
  lemma {:induction false} CurrentContextAnswers(evs: seq<Event>, t: ThreadId) returns (k: int)
    ensures var cs, a := StackAnswer(evs, t), Apply(Run(INITIAL, evs), t, CurrentContext).1;
      && a.Context? && (a.context.None? <==> cs == [])
      && (a.context.Some? ==> a.context.value == cs[|cs| - 1] && EnteredAt(evs, k, t, a.context.value))
    ensures Apply(Run(INITIAL, evs), t, CurrentDepth).1 == Depth(|StackAnswer(evs, t)|)
  {
    k := 0;
    LastOfStack(Run(INITIAL, evs), t);
    if StackAnswer(evs, t) != [] {
      k := TopEntered(evs, t);
    }
  }

  lemma {:induction false} TopEntered(evs: seq<Event>, t: ThreadId) returns (k: int)
    requires StackAnswer(evs, t) != []
    ensures EnteredAt(evs, k, t, StackAnswer(evs, t)[|StackAnswer(evs, t)| - 1])
  {
    var ks := CurrentStackAnswers(evs, t);
    k := ks[|ks| - 1];
  }

  lemma {:induction false} LastOfStack(s: State, t: ThreadId)
    ensures var cs, a := Apply(s, t, CurrentStack).1.contexts, Apply(s, t, CurrentContext).1;
      && a.Context? && (a.context.None? <==> cs == [])
      && (a.context.Some? ==> a.context.value == cs[|cs| - 1])
      && Apply(s, t, CurrentDepth).1 == Depth(|cs|)
  {
  }

  /** The ids that the events created and did not close since. */
  ghost function KnownIds(evs: seq<Event>): (r: set<SpanId>)
  {
    set i | 0 <= i < |evs| && evs[i].op.NewSpan? && EverCreated(evs, evs[i].op.data.id) :: evs[i].op.data.id
  }

  /** What `stats` answers as the total: the number of ids created and not closed since. */
  lemma {:induction false} TotalSpansAnswers(evs: seq<Event>, t: ThreadId)
    ensures var a := Apply(Run(INITIAL, evs), t, Stats).1; a.Metrics? && a.totalSpans == |KnownIds(evs)|
    ensures forall id :: id in KnownIds(evs) <==> EverCreated(evs, id)
  {
    var spans := Run(INITIAL, evs).spans;
    forall id ensures id in KnownIds(evs) <==> EverCreated(evs, id) {
      if EverCreated(evs, id) {
        var k :| CreatedAt(evs, k, id);
        assert evs[k].op.data.id == id;
      }
    }
    forall id ensures id in spans <==> id in KnownIds(evs) {
      KnownIff(evs, id);
    }
    assert spans.Keys == KnownIds(evs);
  }
}
