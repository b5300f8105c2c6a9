/** The span tracker as the program keeps it: two maps updated in place. The calling thread is a parameter. */
module SpanTracker {
  import opened Common
  import opened Tracker

  class SpanTracker {
    var spans: map<SpanId, SpanData>
    var threadStacks: map<ThreadId, Stack>

    ghost function Value(): (s: State)
      reads this
    {
      State(spans, threadStacks)
    }

    constructor ()
      ensures Value() == INITIAL && spans == map[] && threadStacks == map[]
    {
      spans, threadStacks := map[], map[];
    }

    method OnNewSpan(t: ThreadId, data: SpanData)
      modifies this`spans
      ensures Value() == Apply(old(Value()), t, NewSpan(data)).0
    {
      spans := spans[data.id := data];
    }

    method OnEnter(t: ThreadId, id: SpanId)
      modifies this`threadStacks
      ensures Value() == Apply(old(Value()), t, Enter(id)).0
    {
      if t !in threadStacks {
        threadStacks := threadStacks[t := []];
      }
      var stack := threadStacks[t];
      if id in spans {
        var parentId := if stack == [] then None else Some(stack[|stack| - 1].data.id);
        var depth := |stack|;
        threadStacks := threadStacks[t := stack + [StackEntry(spans[id], depth, parentId)]];
      }
    }

    method OnExit(t: ThreadId, id: SpanId)
      modifies this`threadStacks
      ensures Value() == Apply(old(Value()), t, Exit(id)).0
    {
      if t in threadStacks {
        var stack := threadStacks[t];
        if stack != [] && stack[|stack| - 1].data.id == id {
          stack := stack[..|stack| - 1];
          threadStacks := threadStacks[t := stack];
        }
        if stack == [] {
          threadStacks := threadStacks - {t};
        }
      }
    }

    method OnClose(t: ThreadId, id: SpanId)
      modifies this
      ensures Value() == Apply(old(Value()), t, Close(id)).0
    {
      spans := spans - {id};
      if t in threadStacks {
        var stack := Retain(threadStacks[t], id);
        threadStacks := threadStacks[t := stack];
        if stack == [] {
          threadStacks := threadStacks - {t};
        }
      }
    }

    method OnRecord(t: ThreadId, id: SpanId, fields: Fields)
      modifies this`spans
      ensures Value() == Apply(old(Value()), t, Record(id, fields)).0
    {
      if id in spans {
        var data := spans[id];
        spans := spans[id := data.(fields := data.fields + fields)];
      }
    }

    method CurrentContext(t: ThreadId) returns (r: Option<SpanContext>)
      ensures Apply(Value(), t, Op.CurrentContext).1 == Context(r)
    {
      if t in threadStacks {
        var stack := threadStacks[t];
        if stack != [] {
          return Some(ContextOf(stack[|stack| - 1]));
        }
      }
      return None;
    }

    method CurrentStack(t: ThreadId) returns (r: seq<SpanContext>)
      ensures Apply(Value(), t, Op.CurrentStack).1 == Contexts(r)
    {
      r := [];
      if t in threadStacks {
        var stack := threadStacks[t];
        for i := 0 to |stack|
          invariant r == ContextsOf(stack)[..i]
        {
          r := r + [ContextOf(stack[i])];
        }
      }
    }

    /** Counts over the table and the stacks; the sum visits the threads in any order. */
    method Stats(t: ThreadId) returns (totalSpans: nat, activeThreads: nat, activeSpans: nat)
      ensures Apply(Value(), t, Op.Stats).1 == Metrics(totalSpans, activeThreads, activeSpans)
    {
      totalSpans, activeThreads, activeSpans := |spans|, |threadStacks|, 0;
      var left := threadStacks;
      while left != map[]
        invariant activeSpans + Total(left) == Total(threadStacks)
        decreases |left|
      {
        var u :| u in left;
        TotalSplit(left, u);
        activeSpans := activeSpans + |left[u]|;
        left := left - {u};
      }
    }
  }

  /** Keep the entries of other spans. */
  method Retain(st: Stack, id: SpanId) returns (r: Stack)
    ensures r == Without(st, id)
  {
    r := [];
    for i := 0 to |st|
      invariant r == Without(st[..i], id)
    {
      assert st[..i + 1][..i] == st[..i];
      if st[i].data.id != id {
        r := r + [st[i]];
      }
    }
    assert st[..|st|] == st;
  }
}
