/** What a cJSON tree means, said without reading it: which value it denotes, and which fault it is rejected for. */
module JsonMeaning {
  import opened Common
  import opened Unicode
  import opened Json

  /** The memory behind a pointer holds the string, then a NUL, and no NUL before. */
  predicate Spells(p: Option<CStr>, s: Bytes)
  {
    p.Some? && 0 !in s && s + [0] <= p.value
  }

  /** The child at `i` is the last one under the key. */
  ghost predicate LastUnder(cs: seq<CJson>, i: int, k: Text)
  {
    0 <= i < |cs| && Spells(cs[i].name, k) && forall j :: i < j < |cs| ==> !Spells(cs[j].name, k)
  }

  ghost predicate Named(p: Option<CStr>)
  {
    exists s: Text :: Spells(p, s)
  }

  /**
    The value of a tree. An array has the values of the children in order; an object has exactly the keys that
    name some child, each with the value of the last child of that name.
   */
  ghost predicate Denotes(c: CJson, v: JsonValue)
    decreases c, 0
  {
    match v
    case Null => c.kind == CNull
    case Bool(b) => c.kind == if b then CTrue else CFalse
    case Number(n) => c.kind == CNumber && c.number == n
    case String(s) => c.kind == CString && Spells(c.text, s)
    case Array(items) =>
      c.kind == CArray && |items| == |c.children| && forall i :: 0 <= i < |items| ==> Denotes(c.children[i], items[i])
    case Object(members) => c.kind == CObject && MembersDenote(c.children, members)
  }

  ghost predicate Denoted(c: CJson)
    decreases c, 1
  {
    exists v :: Denotes(c, v)
  }

  ghost predicate MembersDenote(cs: seq<CJson>, members: map<Text, JsonValue>)
    decreases cs, 1
  {
    && (forall i {:trigger NamesKey(cs, i, members)} :: 0 <= i < |cs| ==> NamesKey(cs, i, members))
    && (forall i {:trigger Denoted(cs[i])} :: 0 <= i < |cs| ==> Denoted(cs[i]))
    && (forall k {:trigger HasValue(cs, k, members)} :: k in members ==> HasValue(cs, k, members))
  }

  ghost predicate NamesKey(cs: seq<CJson>, i: int, members: map<Text, JsonValue>)
  {
    0 <= i < |cs| && exists k :: k in members && Spells(cs[i].name, k)
  }

  ghost predicate HasValue(cs: seq<CJson>, k: Text, members: map<Text, JsonValue>)
    decreases cs, 0
  {
    k in members && exists i :: LastUnder(cs, i, k) && Denotes(cs[i], members[k])
  }

  // ---------- strings

  lemma {:induction false} SpellsAt(m: CStr, s: Bytes)
    requires Spells(Some(m), s)
    ensures |s| < |m| && m[..|s|] == s && m[|s|] == 0 && forall i :: 0 <= i < |s| ==> m[i] != 0
  {
    assert m[|s|] == (s + [0])[|s|];
    assert forall i :: 0 <= i < |s| ==> m[i] == (s + [0])[i] == s[i];
  }

  lemma {:induction false} SpellsUnique(p: Option<CStr>, s: Bytes, t: Bytes)
    requires Spells(p, s) && Spells(p, t)
    ensures s == t
  {
    SpellsAt(p.value, s);
    SpellsAt(p.value, t);
  }

  /** Reading gives the bytes before the first NUL, if they are the encoding of some scalar values. */
  lemma {:induction false} TextRead(p: Option<CStr>, s: Text)
    ensures ReadText(p) == Ok(s) <==> Spells(p, s)
    ensures IsEncoding(s)
  {
    Utf8Iff(s);
    if p.Some? {
      assert Spells(p, UpToNul(p.value));
      if Spells(p, s) {
        SpellsUnique(p, s, UpToNul(p.value));
      }
    }
  }

  /** Every encoding without NUL, stored as a C string in front of anything, is read back whole. */
  lemma {:induction false} EncodingRead(cs: seq<Scalar>, tail: Bytes)
    requires 0 !in Encode(cs)
    ensures ReadText(Some(Encode(cs) + [0] + tail)) == Ok(Encode(cs))
  {
    EncodingAccepted(cs);
    TextRead(Some(Encode(cs) + [0] + tail), Encode(cs));
  }

  // ---------- values

  /** A tree reads as a value if and only if it denotes it. */
  lemma {:induction false} ReadDenotes(c: CJson, v: JsonValue)
    ensures Read(c) == Ok(v) <==> Denotes(c, v)
    decreases c, 1
  {
    match v
    case String(s) => TextRead(c.text, s);
    case Array(items) => ItemsDenote(c.children, items);
    case Object(members) => MembersRead(c.children, members);
    case _ =>
  }

  lemma {:induction false} ItemsDenote(cs: seq<CJson>, items: seq<JsonValue>)
    ensures ReadItems(cs) == Ok(items) <==>
      |items| == |cs| && forall i :: 0 <= i < |items| ==> Denotes(cs[i], items[i])
    decreases cs, 0
  {
    if cs != [] && items != [] {
      var n, m := |cs| - 1, |items| - 1;
      ItemsDenote(cs[..n], items[..m]);
      ReadDenotes(cs[n], items[m]);
      assert items == items[..m] + [items[m]];
    }
  }

  lemma {:induction false} DenotesUnique(c: CJson, v: JsonValue, w: JsonValue)
    requires Denotes(c, v) && Denotes(c, w)
    ensures v == w
    decreases c, 2
  {
    ReadDenotes(c, v);
    ReadDenotes(c, w);
  }

  lemma {:induction false} MembersRead(cs: seq<CJson>, members: map<Text, JsonValue>)
    ensures ReadMembers(cs) == Ok(members) <==> MembersDenote(cs, members)
    decreases cs, 0, 2
  {
    if ReadMembers(cs).Ok? {
      MembersSound(cs);
    }
    if MembersDenote(cs, members) {
      MembersComplete(cs, members);
      MembersSound(cs);
      MembersUnique(cs, members, ReadMembers(cs).value);
    }
  }

  /** The step of the member loop, on what the children denote. */
  lemma {:induction false} OneMoreMember(
    cs: seq<CJson>, c: CJson, members: map<Text, JsonValue>, k: Text, v: JsonValue)
    requires MembersDenote(cs, members) && Spells(c.name, k) && Denotes(c, v)
    ensures MembersDenote(cs + [c], members[k := v])
  {
    var all, after := cs + [c], members[k := v];
    assert all[|cs|] == c && forall i :: 0 <= i < |cs| ==> all[i] == cs[i];
    forall i | 0 <= i < |all| ensures NamesKey(all, i, after) {
      if i < |cs| {
        assert NamesKey(cs, i, members);
      }
    }
    forall i | 0 <= i < |all| ensures Denoted(all[i]) {
      if i < |cs| {
        assert Denoted(cs[i]);
      }
    }
    forall k' | k' in after ensures HasValue(all, k', after) {
      if k' == k {
        assert LastUnder(all, |cs|, k);
      } else {
        assert HasValue(cs, k', members);
        var i :| LastUnder(cs, i, k') && Denotes(cs[i], members[k']);
        LastUnderMore(cs, c, i, k', k);
      }
    }
  }

  lemma {:induction false} LastUnderMore(cs: seq<CJson>, c: CJson, i: int, k: Text, other: Text)
    requires LastUnder(cs, i, k) && Spells(c.name, other) && k != other
    ensures LastUnder(cs + [c], i, k)
  {
    var all := cs + [c];
    assert all[|cs|] == c && forall j :: 0 <= j < |cs| ==> all[j] == cs[j];
    if Spells(c.name, k) {
      SpellsUnique(c.name, k, other);
    }
  }

  lemma {:induction false} MembersSound(cs: seq<CJson>)
    requires ReadMembers(cs).Ok?
    ensures MembersDenote(cs, ReadMembers(cs).value)
    decreases cs, 0, 0
  {
    if cs != [] {
      var front, c := cs[..|cs| - 1], cs[|cs| - 1];
      MembersSound(front);
      var k, v := ReadText(c.name).value, Read(c).value;
      TextRead(c.name, k);
      ReadDenotes(c, v);
      OneMoreMember(front, c, ReadMembers(front).value, k, v);
      assert front + [c] == cs;
    }
  }

  /** Every child has a value. */
  ghost predicate AllDenoted(cs: seq<CJson>)
  {
    forall i :: 0 <= i < |cs| ==> Denoted(cs[i])
  }

  /** Every child has a key and a value. */
  ghost predicate AllReadable(cs: seq<CJson>)
  {
    forall i :: 0 <= i < |cs| ==> Named(cs[i].name) && Denoted(cs[i])
  }

  lemma {:induction false} NamedIff(p: Option<CStr>)
    ensures Named(p) <==> ReadText(p).Ok?
  {
    if ReadText(p).Ok? {
      TextRead(p, ReadText(p).value);
    }
    if s: Text :| Spells(p, s) {
      TextRead(p, s);
    }
  }

  lemma {:induction false} DenotedIff(c: CJson)
    ensures Denoted(c) <==> Read(c).Ok?
    decreases c, 2
  {
    if Read(c).Ok? {
      ReadDenotes(c, Read(c).value);
    }
    if v :| Denotes(c, v) {
      ReadDenotes(c, v);
    }
  }

  lemma {:induction false} ReadableMembers(cs: seq<CJson>)
    ensures AllReadable(cs) <==> ReadMembers(cs).Ok?
    decreases cs, 0, 0
  {
    if cs != [] {
      var n := |cs| - 1;
      ReadableMembers(cs[..n]);
      NamedIff(cs[n].name);
      DenotedIff(cs[n]);
      assert AllReadable(cs) <==> AllReadable(cs[..n]) && Named(cs[n].name) && Denoted(cs[n]);
    }
  }

  lemma {:induction false} MembersComplete(cs: seq<CJson>, members: map<Text, JsonValue>)
    requires MembersDenote(cs, members)
    ensures ReadMembers(cs).Ok?
    decreases cs, 0, 1
  {
    forall i | 0 <= i < |cs| ensures Named(cs[i].name) && Denoted(cs[i]) {
      assert NamesKey(cs, i, members);
    }
    ReadableMembers(cs);
  }

  lemma {:induction false} LastUnderUnique(cs: seq<CJson>, i: int, j: int, k: Text)
    requires LastUnder(cs, i, k) && LastUnder(cs, j, k)
    ensures i == j
  {
  }

  lemma {:induction false} SameKey(cs: seq<CJson>, a: map<Text, JsonValue>, b: map<Text, JsonValue>, k: Text)
    requires MembersDenote(cs, a) && MembersDenote(cs, b) && k in a
    ensures k in b && a[k] == b[k]
    decreases cs, 0, 0
  {
    assert HasValue(cs, k, a);
    var i :| LastUnder(cs, i, k) && Denotes(cs[i], a[k]);
    assert NamesKey(cs, i, b);
    var k' :| k' in b && Spells(cs[i].name, k');
    SpellsUnique(cs[i].name, k, k');
    assert HasValue(cs, k, b);
    var j :| LastUnder(cs, j, k) && Denotes(cs[j], b[k]);
    LastUnderUnique(cs, i, j, k);
    DenotesUnique(cs[i], a[k], b[k]);
  }

  lemma {:induction false} MembersUnique(cs: seq<CJson>, a: map<Text, JsonValue>, b: map<Text, JsonValue>)
    requires MembersDenote(cs, a) && MembersDenote(cs, b)
    ensures a == b
    decreases cs, 0, 1
  {
    forall k | k in a ensures k in b && a[k] == b[k] {
      SameKey(cs, a, b, k);
    }
    forall k | k in b ensures k in a {
      SameKey(cs, b, a, k);
    }
  }

  // ---------- faults

  /** A string that cannot be read: a null pointer, or bytes that encode nothing. */
  ghost predicate TextFault(p: Option<CStr>, e: JsonError)
  {
    if p.None? then e == InvalidStructure else e == InvalidUtf8 && forall s :: Spells(p, s) ==> !IsEncoding(s)
  }

  /** The fault a tree is rejected for: the first one in the order of the children, a key before its value. */
  ghost predicate Rejected(c: CJson, e: JsonError)
    decreases c
  {
    match c.kind
    case CString => TextFault(c.text, e)
    case CArray =>
      exists i :: 0 <= i < |c.children| && Rejected(c.children[i], e) && AllDenoted(c.children[..i])
    case CObject =>
      exists i :: 0 <= i < |c.children| && AllReadable(c.children[..i])
        && (TextFault(c.children[i].name, e) || (Named(c.children[i].name) && Rejected(c.children[i], e)))
    case CRaw => e == InvalidStructure
    case CInvalid => e == InvalidStructure
    case _ => false
  }

  /** The child at `i` is the first that has no value, and this is why. */
  ghost predicate ItemFault(cs: seq<CJson>, i: int, e: JsonError)
  {
    0 <= i < |cs| && Rejected(cs[i], e) && AllDenoted(cs[..i])
  }

  /** The child at `i` is the first that cannot be read as a member, and this is why. */
  ghost predicate MemberFault(cs: seq<CJson>, i: int, e: JsonError)
  {
    && 0 <= i < |cs| && AllReadable(cs[..i])
    && (TextFault(cs[i].name, e) || (Named(cs[i].name) && Rejected(cs[i], e)))
  }

  lemma {:induction false} TextFaultIff(p: Option<CStr>, e: JsonError)
    ensures ReadText(p) == Err(e) <==> TextFault(p, e)
  {
    if p.Some? {
      var s := UpToNul(p.value);
      assert Spells(p, s);
      Utf8Iff(s);
      forall t | Spells(p, t) ensures t == s {
        SpellsUnique(p, s, t);
      }
    }
  }

  lemma {:induction false} MembersRejected(c: CJson, e: JsonError)
    requires c.kind == CObject
    ensures Rejected(c, e) <==> exists i :: MemberFault(c.children, i, e)
  {
    var cs := c.children;
    forall i | 0 <= i < |cs|
      ensures MemberFault(cs, i, e) <==>
        (AllReadable(cs[..i]) && (TextFault(cs[i].name, e) || (Named(cs[i].name) && Rejected(cs[i], e))))
    {
    }
  }

  /** A tree is refused with an error if and only if that is its first fault. */
  lemma {:induction false} ReadRejects(c: CJson, e: JsonError)
    ensures Read(c) == Err(e) <==> Rejected(c, e)
    decreases c, 1
  {
    match c.kind
    case CString => TextFaultIff(c.text, e);
    case CArray =>
      ItemsReject(c.children, e);
      if i :| 0 <= i < |c.children| && Rejected(c.children[i], e) && AllDenoted(c.children[..i]) {
        assert ItemFault(c.children, i, e);
      }
    case CObject =>
      MembersReject(c.children, e);
      MembersRejected(c, e);
    case _ =>
  }

  lemma {:induction false} DenotedItems(cs: seq<CJson>)
    ensures AllDenoted(cs) <==> ReadItems(cs).Ok?
    decreases cs, 0
  {
    if cs != [] {
      var n := |cs| - 1;
      DenotedItems(cs[..n]);
      DenotedIff(cs[n]);
      assert AllDenoted(cs) <==> AllDenoted(cs[..n]) && Denoted(cs[n]);
    }
  }

  lemma {:induction false} ItemFaultNext(cs: seq<CJson>, e: JsonError)
    requires cs != []
    ensures var n := |cs| - 1;
      (exists i :: ItemFault(cs, i, e)) <==> (exists i :: ItemFault(cs[..n], i, e)) || ItemFault(cs, n, e)
  {
    var n := |cs| - 1;
    forall i | 0 <= i < n ensures ItemFault(cs, i, e) <==> ItemFault(cs[..n], i, e) {
      assert cs[..n][..i] == cs[..i];
    }
    if i :| ItemFault(cs[..n], i, e) {
      assert ItemFault(cs, i, e);
    }
  }

  lemma {:induction false} ItemsReject(cs: seq<CJson>, e: JsonError)
    ensures ReadItems(cs) == Err(e) <==> exists i :: ItemFault(cs, i, e)
    decreases cs, 0
  {
    if cs != [] {
      var n := |cs| - 1;
      ItemsReject(cs[..n], e);
      DenotedItems(cs[..n]);
      ReadRejects(cs[n], e);
      ItemFaultNext(cs, e);
    }
  }

  lemma {:induction false} MemberFaultNext(cs: seq<CJson>, e: JsonError)
    requires cs != []
    ensures var n := |cs| - 1;
      (exists i :: MemberFault(cs, i, e)) <==> (exists i :: MemberFault(cs[..n], i, e)) || MemberFault(cs, n, e)
  {
    var n := |cs| - 1;
    forall i | 0 <= i < n ensures MemberFault(cs, i, e) <==> MemberFault(cs[..n], i, e) {
      assert cs[..n][..i] == cs[..i];
    }
    if i :| MemberFault(cs[..n], i, e) {
      assert MemberFault(cs, i, e);
    }
  }

  lemma {:induction false} MembersReject(cs: seq<CJson>, e: JsonError)
    ensures ReadMembers(cs) == Err(e) <==> exists i :: MemberFault(cs, i, e)
    decreases cs, 0
  {
    if cs != [] {
      var n := |cs| - 1;
      MembersReject(cs[..n], e);
      ReadableMembers(cs[..n]);
      NamedIff(cs[n].name);
      TextFaultIff(cs[n].name, e);
      ReadRejects(cs[n], e);
      MemberFaultNext(cs, e);
    }
  }
}
