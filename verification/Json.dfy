/** Conversion between JSON values and cJSON trees, in both directions. */
module Json {
  import opened Common
  import opened Unicode

  // ---------- strings

  /** A Rust string: well-formed UTF-8, possibly with NUL bytes inside. */
  type Text = s: Bytes | Utf8(s) witness []

  /** The memory behind a C string pointer: it holds at least one NUL. */
  type CStr = s: Bytes | 0 in s witness [0]

  /** What reading a C string yields: the bytes before the first NUL. */
  function UpToNul(s: Bytes): (r: Bytes)
    requires 0 in s
    ensures 0 !in r && r + [0] <= s
  {
    if s[0] == 0 then [] else [s[0]] + UpToNul(s[1..])
  }

  /** `CString::new` appends the terminator, and refuses a string that already holds a NUL. */
  function NewCString(s: Text): (r: Option<CStr>)
  {
    if 0 in s then None else Some(s + [0])
  }

  lemma {:induction false} CStringRoundTrip(s: Bytes)
    requires 0 !in s
    ensures UpToNul(s + [0]) == s
  {
    if s != [] {
      assert s[0] in s && forall x :: x in s[1..] ==> x in s;
      assert (s + [0])[1..] == s[1..] + [0];
      CStringRoundTrip(s[1..]);
    }
  }

  // ---------- values and trees

  /** The bits of a double; the conversions copy them unread. */
  type F64 = bv64

  datatype JsonValue =
    | Null
    | Bool(b: bool)
    | Number(n: F64)
    | String(s: Text)
    | Array(items: seq<JsonValue>)
    | Object(members: map<Text, JsonValue>)

  datatype Kind = CNull | CFalse | CTrue | CNumber | CString | CArray | CObject | CRaw | CInvalid

  /** A cJSON node: its kind, its key in the parent, its string, its number and its children in list order. */
  datatype CJson = CJson(kind: Kind, name: Option<CStr>, text: Option<CStr>, number: F64, children: seq<CJson>)

  datatype JsonError = InvalidStructure | InvalidUtf8 | InvalidInput

  function ReadText(p: Option<CStr>): (r: Result<Text, JsonError>)
  {
    match p
    case None => Err(InvalidStructure)
    case Some(s) => if Utf8(UpToNul(s)) then Ok(UpToNul(s)) else Err(InvalidUtf8)
  }

  // ---------- from a tree to a value

  function Read(c: CJson): (r: Result<JsonValue, JsonError>)
    decreases c, 1
  {
    match c.kind
    case CNull => Ok(Null)
    case CFalse => Ok(Bool(false))
    case CTrue => Ok(Bool(true))
    case CNumber => Ok(Number(c.number))
    case CString =>
      (match ReadText(c.text)
       case Err(e) => Err(e)
       case Ok(s) => Ok(String(s)))
    case CArray =>
      (match ReadItems(c.children)
       case Err(e) => Err(e)
       case Ok(items) => Ok(Array(items)))
    case CObject =>
      (match ReadMembers(c.children)
       case Err(e) => Err(e)
       case Ok(members) => Ok(Object(members)))
    case _ => Err(InvalidStructure)
  }

  function ReadItems(cs: seq<CJson>): (r: Result<seq<JsonValue>, JsonError>)
    decreases cs, 0
  {
    if cs == [] then Ok([])
    else
      match ReadItems(cs[..|cs| - 1])
      case Err(e) => Err(e)
      case Ok(items) =>
        match Read(cs[|cs| - 1])
        case Err(e) => Err(e)
        case Ok(v) => Ok(items + [v])
  }

  /** Members in list order: a repeated key keeps its last value. */
  function ReadMembers(cs: seq<CJson>): (r: Result<map<Text, JsonValue>, JsonError>)
    decreases cs, 0
  {
    if cs == [] then Ok(map[])
    else
      match ReadMembers(cs[..|cs| - 1])
      case Err(e) => Err(e)
      case Ok(members) =>
        match ReadText(cs[|cs| - 1].name)
        case Err(e) => Err(e)
        case Ok(k) =>
          match Read(cs[|cs| - 1])
          case Err(e) => Err(e)
          case Ok(v) => Ok(members[k := v])
  }

  /** The first error of a list is the error of the list. */
  lemma {:induction false} ItemsStop(cs: seq<CJson>, i: nat)
    requires i < |cs| && ReadItems(cs[..i + 1]).Err?
    ensures ReadItems(cs) == ReadItems(cs[..i + 1])
    decreases |cs|
  {
    if i + 1 < |cs| {
      assert cs[..|cs| - 1][..i + 1] == cs[..i + 1];
      ItemsStop(cs[..|cs| - 1], i);
    } else {
      assert cs[..i + 1] == cs;
    }
  }

  lemma {:induction false} MembersStop(cs: seq<CJson>, i: nat)
    requires i < |cs| && ReadMembers(cs[..i + 1]).Err?
    ensures ReadMembers(cs) == ReadMembers(cs[..i + 1])
    decreases |cs|
  {
    if i + 1 < |cs| {
      assert cs[..|cs| - 1][..i + 1] == cs[..i + 1];
      MembersStop(cs[..|cs| - 1], i);
    } else {
      assert cs[..i + 1] == cs;
    }
  }

  /** A null pointer reads as null; otherwise the node is converted. */
  method FromPointer(p: Option<CJson>) returns (r: Result<JsonValue, JsonError>)
    ensures r == if p.None? then Ok(Null) else Read(p.value)
  {
    if p.None? {
      return Ok(Null);
    }
    r := FromCJson(p.value);
  }

  method FromCJson(c: CJson) returns (r: Result<JsonValue, JsonError>)
    ensures r == Read(c)
    decreases c, 1
  {
    match c.kind
    case CNull => return Ok(Null);
    case CFalse => return Ok(Bool(false));
    case CTrue => return Ok(Bool(true));
    case CNumber => return Ok(Number(c.number));
    case CString =>
      var s := ReadText(c.text);
      return if s.Ok? then Ok(String(s.value)) else Err(s.error);
    case CArray =>
      var items := FromItems(c.children);
      return if items.Ok? then Ok(Array(items.value)) else Err(items.error);
    case CObject =>
      var members := FromMembers(c.children);
      return if members.Ok? then Ok(Object(members.value)) else Err(members.error);
    case _ => return Err(InvalidStructure);
  }

  method FromItems(cs: seq<CJson>) returns (r: Result<seq<JsonValue>, JsonError>)
    ensures r == ReadItems(cs)
    decreases cs, 0
  {
    var items := [];
    for i := 0 to |cs|
      invariant ReadItems(cs[..i]) == Ok(items)
    {
      assert cs[..i + 1][..i] == cs[..i];
      var v := FromCJson(cs[i]);
      if v.Err? {
        ItemsStop(cs, i);
        return Err(v.error);
      }
      items := items + [v.value];
    }
    assert cs[..|cs|] == cs;
    return Ok(items);
  }

  method FromMembers(cs: seq<CJson>) returns (r: Result<map<Text, JsonValue>, JsonError>)
    ensures r == ReadMembers(cs)
    decreases cs, 0
  {
    var members: map<Text, JsonValue> := map[];
    for i := 0 to |cs|
      invariant ReadMembers(cs[..i]) == Ok(members)
    {
      assert cs[..i + 1][..i] == cs[..i];
      var k := ReadText(cs[i].name);
      if k.Err? {
        MembersStop(cs, i);
        return Err(k.error);
      }
      var v := FromCJson(cs[i]);
      if v.Err? {
        MembersStop(cs, i);
        return Err(v.error);
      }
      members := members[k.value := v.value];
    }
    assert cs[..|cs|] == cs;
    return Ok(members);
  }

  // ---------- from a value to a tree

  /** No string and no key anywhere in the value holds a NUL. */
  predicate NulFree(v: JsonValue)
  {
    match v
    case String(s) => 0 !in s
    case Array(items) => forall i :: 0 <= i < |items| ==> NulFree(items[i])
    case Object(members) => forall k :: k in members ==> 0 !in k && NulFree(members[k])
    case _ => true
  }

  function Leaf(kind: Kind): (r: CJson)
  {
    CJson(kind, None, None, 0, [])
  }

  /**
    The tree of a value. The member loop takes the keys in an arbitrary order, as a hash map does; whatever
    the order, the conversion succeeds exactly on NUL-free values and reads back as the original value.
   */
  method ToCJson(v: JsonValue) returns (r: Result<CJson, JsonError>)
    ensures r.Ok? <==> NulFree(v)
    ensures r.Ok? ==> Read(r.value) == Ok(v)
    ensures r.Err? ==> r.error == InvalidInput
    decreases v, 2
  {
    match v
    case Null => return Ok(Leaf(CNull));
    case Bool(b) => return Ok(Leaf(if b then CTrue else CFalse));
    case Number(n) => return Ok(Leaf(CNumber).(number := n));
    case String(s) =>
      var cs := NewCString(s);
      if cs.None? {
        return Err(InvalidInput);
      }
      CStringRoundTrip(s);
      return Ok(Leaf(CString).(text := cs));
    case Array(_) => r := ArrayToCJson(v);
    case Object(_) => r := ObjectToCJson(v);
  }

  method ArrayToCJson(v: JsonValue) returns (r: Result<CJson, JsonError>)
    requires v.Array?
    ensures r.Ok? <==> NulFree(v)
    ensures r.Ok? ==> Read(r.value) == Ok(v)
    ensures r.Err? ==> r.error == InvalidInput
    decreases v, 1
  {
    var children: seq<CJson> := [];
    for i := 0 to |v.items|
      invariant forall j :: 0 <= j < i ==> NulFree(v.items[j])
      invariant ReadItems(children) == Ok(v.items[..i])
    {
      var c := ToCJson(v.items[i]);
      if c.Err? {
        return Err(c.error);
      }
      AppendItem(children, c.value, v.items, i);
      children := children + [c.value];
    }
    WholeArray(children, v.items);
    return Ok(Leaf(CArray).(children := children));
  }

  /** One round of the member loop: the key, then the value under that key. */
  method MemberToCJson(v: JsonValue, k: Text) returns (r: Result<CJson, JsonError>)
    requires v.Object? && k in v.members
    ensures r.Ok? <==> 0 !in k && NulFree(v.members[k])
    ensures r.Ok? ==> ReadText(r.value.name) == Ok(k) && Read(r.value) == Ok(v.members[k])
    ensures r.Err? ==> r.error == InvalidInput
    decreases v, 0
  {
    var name := NewCString(k);
    if name.None? {
      return Err(InvalidInput);
    }
    var c := ToCJson(v.members[k]);
    if c.Err? {
      return Err(c.error);
    }
    CStringRoundTrip(k);
    return Ok(c.value.(name := name));
  }

  /** The members outside `left` are in `done`, and all of them are NUL-free. */
  ghost predicate Converted(members: map<Text, JsonValue>, left: set<Text>, done: map<Text, JsonValue>)
  {
    && left <= members.Keys && done.Keys == members.Keys - left
    && forall k :: k in done ==> done[k] == members[k] && 0 !in k && NulFree(members[k])
  }

  lemma {:induction false} OneMoreConverted(
    members: map<Text, JsonValue>, left: set<Text>, done: map<Text, JsonValue>, k: Text)
    requires Converted(members, left, done) && k in left && 0 !in k && NulFree(members[k])
    ensures Converted(members, left - {k}, done[k := members[k]])
  {
  }

  lemma {:induction false} BadMember(members: map<Text, JsonValue>, k: Text)
    requires k in members && !(0 !in k && NulFree(members[k]))
    ensures !NulFree(Object(members))
  {
  }

  lemma {:induction false} AllConverted(members: map<Text, JsonValue>, done: map<Text, JsonValue>)
    requires Converted(members, {}, done)
    ensures done == members && NulFree(Object(members))
  {
  }

  method ObjectToCJson(v: JsonValue) returns (r: Result<CJson, JsonError>)
    requires v.Object?
    ensures r.Ok? <==> NulFree(v)
    ensures r.Ok? ==> Read(r.value) == Ok(v)
    ensures r.Err? ==> r.error == InvalidInput
    decreases v, 1
  {
    var children: seq<CJson> := [];
    var left := v.members.Keys;
    ghost var done: map<Text, JsonValue> := map[];
    assert v == Object(v.members);
    while left != {}
      invariant Converted(v.members, left, done) && ReadMembers(children) == Ok(done)
      decreases |left|
    {
      var k :| k in left;
      var c := MemberToCJson(v, k);
      if c.Err? {
        BadMember(v.members, k);
        return Err(c.error);
      }
      AppendMember(children, c.value, done, k, v.members[k]);
      OneMoreConverted(v.members, left, done, k);
      children := children + [c.value];
      done := done[k := v.members[k]];
      left := left - {k};
    }
    AllConverted(v.members, done);
    WholeObject(children, v.members);
    return Ok(Leaf(CObject).(children := children));
  }

  lemma {:induction false} WholeArray(children: seq<CJson>, items: seq<JsonValue>)
    requires ReadItems(children) == Ok(items[..|items|])
    ensures Read(Leaf(CArray).(children := children)) == Ok(Array(items))
  {
    assert items[..|items|] == items;
  }

  lemma {:induction false} WholeObject(children: seq<CJson>, members: map<Text, JsonValue>)
    requires ReadMembers(children) == Ok(members)
    ensures Read(Leaf(CObject).(children := children)) == Ok(Object(members))
  {
  }

  lemma {:induction false} AppendItem(cs: seq<CJson>, c: CJson, items: seq<JsonValue>, i: nat)
    requires i < |items| && ReadItems(cs) == Ok(items[..i]) && Read(c) == Ok(items[i])
    ensures ReadItems(cs + [c]) == Ok(items[..i + 1])
  {
    assert (cs + [c])[..|cs|] == cs;
    assert items[..i] + [items[i]] == items[..i + 1];
  }

  lemma {:induction false} AppendMember(cs: seq<CJson>, c: CJson, members: map<Text, JsonValue>, k: Text, v: JsonValue)
    requires ReadMembers(cs) == Ok(members) && ReadText(c.name) == Ok(k) && Read(c) == Ok(v)
    ensures ReadMembers(cs + [c]) == Ok(members[k := v])
  {
    assert (cs + [c])[..|cs|] == cs;
  }

  // ---------- trees that did not come from a value

  /** Whatever tree is read, the value has no NUL in it, so it can be converted to a tree again. */
  lemma {:induction false} ReadIsNulFree(c: CJson)
    requires Read(c).Ok?
    ensures NulFree(Read(c).value)
    decreases c, 1
  {
    match c.kind
    case CArray => ItemsNulFree(c.children);
    case CObject => MembersNulFree(c.children);
    case _ =>
  }

  lemma {:induction false} ItemsNulFree(cs: seq<CJson>)
    requires ReadItems(cs).Ok?
    ensures forall i :: 0 <= i < |ReadItems(cs).value| ==> NulFree(ReadItems(cs).value[i])
    decreases cs, 0
  {
    if cs != [] {
      ItemsNulFree(cs[..|cs| - 1]);
      ReadIsNulFree(cs[|cs| - 1]);
    }
  }

  lemma {:induction false} MembersNulFree(cs: seq<CJson>)
    requires ReadMembers(cs).Ok?
    ensures forall k :: k in ReadMembers(cs).value ==> 0 !in k && NulFree(ReadMembers(cs).value[k])
    decreases cs, 0
  {
    if cs != [] {
      MembersNulFree(cs[..|cs| - 1]);
      ReadIsNulFree(cs[|cs| - 1]);
    }
  }
}
