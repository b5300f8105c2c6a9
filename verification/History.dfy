/**
  Whole runs of the builder. Everything the builder knows is explained by the history of calls:
  the instructions it accepted, the last settings, and the accounts and roles that were asked for.
 */
module History {
  import opened Common
  import opened Builder

  /** The state after a sequence of calls, whatever each of them returned. */
  function Run(lim: Limits, cs: seq<Call>): (r: State)
    ensures Valid(lim, r)
  {
    if cs == [] then EMPTY
    else
      var b := Run(lim, cs[..|cs| - 1]);
      StepOk(lim, b, cs[|cs| - 1]);
      Step(lim, b, cs[|cs| - 1]).0
  }

  /** What the last call of a run returned. */
  function LastOutcome(lim: Limits, cs: seq<Call>): (r: Outcome)
    requires cs != []
  {
    Step(lim, Run(lim, cs[..|cs| - 1]), cs[|cs| - 1]).1
  }

  /** The instructions whose `add_instruction` succeeded, in call order. */
  function Accepted(lim: Limits, cs: seq<Call>): (r: seq<Instruction>)
  {
    if cs == [] then []
    else
      var before, c := Accepted(lim, cs[..|cs| - 1]), cs[|cs| - 1];
      if c.AddInstruction? && LastOutcome(lim, cs).Done? then before + [c.ix] else before
  }

  function LastVersion(cs: seq<Call>): (r: TxnVersion)
  {
    if cs == [] then Legacy
    else if cs[|cs| - 1].SetVersion? then cs[|cs| - 1].version
    else LastVersion(cs[..|cs| - 1])
  }

  function LastBlockhash(cs: seq<Call>): (r: Option<Key>)
  {
    if cs == [] then None
    else if cs[|cs| - 1].RecentBlockhash? then Some(cs[|cs| - 1].hash)
    else LastBlockhash(cs[..|cs| - 1])
  }

  /** The key of the last `fee_payer` call that did not panic. */
  function LastPayer(lim: Limits, cs: seq<Call>): (r: Option<Key>)
  {
    if cs == [] then None
    else if cs[|cs| - 1].FeePayer? && LastOutcome(lim, cs).Done? then Some(cs[|cs| - 1].key)
    else LastPayer(lim, cs[..|cs| - 1])
  }

  // ---------- the accounts and roles asked for

  /**
    How many accounts of an instruction have their flags merged, given the keys already known and the
    bytes already used: all up to the first that finds the table full, or that finds the buffer full.
   */
  function Reached(lim: Limits, known: set<Key>, used: nat, metas: seq<AccountMeta>): (r: nat)
    ensures r <= |metas|
    decreases |metas|
  {
    if metas == [] then 0
    else if metas[0].pubkey !in known && |known| >= lim.acctMax then 0
    else if used >= lim.mtu then 1
    else 1 + Reached(lim, known + {metas[0].pubkey}, used + 1, metas[1..])
  }

  function KeySet(b: State): (r: set<Key>)
    ensures forall k :: k in r <==> k in b.keys
  {
    set k | k in b.keys
  }

  /** The requests a call makes when it succeeds; a program id asks for neither flag. */
  function Wishes(c: Call): (r: seq<AccountMeta>)
  {
    match c
    case FeePayer(k) => [AccountMeta(k, Role(true, true))]
    case AddSigner(k) => [AccountMeta(k, Role(true, false))]
    case AddInstruction(ix) => [AccountMeta(ix.program, Role(false, false))] + ix.accounts
    case _ => []
  }

  /** The requests a call makes in a given state, counting those made before it failed. */
  function StepRequests(lim: Limits, b: State, c: Call): (r: seq<AccountMeta>)
  {
    match c
    case AddInstruction(ix) =>
      if |b.entries| >= lim.instrMax || (ix.program !in b.keys && |b.keys| >= lim.acctMax) then []
      else Wishes(c)[..1 + Reached(lim, KeySet(b) + {ix.program}, |b.acctBuf|, ix.accounts)]
    case SetVersion(_) => []
    case RecentBlockhash(_) => []
    case _ => if c.key !in b.keys && |b.keys| >= lim.acctMax then [] else Wishes(c)
  }

  function Requests(lim: Limits, cs: seq<Call>): (r: seq<AccountMeta>)
  {
    if cs == [] then []
    else Requests(lim, cs[..|cs| - 1]) + StepRequests(lim, Run(lim, cs[..|cs| - 1]), cs[|cs| - 1])
  }

  /** What a request can ask of an account: to be in the table, to sign, or to be writable. */
  datatype Want = ToExist | ToSign | ToWrite

  predicate Carries(role: Role, w: Want)
  {
    match w
    case ToExist => true
    case ToSign => role.signer
    case ToWrite => role.writable
  }

  ghost predicate AskedFor(rs: seq<AccountMeta>, k: Key, w: Want)
  {
    exists j :: 0 <= j < |rs| && rs[j].pubkey == k && Carries(rs[j].role, w)
  }

  /** The table holds exactly the keys mentioned, each with the join of the roles asked for it. */
  ghost predicate Reflects(b: State, rs: seq<AccountMeta>)
  {
    && |b.keys| == |b.roles|
    && (forall k :: k in b.keys <==> AskedFor(rs, k, ToExist))
    && (forall i :: 0 <= i < |b.keys| ==> b.roles[i].signer == AskedFor(rs, b.keys[i], ToSign))
    && (forall i :: 0 <= i < |b.keys| ==> b.roles[i].writable == AskedFor(rs, b.keys[i], ToWrite))
  }

  lemma {:induction false} AskedAppend(rs: seq<AccountMeta>, m: AccountMeta, k: Key)
    ensures forall w :: AskedFor(rs + [m], k, w) == (AskedFor(rs, k, w) || (m.pubkey == k && Carries(m.role, w)))
  {
    var all := rs + [m];
    assert all[|rs|] == m;
    assert forall j :: 0 <= j < |rs| ==> all[j] == rs[j];
  }

  lemma {:induction false} AskedNothing(rs: seq<AccountMeta>, k: Key)
    requires !AskedFor(rs, k, ToExist)
    ensures forall w :: !AskedFor(rs, k, w)
  {
  }

  /** Interning a key and granting it a role is what one more request does to the table. */
  lemma {:induction false} RequestReflected(lim: Limits, b: State, m: AccountMeta, rs: seq<AccountMeta>)
    requires Valid(lim, b) && Reflects(b, rs) && Intern(lim, b, m.pubkey).Ok?
    ensures var (b1, i) := Intern(lim, b, m.pubkey).value;
      i < |b1.roles| && Reflects(Grant(b1, i, m.role), rs + [m])
  {
    InternOk(lim, b, m.pubkey);
    var (b1, i) := Intern(lim, b, m.pubkey).value;
    var b2 := Grant(b1, i, m.role);
    forall k ensures k in b2.keys <==> AskedFor(rs + [m], k, ToExist) {
      AskedAppend(rs, m, k);
    }
    forall j | 0 <= j < |b2.keys|
      ensures b2.roles[j].signer == AskedFor(rs + [m], b2.keys[j], ToSign)
      ensures b2.roles[j].writable == AskedFor(rs + [m], b2.keys[j], ToWrite)
    {
      AskedAppend(rs, m, b2.keys[j]);
      if j >= |b.keys| {
        AskedNothing(rs, b2.keys[j]);
      }
    }
  }

  lemma {:induction false} TableSize(lim: Limits, b: State)
    requires TableOk(lim, b)
    ensures |KeySet(b)| == |b.keys|
  {
    DistinctCount(b.keys);
    assert KeySet(b) == Elements(b.keys);
  }

  function Elements(s: seq<Key>): (r: set<Key>)
  {
    set k | k in s
  }

  lemma {:induction false} ElementsSnoc(s: seq<Key>)
    requires s != []
    ensures Elements(s) == Elements(s[..|s| - 1]) + {s[|s| - 1]}
  {
    assert s == s[..|s| - 1] + [s[|s| - 1]];
  }

  lemma {:induction false} DistinctCount(s: seq<Key>)
    requires forall i, j :: 0 <= i < j < |s| ==> s[i] != s[j]
    ensures |Elements(s)| == |s|
  {
    if s != [] {
      DistinctCount(s[..|s| - 1]);
      ElementsSnoc(s);
      assert s[|s| - 1] !in s[..|s| - 1];
    }
  }

  lemma {:induction false} AddMetaReflected(lim: Limits, b: State, m: AccountMeta, rs: seq<AccountMeta>)
    requires Valid(lim, b) && Reflects(b, rs) && Intern(lim, b, m.pubkey).Ok?
    ensures Reflects(AddMeta(lim, b, m), rs + [m])
    ensures KeySet(AddMeta(lim, b, m)) == KeySet(b) + {m.pubkey}
    ensures |AddMeta(lim, b, m).acctBuf| == |b.acctBuf| + 1
  {
    RequestReflected(lim, b, m, rs);
    var (b1, i) := Intern(lim, b, m.pubkey).value;
    var b2 := Grant(b1, i, m.role);
    assert Reflects(b2, rs + [m]);
    assert AddMeta(lim, b, m).keys == b2.keys && AddMeta(lim, b, m).roles == b2.roles;
  }

  lemma {:induction false} TakeNext(rs: seq<AccountMeta>, metas: seq<AccountMeta>, n: nat)
    requires n < |metas|
    ensures rs + [metas[0]] + metas[1..][..n] == rs + metas[..n + 1]
  {
  }

  lemma {:induction false} MetasReflected(lim: Limits, b: State, metas: seq<AccountMeta>, rs: seq<AccountMeta>)
    requires Valid(lim, b) && Reflects(b, rs)
    ensures LoopReflected(lim, b, metas, rs)
    decreases |metas|
  {
    TableSize(lim, b);
    if metas == [] || Intern(lim, b, metas[0].pubkey).Err? {
      assert rs + metas[..0] == rs;
    } else if |b.acctBuf| >= lim.mtu {
      RequestReflected(lim, b, metas[0], rs);
      assert metas[..1] == [metas[0]];
    } else {
      var next := AddMeta(lim, b, metas[0]);
      AddMetaOk(lim, b, metas[0]);
      AddMetaReflected(lim, b, metas[0], rs);
      MetasReflected(lim, next, metas[1..], rs + [metas[0]]);
      MetasReflectedNext(lim, b, metas, rs);
    }
  }

  ghost predicate LoopReflected(lim: Limits, b: State, metas: seq<AccountMeta>, rs: seq<AccountMeta>)
    requires |b.keys| == |b.roles|
  {
    var n := Reached(lim, KeySet(b), |b.acctBuf|, metas);
    && Reflects(AddMetas(lim, b, metas).0, rs + metas[..n])
    && (AddMetas(lim, b, metas).1.None? ==> n == |metas|)
  }

  lemma {:induction false} MetasReflectedNext(lim: Limits, b: State, metas: seq<AccountMeta>, rs: seq<AccountMeta>)
    requires Valid(lim, b) && metas != [] && Intern(lim, b, metas[0].pubkey).Ok? && |b.acctBuf| < lim.mtu
    requires |KeySet(b)| == |b.keys|
    requires LoopReflected(lim, AddMeta(lim, b, metas[0]), metas[1..], rs + [metas[0]])
    ensures LoopReflected(lim, b, metas, rs)
  {
    var next := AddMeta(lim, b, metas[0]);
    AddMetasNext(lim, b, metas);
    ReachedNext(lim, b, metas);
    TakeNext(rs, metas, Reached(lim, KeySet(next), |next.acctBuf|, metas[1..]));
  }

  lemma {:induction false} ReachedNext(lim: Limits, b: State, metas: seq<AccountMeta>)
    requires |b.keys| == |b.roles| && metas != [] && Intern(lim, b, metas[0].pubkey).Ok? && |b.acctBuf| < lim.mtu
    requires |KeySet(b)| == |b.keys|
    ensures var next := AddMeta(lim, b, metas[0]);
      Reached(lim, KeySet(b), |b.acctBuf|, metas) == 1 + Reached(lim, KeySet(next), |next.acctBuf|, metas[1..])
  {
    AddMetaKeys(lim, b, metas[0]);
  }

  lemma {:induction false} ProgramReflected(lim: Limits, b: State, k: Key, rs: seq<AccountMeta>)
    requires Valid(lim, b) && Reflects(b, rs) && Intern(lim, b, k).Ok?
    ensures var b1 := Intern(lim, b, k).value.0;
      Valid(lim, b1) && Reflects(b1, rs + [AccountMeta(k, Role(false, false))]) && KeySet(b1) == KeySet(b) + {k}
  {
    RequestReflected(lim, b, AccountMeta(k, Role(false, false)), rs);
    InternOk(lim, b, k);
    var (b1, i) := Intern(lim, b, k).value;
    assert Grant(b1, i, Role(false, false)) == b1;
  }

  lemma {:induction false} InstructionReflected(lim: Limits, b: State, ix: Instruction, rs: seq<AccountMeta>)
    requires Valid(lim, b) && Reflects(b, rs)
    ensures var c := AddInstruction(ix);
      && Reflects(StepInstruction(lim, b, ix).0, rs + StepRequests(lim, b, c))
      && (StepInstruction(lim, b, ix).1.Done? ==> StepRequests(lim, b, c) == Wishes(c))
  {
    var c := AddInstruction(ix);
    if |b.entries| >= lim.instrMax || Intern(lim, b, ix.program).Err? {
      assert rs + [] == rs;
    } else {
      var program := AccountMeta(ix.program, Role(false, false));
      ProgramReflected(lim, b, ix.program, rs);
      var b1 := Intern(lim, b, ix.program).value.0;
      MetasReflected(lim, b1, ix.accounts, rs + [program]);
      var n := Reached(lim, KeySet(b1), |b1.acctBuf|, ix.accounts);
      TakeWishes(rs, program, ix.accounts, n);
      InstructionTable(lim, b, ix);
      ReflectsTable(AddMetas(lim, b1, ix.accounts).0, StepInstruction(lim, b, ix).0, rs + [program] + ix.accounts[..n]);
      InstructionRequests(lim, b, ix);
    }
  }

  lemma {:induction false} InstructionRequests(lim: Limits, b: State, ix: Instruction)
    requires |b.entries| < lim.instrMax && Intern(lim, b, ix.program).Ok?
    requires KeySet(Intern(lim, b, ix.program).value.0) == KeySet(b) + {ix.program}
    ensures var b1 := Intern(lim, b, ix.program).value.0;
      StepRequests(lim, b, AddInstruction(ix)) ==
        ([AccountMeta(ix.program, Role(false, false))] + ix.accounts)[
          ..1 + Reached(lim, KeySet(b1), |b1.acctBuf|, ix.accounts)]
  {
    InternBuffers(lim, b, ix.program);
  }

  lemma {:induction false} InternBuffers(lim: Limits, b: State, k: Key)
    requires Intern(lim, b, k).Ok?
    ensures Intern(lim, b, k).value.0.acctBuf == b.acctBuf
  {
  }

  lemma {:induction false} ReflectsTable(b: State, b': State, rs: seq<AccountMeta>)
    requires b.keys == b'.keys && b.roles == b'.roles && Reflects(b, rs)
    ensures Reflects(b', rs)
  {
  }

  /** Past the program id, only the account loop touches the table. */
  lemma {:induction false} InstructionTable(lim: Limits, b: State, ix: Instruction)
    requires |b.keys| == |b.roles| && |b.entries| < lim.instrMax && Intern(lim, b, ix.program).Ok?
    ensures var (b2, error) := AddMetas(lim, Intern(lim, b, ix.program).value.0, ix.accounts);
      var (b3, o) := StepInstruction(lim, b, ix);
      b3.keys == b2.keys && b3.roles == b2.roles && (o.Done? ==> error.None?)
  {
    var error := AddMetas(lim, Intern(lim, b, ix.program).value.0, ix.accounts).1;
    assert error.None? || error.Some?;
  }

  lemma {:induction false} TakeWishes(rs: seq<AccountMeta>, program: AccountMeta, metas: seq<AccountMeta>, n: nat)
    requires n <= |metas|
    ensures rs + [program] + metas[..n] == rs + ([program] + metas)[..1 + n]
    ensures n == |metas| ==> ([program] + metas)[..1 + n] == [program] + metas
  {
  }

  lemma {:induction false} StepReflected(lim: Limits, b: State, c: Call, rs: seq<AccountMeta>)
    requires Valid(lim, b) && Reflects(b, rs)
    ensures Reflects(Step(lim, b, c).0, rs + StepRequests(lim, b, c))
    ensures Step(lim, b, c).1.Done? ==> StepRequests(lim, b, c) == Wishes(c)
  {
    assert rs + [] == rs;
    match c
    case FeePayer(k) =>
      if Intern(lim, b, k).Ok? {
        RequestReflected(lim, b, Wishes(c)[0], rs);
      }
    case AddSigner(k) =>
      if Intern(lim, b, k).Ok? {
        RequestReflected(lim, b, Wishes(c)[0], rs);
      }
    case AddInstruction(ix) => InstructionReflected(lim, b, ix, rs);
    case _ =>
  }

  /**
    Roles are the join of all requests: after any run the table holds exactly the keys some call
    asked for, and a flag is set if and only if some request for that key asked for it.
   */
  lemma {:induction false} RolesAreRequested(lim: Limits, cs: seq<Call>)
    ensures Reflects(Run(lim, cs), Requests(lim, cs))
  {
    if cs != [] {
      RolesAreRequested(lim, cs[..|cs| - 1]);
      StepReflected(lim, Run(lim, cs[..|cs| - 1]), cs[|cs| - 1], Requests(lim, cs[..|cs| - 1]));
    }
  }

  /** The settings in force are the last ones made. */
  lemma {:induction false} SettingsAreLast(lim: Limits, cs: seq<Call>)
    ensures var b := Run(lim, cs);
      b.version == LastVersion(cs) && b.blockhash == LastBlockhash(cs) && b.feePayer == LastPayer(lim, cs)
  {
    if cs != [] {
      SettingsAreLast(lim, cs[..|cs| - 1]);
      var b, c := Run(lim, cs[..|cs| - 1]), cs[|cs| - 1];
      StepOk(lim, b, c);
      if c.AddInstruction? {
        StepInstructionOk(lim, b, c.ix);
      }
    }
  }

  /** The stored entries mean exactly the accepted instructions, in order, after any run. */
  ghost predicate Holds(lim: Limits, b: State, ixs: seq<Instruction>)
    requires Valid(lim, b)
  {
    && |b.entries| == |ixs|
    && forall i :: 0 <= i < |ixs| ==> EntryOk(b, b.entries[i]) && Stored(lim, b, b.entries[i]) == Asked(ixs[i])
  }

  lemma {:induction false} EntriesMeanAccepted(lim: Limits, cs: seq<Call>)
    ensures Holds(lim, Run(lim, cs), Accepted(lim, cs))
  {
    if cs != [] {
      EntriesMeanAccepted(lim, cs[..|cs| - 1]);
      HoldsNext(lim, Run(lim, cs[..|cs| - 1]), cs[|cs| - 1], Accepted(lim, cs[..|cs| - 1]));
    }
  }

  lemma {:induction false} HoldsNext(lim: Limits, b: State, c: Call, ixs: seq<Instruction>)
    requires Valid(lim, b) && Holds(lim, b, ixs)
    ensures var (b', o) := Step(lim, b, c);
      Valid(lim, b') && Holds(lim, b', if c.AddInstruction? && o.Done? then ixs + [c.ix] else ixs)
  {
    var b' := Step(lim, b, c).0;
    StepOk(lim, b, c);
    HoldsGrown(lim, b, b', ixs);
    if c.AddInstruction? {
      StepInstructionOk(lim, b, c.ix);
      if Step(lim, b, c).1.Done? {
        HoldsOneMore(lim, b', ixs, c.ix);
      }
    }
  }

  lemma {:induction false} HoldsOneMore(lim: Limits, b: State, ixs: seq<Instruction>, ix: Instruction)
    requires Valid(lim, b) && |b.entries| == |ixs| + 1
    requires forall i :: 0 <= i < |ixs| ==> EntryOk(b, b.entries[i]) && Stored(lim, b, b.entries[i]) == Asked(ixs[i])
    requires Stored(lim, b, b.entries[|ixs|]) == Asked(ix)
    ensures Holds(lim, b, ixs + [ix])
  {
    var all := ixs + [ix];
    assert forall i :: 0 <= i < |ixs| ==> all[i] == ixs[i];
  }

  lemma {:induction false} HoldsGrown(lim: Limits, b: State, b': State, ixs: seq<Instruction>)
    requires Valid(lim, b) && Valid(lim, b') && Grown(b, b') && Holds(lim, b, ixs)
    ensures forall i :: 0 <= i < |ixs| ==> EntryOk(b', b'.entries[i]) && Stored(lim, b', b'.entries[i]) == Asked(ixs[i])
  {
    forall i | 0 <= i < |ixs|
      ensures EntryOk(b', b'.entries[i]) && Stored(lim, b', b'.entries[i]) == Asked(ixs[i])
    {
      assert EntryOk(b, b.entries[i]);
      StoredGrown(lim, b, b', b.entries[i]);
    }
  }

  /**
    A failed call never changes the meaning of accepted instructions: it leaves the accepted list and the
    settings alone, and all it can do is add accounts at the end of the table and widen roles.
   */
  lemma {:induction false} FailureIsHarmless(lim: Limits, cs: seq<Call>, c: Call)
    requires !LastOutcome(lim, cs + [c]).Done?
    ensures Accepted(lim, cs + [c]) == Accepted(lim, cs)
    ensures Holds(lim, Run(lim, cs + [c]), Accepted(lim, cs))
    ensures var b, b' := Run(lim, cs), Run(lim, cs + [c]);
      Grown(b, b') && SameSettings(b, b') && b'.entries == b.entries
  {
    assert (cs + [c])[..|cs|] == cs;
    StepOk(lim, Run(lim, cs), c);
    EntriesMeanAccepted(lim, cs + [c]);
  }

  // ---------- exactly which instructions are accepted

  function MetaKeys(metas: seq<AccountMeta>): (r: set<Key>)
  {
    if metas == [] then {} else {metas[0].pubkey} + MetaKeys(metas[1..])
  }

  lemma {:induction false} CardinalityGrows(a: set<Key>, b: set<Key>)
    requires a <= b
    ensures |a| <= |b|
  {
    assert b == a + (b - a);
  }

  /** The account loop succeeds if and only if all keys fit the table together and all bytes fit the buffer. */
  lemma {:induction false} MetasAcceptedIff(lim: Limits, b: State, metas: seq<AccountMeta>)
    requires Valid(lim, b)
    ensures AddMetas(lim, b, metas).1.None? <==>
      |KeySet(b) + MetaKeys(metas)| <= lim.acctMax && |b.acctBuf| + |metas| <= lim.mtu
    decreases |metas|
  {
    TableSize(lim, b);
    if metas == [] {
      assert KeySet(b) + MetaKeys(metas) == KeySet(b);
    } else {
      KeysNext(KeySet(b), metas);
      if Intern(lim, b, metas[0].pubkey).Ok? && |b.acctBuf| < lim.mtu {
        AddMetaOk(lim, b, metas[0]);
        AddMetasNext(lim, b, metas);
        AddMetaKeys(lim, b, metas[0]);
        MetasAcceptedIff(lim, AddMeta(lim, b, metas[0]), metas[1..]);
      }
    }
  }

  lemma {:induction false} KeysNext(known: set<Key>, metas: seq<AccountMeta>)
    requires metas != []
    ensures known + MetaKeys(metas) == known + {metas[0].pubkey} + MetaKeys(metas[1..])
    ensures |known + {metas[0].pubkey}| <= |known + MetaKeys(metas)|
  {
    CardinalityGrows(known + {metas[0].pubkey}, known + MetaKeys(metas));
  }

  lemma {:induction false} AddMetaKeys(lim: Limits, b: State, m: AccountMeta)
    requires |b.keys| == |b.roles| && Intern(lim, b, m.pubkey).Ok?
    ensures KeySet(AddMeta(lim, b, m)) == KeySet(b) + {m.pubkey}
  {
    var b1 := Intern(lim, b, m.pubkey).value.0;
    assert AddMeta(lim, b, m).keys == b1.keys;
  }

  /**
    An instruction is accepted if and only if there is a free entry, the distinct keys of the table, the
    program and the accounts together fit the table, and the account bytes and the data fit their buffers.
   */
  lemma {:induction false} AcceptedIff(lim: Limits, b: State, ix: Instruction)
    requires Valid(lim, b)
    ensures StepInstruction(lim, b, ix).1.Done? <==>
      && |b.entries| < lim.instrMax
      && |KeySet(b) + {ix.program} + MetaKeys(ix.accounts)| <= lim.acctMax
      && |b.acctBuf| + |ix.accounts| <= lim.mtu && |b.dataBuf| + |ix.data| <= lim.mtu
  {
    TableSize(lim, b);
    var all := KeySet(b) + {ix.program} + MetaKeys(ix.accounts);
    if Intern(lim, b, ix.program).Ok? {
      InternOk(lim, b, ix.program);
      var b1 := Intern(lim, b, ix.program).value.0;
      assert KeySet(b1) == KeySet(b) + {ix.program};
      MetasAcceptedIff(lim, b1, ix.accounts);
      AddMetasOk(lim, b1, ix.accounts);
    } else {
      CardinalityGrows(KeySet(b) + {ix.program}, all);
    }
  }

  // ---------- which outcome a call has

  /** How many accounts the loop looks at when no key is refused: one more than there are bytes left, or all. */
  function Looked(lim: Limits, used: nat, metas: seq<AccountMeta>): (r: nat)
    requires used <= lim.mtu
    ensures r <= |metas|
  {
    if |metas| <= lim.mtu - used then |metas| else lim.mtu - used + 1
  }

  /** The error of the account loop, from counts of distinct keys and bytes. */
  function LoopError(lim: Limits, known: set<Key>, used: nat, metas: seq<AccountMeta>): (r: Option<BuildError>)
    requires used <= lim.mtu
  {
    if |known + MetaKeys(metas[..Looked(lim, used, metas)])| > lim.acctMax then Some(TooManyAccounts)
    else if used + |metas| > lim.mtu then Some(DataTooLarge)
    else None
  }

  /**
    The outcome of a call, from counts: instructions are refused as too many when the entries are full; accounts
    when the distinct keys looked at do not fit the table; data when account or data bytes do not fit.
   */
  function Decision(lim: Limits, b: State, c: Call): (r: Outcome)
    requires |b.acctBuf| <= lim.mtu
  {
    match c
    case SetVersion(_) => Done
    case RecentBlockhash(_) => Done
    case FeePayer(k) => if |KeySet(b) + {k}| > lim.acctMax then Panicked else Done
    case AddSigner(k) => if |KeySet(b) + {k}| > lim.acctMax then Failed(TooManyAccounts) else Done
    case AddInstruction(ix) =>
      if |b.entries| >= lim.instrMax then Failed(TooManyInstructions)
      else
        match LoopError(lim, KeySet(b) + {ix.program}, |b.acctBuf|, ix.accounts)
        case Some(e) => Failed(e)
        case None => if |b.dataBuf| + |ix.data| > lim.mtu then Failed(DataTooLarge) else Done
  }

  lemma {:induction false} LookedNext(lim: Limits, used: nat, metas: seq<AccountMeta>)
    requires used < lim.mtu && metas != []
    ensures Looked(lim, used, metas) == 1 + Looked(lim, used + 1, metas[1..])
    ensures var n := Looked(lim, used, metas); metas[..n] != [] && metas[..n][1..] == metas[1..][..n - 1]
  {
  }

  lemma {:induction false} LoopErrorNext(lim: Limits, known: set<Key>, used: nat, metas: seq<AccountMeta>)
    requires used < lim.mtu && metas != []
    ensures LoopError(lim, known, used, metas) == LoopError(lim, known + {metas[0].pubkey}, used + 1, metas[1..])
  {
    LookedNext(lim, used, metas);
    KeysNext(known, metas[..Looked(lim, used, metas)]);
  }

  /** A first key that does not fit makes the loop fail for it; so does a first byte. */
  lemma {:induction false} LoopErrorFirst(lim: Limits, known: set<Key>, used: nat, metas: seq<AccountMeta>)
    requires used <= lim.mtu && metas != []
    ensures |known + {metas[0].pubkey}| > lim.acctMax ==>
      LoopError(lim, known, used, metas) == Some(TooManyAccounts)
    ensures |known + {metas[0].pubkey}| <= lim.acctMax && used == lim.mtu ==>
      LoopError(lim, known, used, metas) == Some(DataTooLarge)
  {
    var looked := metas[..Looked(lim, used, metas)];
    KeysNext(known, looked);
    if used == lim.mtu {
      assert looked == [metas[0]] && MetaKeys(looked[1..]) == {};
    }
  }

  lemma {:induction false} InternDecided(lim: Limits, b: State, k: Key)
    requires Valid(lim, b)
    ensures Intern(lim, b, k).Err? <==> |KeySet(b) + {k}| > lim.acctMax
    ensures Intern(lim, b, k).Err? ==> Intern(lim, b, k).error == TooManyAccounts
    ensures Intern(lim, b, k).Ok? ==> KeySet(Intern(lim, b, k).value.0) == KeySet(b) + {k}
  {
    TableSize(lim, b);
    if k in b.keys {
      assert KeySet(b) + {k} == KeySet(b);
    }
  }

  lemma {:induction false} LoopDecided(lim: Limits, b: State, metas: seq<AccountMeta>)
    requires Valid(lim, b)
    ensures AddMetas(lim, b, metas).1 == LoopError(lim, KeySet(b), |b.acctBuf|, metas)
    decreases |metas|
  {
    if metas == [] {
      TableSize(lim, b);
      assert KeySet(b) + {} == KeySet(b);
    } else {
      InternDecided(lim, b, metas[0].pubkey);
      LoopErrorFirst(lim, KeySet(b), |b.acctBuf|, metas);
      if Intern(lim, b, metas[0].pubkey).Ok? && |b.acctBuf| < lim.mtu {
        AddMetaOk(lim, b, metas[0]);
        AddMetasNext(lim, b, metas);
        AddMetaKeys(lim, b, metas[0]);
        LoopDecided(lim, AddMeta(lim, b, metas[0]), metas[1..]);
        LoopErrorNext(lim, KeySet(b), |b.acctBuf|, metas);
      }
    }
  }

  lemma {:induction false} InstructionDecided(lim: Limits, b: State, ix: Instruction)
    requires Valid(lim, b)
    ensures StepInstruction(lim, b, ix).1 == Decision(lim, b, AddInstruction(ix))
  {
    var known := KeySet(b) + {ix.program};
    InternDecided(lim, b, ix.program);
    if Intern(lim, b, ix.program).Ok? {
      InternOk(lim, b, ix.program);
      var b1 := Intern(lim, b, ix.program).value.0;
      LoopDecided(lim, b1, ix.accounts);
      AddMetasOk(lim, b1, ix.accounts);
    } else {
      CardinalityGrows(known, known + MetaKeys(ix.accounts[..Looked(lim, |b.acctBuf|, ix.accounts)]));
    }
  }

  /** Every call has the outcome the counts decide, with exactly that error. */
  lemma {:induction false} StepDecided(lim: Limits, b: State, c: Call)
    requires Valid(lim, b)
    ensures Step(lim, b, c).1 == Decision(lim, b, c)
  {
    match c
    case FeePayer(k) => InternDecided(lim, b, k);
    case AddSigner(k) => InternDecided(lim, b, k);
    case AddInstruction(ix) => InstructionDecided(lim, b, ix);
    case _ =>
  }

  /** `n` accounts are as many as can be looked at before a key does not fit the table. */
  predicate FitsUpTo(lim: Limits, known: set<Key>, used: nat, metas: seq<AccountMeta>, n: nat)
    requires used <= lim.mtu
  {
    && n <= Looked(lim, used, metas) && |known + MetaKeys(metas[..n])| <= lim.acctMax
    && (n < Looked(lim, used, metas) ==> |known + MetaKeys(metas[..n + 1])| > lim.acctMax)
  }

  /**
    How far the account loop gets before it fails: it merges the flags of every account it looks at, up to the
    first whose key does not fit the table. The account that finds the buffer full has its flags merged.
   */
  lemma {:induction false} ReachedIs(lim: Limits, known: set<Key>, used: nat, metas: seq<AccountMeta>)
    requires |known| <= lim.acctMax && used <= lim.mtu
    ensures FitsUpTo(lim, known, used, metas, Reached(lim, known, used, metas))
    decreases |metas|
  {
    assert known + MetaKeys(metas[..0]) == known;
    if metas != [] {
      FirstKey(known, metas);
      if (metas[0].pubkey in known || |known| < lim.acctMax) && used < lim.mtu {
        ReachedIs(lim, known + {metas[0].pubkey}, used + 1, metas[1..]);
        FitsUpToNext(lim, known, used, metas, Reached(lim, known, used, metas) - 1);
      }
    }
  }

  lemma {:induction false} FitsUpToNext(lim: Limits, known: set<Key>, used: nat, metas: seq<AccountMeta>, n: nat)
    requires used < lim.mtu && metas != [] && FitsUpTo(lim, known + {metas[0].pubkey}, used + 1, metas[1..], n)
    ensures FitsUpTo(lim, known, used, metas, n + 1)
  {
    LookedNext(lim, used, metas);
    KeysOfTaken(known, metas, n + 1);
    if n + 1 < |metas| {
      KeysOfTaken(known, metas, n + 2);
    }
  }

  lemma {:induction false} FirstKey(known: set<Key>, metas: seq<AccountMeta>)
    requires metas != []
    ensures known + MetaKeys(metas[..1]) == known + {metas[0].pubkey}
    ensures |known + {metas[0].pubkey}| == |known| + if metas[0].pubkey in known then 0 else 1
  {
    assert metas[..1][1..] == [];
    if metas[0].pubkey in known {
      assert known + {metas[0].pubkey} == known;
    }
  }

  lemma {:induction false} KeysOfTaken(known: set<Key>, metas: seq<AccountMeta>, n: nat)
    requires 0 < n <= |metas|
    ensures known + MetaKeys(metas[..n]) == known + {metas[0].pubkey} + MetaKeys(metas[1..][..n - 1])
  {
    assert metas[..n][1..] == metas[1..][..n - 1];
    KeysNext(known, metas[..n]);
  }

  // ---------- what a failed call leaves behind

  /**
    A failed call changes nothing exactly when everything it asked for was already granted and it had no
    account byte to push. A caller can check this before the call.
   */
  ghost predicate Traceless(lim: Limits, b: State, c: Call)
    requires |b.keys| == |b.roles|
  {
    var rs := StepRequests(lim, b, c);
    && (forall j :: 0 <= j < |rs| ==> Granted(b, rs[j]))
    && (c.AddInstruction? ==> |rs| <= 1 || |b.acctBuf| >= lim.mtu)
  }

  ghost predicate Granted(b: State, m: AccountMeta)
    requires |b.keys| == |b.roles|
  {
    exists i :: 0 <= i < |b.keys| && b.keys[i] == m.pubkey && Wider(m.role, b.roles[i])
  }

  lemma {:induction false} MetasUnpushed(lim: Limits, b: State, metas: seq<AccountMeta>)
    requires Valid(lim, b)
    ensures AddMetas(lim, b, metas).0.acctBuf == b.acctBuf
       <==> Reached(lim, KeySet(b), |b.acctBuf|, metas) == 0 || |b.acctBuf| >= lim.mtu
  {
    TableSize(lim, b);
    if metas != [] && Intern(lim, b, metas[0].pubkey).Ok? && |b.acctBuf| < lim.mtu {
      AddMetasNext(lim, b, metas);
      AddMetaOk(lim, b, metas[0]);
      AddMetasOk(lim, AddMeta(lim, b, metas[0]), metas[1..]);
    }
  }

  lemma {:induction false} InstructionUnpushed(lim: Limits, b: State, ix: Instruction)
    requires Valid(lim, b)
    ensures StepInstruction(lim, b, ix).0.acctBuf == b.acctBuf
       <==> |StepRequests(lim, b, AddInstruction(ix))| <= 1 || |b.acctBuf| >= lim.mtu
  {
    if |b.entries| < lim.instrMax && Intern(lim, b, ix.program).Ok? {
      InternOk(lim, b, ix.program);
      var b1 := Intern(lim, b, ix.program).value.0;
      MetasUnpushed(lim, b1, ix.accounts);
      assert KeySet(b1) == KeySet(b) + {ix.program};
      assert AddMetas(lim, b1, ix.accounts).0.acctBuf == StepInstruction(lim, b, ix).0.acctBuf;
    }
  }

  /** A table that reflects the requests before and after grew only if some request was not granted yet. */
  lemma {:induction false} TableUnchanged(
    lim: Limits, b: State, b': State, rs: seq<AccountMeta>, qs: seq<AccountMeta>)
    requires TableOk(lim, b) && TableOk(lim, b') && Grown(b, b') && Reflects(b, rs) && Reflects(b', rs + qs)
    ensures b.keys == b'.keys && b.roles == b'.roles <==> forall j :: 0 <= j < |qs| ==> Granted(b, qs[j])
  {
    var all := rs + qs;
    assert forall j :: 0 <= j < |rs| ==> all[j] == rs[j];
    if b.keys == b'.keys && b.roles == b'.roles {
      forall j | 0 <= j < |qs| ensures Granted(b, qs[j]) {
        assert all[|rs| + j] == qs[j];
        assert AskedFor(all, qs[j].pubkey, ToExist);
        var i :| 0 <= i < |b.keys| && b.keys[i] == qs[j].pubkey;
        assert qs[j].role.signer ==> AskedFor(all, b.keys[i], ToSign);
        assert qs[j].role.writable ==> AskedFor(all, b.keys[i], ToWrite);
      }
    }
    if forall j :: 0 <= j < |qs| ==> Granted(b, qs[j]) {
      if |b.keys| < |b'.keys| {
        NewKey(b.keys, b'.keys);
        AlreadyAsked(b, rs, qs, b'.keys[|b.keys|], ToExist);
        assert false;
      }
      forall i | 0 <= i < |b.keys| ensures b.roles[i] == b'.roles[i] {
        assert b'.keys[i] == b.keys[i] && Wider(b.roles[i], b'.roles[i]);
        if b'.roles[i].signer {
          AlreadyAsked(b, rs, qs, b.keys[i], ToSign);
        }
        if b'.roles[i].writable {
          AlreadyAsked(b, rs, qs, b.keys[i], ToWrite);
        }
      }
    }
  }

  lemma {:induction false} NewKey(keys: seq<Key>, keys': seq<Key>)
    requires keys < keys' && forall i, j :: 0 <= i < j < |keys'| ==> keys'[i] != keys'[j]
    ensures keys'[|keys|] !in keys
  {
  }

  /** Requests that were granted already ask for nothing new. */
  lemma {:induction false} AlreadyAsked(b: State, rs: seq<AccountMeta>, qs: seq<AccountMeta>, k: Key, w: Want)
    requires Reflects(b, rs) && (forall j :: 0 <= j < |qs| ==> Granted(b, qs[j])) && AskedFor(rs + qs, k, w)
    requires forall i, j :: 0 <= i < j < |b.keys| ==> b.keys[i] != b.keys[j]
    ensures AskedFor(rs, k, w)
  {
    var all := rs + qs;
    var j :| 0 <= j < |all| && all[j].pubkey == k && Carries(all[j].role, w);
    if j >= |rs| {
      assert all[j] == qs[j - |rs|];
      assert Granted(b, qs[j - |rs|]);
      var i :| 0 <= i < |b.keys| && b.keys[i] == k && Wider(all[j].role, b.roles[i]);
    }
  }

  /** A failed call leaves the state exactly as it was if and only if it is traceless. */
  lemma {:induction false} FailureTrace(lim: Limits, cs: seq<Call>, c: Call)
    requires !LastOutcome(lim, cs + [c]).Done?
    ensures Run(lim, cs + [c]) == Run(lim, cs) <==> Traceless(lim, Run(lim, cs), c)
  {
    assert (cs + [c])[..|cs|] == cs;
    var b := Run(lim, cs);
    var b' := Step(lim, b, c).0;
    StepOk(lim, b, c);
    RolesAreRequested(lim, cs);
    StepReflected(lim, b, c, Requests(lim, cs));
    TableUnchanged(lim, b, b', Requests(lim, cs), StepRequests(lim, b, c));
    if c.AddInstruction? {
      InstructionUnpushed(lim, b, c.ix);
    }
  }

  /** An instruction that fills the account buffer and then has one data byte too many. */
  function Greedy(lim: Limits, p: Key, m: AccountMeta): (r: Call)
  {
    AddInstruction(Instruction(p, seq(lim.mtu, _ => m), Zeros(lim.mtu + 1)))
  }

  function Modest(p: Key, m: AccountMeta): (r: Call)
  {
    AddInstruction(Instruction(p, [m], []))
  }

  /**
    Account bytes pushed by a failed call are not given back, so it can make a later good call fail: under any
    limits that admit an instruction with an account at all, there is a call that fails and after which an
    instruction with one account and no data is refused.
   */
  lemma {:induction false} FailureCanStarve(lim: Limits, p: Key, m: AccountMeta)
    requires lim.acctMax >= 2 && lim.instrMax >= 1 && lim.mtu >= 1
    ensures LastOutcome(lim, [Modest(p, m)]).Done?
    ensures LastOutcome(lim, [Greedy(lim, p, m)]) == Failed(DataTooLarge)
    ensures LastOutcome(lim, [Greedy(lim, p, m), Modest(p, m)]) == Failed(DataTooLarge)
  {
    var bad, good := Greedy(lim, p, m), Modest(p, m);
    assert [good][..0] == [] && [bad][..0] == [] && [bad, good][..1] == [bad];
    assert Run(lim, []) == EMPTY;
    FewKeys(p, good.ix.accounts, m.pubkey);
    AcceptedIff(lim, EMPTY, good.ix);
    GreedyFails(lim, p, m);
    Starved(lim, Run(lim, [bad]), p, m);
  }

  /** Accounts that all have the same key add at most that key. */
  lemma {:induction false} FewKeys(p: Key, metas: seq<AccountMeta>, k: Key)
    requires forall j :: 0 <= j < |metas| ==> metas[j].pubkey == k
    ensures |KeySet(EMPTY) + {p} + MetaKeys(metas)| <= 2
  {
    SameKeys(metas, k);
    CardinalityGrows(KeySet(EMPTY) + {p} + MetaKeys(metas), {p, k});
  }

  lemma {:induction false} SameKeys(metas: seq<AccountMeta>, k: Key)
    requires forall j :: 0 <= j < |metas| ==> metas[j].pubkey == k
    ensures MetaKeys(metas) <= {k}
  {
    if metas != [] {
      SameKeys(metas[1..], k);
    }
  }

  /** The failing instruction gets all its accounts in, and they stay. */
  lemma {:induction false} GreedyFails(lim: Limits, p: Key, m: AccountMeta)
    requires lim.acctMax >= 2 && lim.instrMax >= 1 && lim.mtu >= 1
    ensures var (b, o) := StepInstruction(lim, EMPTY, Greedy(lim, p, m).ix);
      o == Failed(DataTooLarge) && b.entries == [] && p in b.keys && m.pubkey in b.keys && |b.acctBuf| >= lim.mtu
  {
    var ix := Greedy(lim, p, m).ix;
    var b1 := Intern(lim, EMPTY, p).value.0;
    InternOk(lim, EMPTY, p);
    assert KeySet(b1) == KeySet(EMPTY) + {p};
    FewKeys(p, ix.accounts, m.pubkey);
    MetasAcceptedIff(lim, b1, ix.accounts);
    AddMetasOk(lim, b1, ix.accounts);
    var b2 := AddMetas(lim, b1, ix.accounts).0;
    assert b2.keys[b2.acctBuf[|b1.acctBuf|..][0]] == ix.accounts[0].pubkey;
  }

  lemma {:induction false} Starved(lim: Limits, b: State, p: Key, m: AccountMeta)
    requires Valid(lim, b) && |b.entries| < lim.instrMax && p in b.keys && m.pubkey in b.keys && |b.acctBuf| >= lim.mtu
    ensures StepInstruction(lim, b, Modest(p, m).ix).1 == Failed(DataTooLarge)
  {
    var metas := Modest(p, m).ix.accounts;
    assert Intern(lim, b, p).value.0 == b;
    assert Intern(lim, b, metas[0].pubkey).Ok?;
    assert AddMetas(lim, b, metas).1 == Some(DataTooLarge);
  }
}
