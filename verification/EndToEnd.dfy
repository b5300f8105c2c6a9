/**
  The builder from calls to bytes: whatever sequence of calls was made, a transaction that gets built
  parses back to exactly what was asked for, and the order in which unrelated calls were made does not matter.
 */
module EndToEnd {
  import opened Common
  import opened Builder
  import opened History
  import opened Ordering
  import opened Compile
  import opened Codec
  import W = Wire

  /** A message says what a run of calls asked for. */
  ghost predicate Says(lim: Limits, cs: seq<Call>, m: W.Message)
  {
    var ixs, rs := Accepted(lim, cs), Requests(lim, cs);
    // settings
    && m.version.V0? == LastVersion(cs).V0? && (m.version.V0? ==> m.version.lookups == [])
    && |m.keys| > 0 && LastPayer(lim, cs) == Some(m.keys[0])
    && LastBlockhash(cs) == Some(m.blockhash)
    // accounts: exactly those asked for, once each, with exactly the roles asked for
    && (forall i, j :: 0 <= i < j < |m.keys| ==> m.keys[i] != m.keys[j])
    && (forall k :: k in m.keys <==> AskedFor(rs, k, ToExist))
    && (forall i :: 0 <= i < |m.keys| ==> W.IsSigner(m, i) == AskedFor(rs, m.keys[i], ToSign))
    && (forall i :: 0 <= i < |m.keys| ==> W.IsWritable(m, i) == AskedFor(rs, m.keys[i], ToWrite))
    // instructions: exactly those accepted, in order
    && |m.instrs| == |ixs|
    && forall i :: 0 <= i < |ixs| ==> Resolvable(m, m.instrs[i]) && Resolve(m, m.instrs[i]) == Asked(ixs[i])
  }

  /** The bytes of a transaction are within the limit, parse back to it, have empty slots, and say what was asked. */
  ghost predicate Faithful(lim: Limits, cs: seq<Call>, t: W.Txn)
  {
    && W.ParseTxn(W.TxnBytes(t)) == Got(t, []) && |W.TxnBytes(t)| <= lim.mtu
    && |t.signatures| == t.message.header.sigCount
    && (forall i :: 0 <= i < |t.signatures| ==> t.signatures[i] == Zeros(64))
    && Says(lim, cs, t.message)
  }

  /**
    Full round trip: for every sequence of calls, including ones that failed, a successful build yields
    bytes within the limit that the reference parser consumes exactly, with empty signature slots and a
    message that says what the calls asked for.
   */
  lemma {:induction false} RoundTrip(lim: Limits, cs: seq<Call>)
    ensures var r := BuildResult(lim, Run(lim, cs)); r.Ok? ==> Faithful(lim, cs, r.value)
  {
    var b := Run(lim, cs);
    BuildIsDecided(lim, b);
    if BuildResult(lim, b).Ok? {
      var t := CompileTxn(lim, b);
      W.TxnRoundTrip(t, []);
      assert W.TxnBytes(t) + [] == W.TxnBytes(t);
      SizeIsClosedForm(lim, b);
      SettingsSaid(lim, cs);
      AccountsSaid(lim, cs);
      InstructionsSaid(lim, cs);
    }
  }

  lemma {:induction false} SettingsSaid(lim: Limits, cs: seq<Call>)
    requires Ready(lim, Run(lim, cs))
    ensures var m := CompileTxn(lim, Run(lim, cs)).message;
      && m.version.V0? == LastVersion(cs).V0? && (m.version.V0? ==> m.version.lookups == [])
      && LastBlockhash(cs) == Some(m.blockhash)
      && |m.keys| > 0 && LastPayer(lim, cs) == Some(m.keys[0])
  {
    SettingsAreLast(lim, cs);
    HeaderRecoversRoles(lim, Run(lim, cs));
  }

  lemma {:induction false} AccountsSaid(lim: Limits, cs: seq<Call>)
    requires Ready(lim, Run(lim, cs))
    ensures var m, rs := CompileTxn(lim, Run(lim, cs)).message, Requests(lim, cs);
      && (forall i, j :: 0 <= i < j < |m.keys| ==> m.keys[i] != m.keys[j])
      && (forall k :: k in m.keys <==> AskedFor(rs, k, ToExist))
      && (forall i :: 0 <= i < |m.keys| ==> W.IsSigner(m, i) == AskedFor(rs, m.keys[i], ToSign))
      && (forall i :: 0 <= i < |m.keys| ==> W.IsWritable(m, i) == AskedFor(rs, m.keys[i], ToWrite))
  {
    var b := Run(lim, cs);
    RolesAreRequested(lim, cs);
    KeysPermuted(lim, b);
    HeaderRecoversRoles(lim, b);
  }

  lemma {:induction false} InstructionsSaid(lim: Limits, cs: seq<Call>)
    requires Ready(lim, Run(lim, cs))
    ensures var m, ixs := CompileTxn(lim, Run(lim, cs)).message, Accepted(lim, cs);
      && |m.instrs| == |ixs|
      && forall i :: 0 <= i < |ixs| ==> Resolvable(m, m.instrs[i]) && Resolve(m, m.instrs[i]) == Asked(ixs[i])
  {
    var b := Run(lim, cs);
    var m, ixs := CompileTxn(lim, b).message, Accepted(lim, cs);
    EntriesMeanAccepted(lim, cs);
    assert |m.instrs| == |b.entries| == |ixs|;
    forall i | 0 <= i < |ixs| ensures Resolvable(m, m.instrs[i]) && Resolve(m, m.instrs[i]) == Asked(ixs[i]) {
      assert EntryOk(b, b.entries[i]);
      assert m.instrs[i] == CompileEntry(b, Layout(lim, b), b.entries[i]);
      EntryMeaningKept(lim, b, b.entries[i]);
    }
  }

  // ---------- a transaction that would fit and is refused

  /** The calls for a versioned transaction with one instruction, no accounts and `n` bytes of data. */
  function OneInstruction(payer: Key, hash: Key, program: Key, n: nat): (r: seq<Call>)
  {
    [SetVersion(V0), FeePayer(payer), RecentBlockhash(hash), AddInstruction(Instruction(program, [], Zeros(n)))]
  }

  /** The state after those calls. */
  lemma {:induction false} OneInstructionRun(lim: Limits, payer: Key, hash: Key, program: Key, n: nat)
    requires lim.acctMax >= 2 && lim.instrMax >= 1 && n <= lim.mtu && payer != program
    ensures Run(lim, OneInstruction(payer, hash, program, n)) ==
      State([payer, program], [Role(true, true), Role(false, false)], [Entry(1, 0, 0, 0, n)], [], Zeros(n),
            Some(payer), Some(hash), V0)
  {
    var cs := OneInstruction(payer, hash, program, n);
    assert cs[..3] == [SetVersion(V0), FeePayer(payer), RecentBlockhash(hash)];
    SettingsRun(lim, payer, hash);
    FirstInstruction(lim, Run(lim, cs[..3]), payer, program, n);
  }

  lemma {:induction false} SettingsRun(lim: Limits, payer: Key, hash: Key)
    requires lim.acctMax >= 2
    ensures Run(lim, [SetVersion(V0), FeePayer(payer), RecentBlockhash(hash)]) ==
      State([payer], [Role(true, true)], [], [], [], Some(payer), Some(hash), V0)
  {
    var cs := [SetVersion(V0), FeePayer(payer), RecentBlockhash(hash)];
    assert cs[..2][..1] == cs[..1] && cs[..1][..0] == [];
    assert Run(lim, cs[..1]) == EMPTY.(version := V0);
    assert Run(lim, cs[..2]) == State([payer], [Role(true, true)], [], [], [], Some(payer), None, V0);
  }

  lemma {:induction false} FirstInstruction(lim: Limits, b: State, payer: Key, program: Key, n: nat)
    requires lim.acctMax >= 2 && lim.instrMax >= 1 && n <= lim.mtu && payer != program
    requires b.keys == [payer] && |b.roles| == 1 && b.entries == [] && b.acctBuf == [] && b.dataBuf == []
    ensures StepInstruction(lim, b, Instruction(program, [], Zeros(n))) ==
      (b.(keys := [payer, program], roles := b.roles + [Role(false, false)],
          entries := [Entry(1, 0, 0, 0, n)], dataBuf := Zeros(n)), Done)
  {
    assert Find([payer], program) == None;
    var b1 := b.(keys := [payer, program], roles := b.roles + [Role(false, false)]);
    assert [payer] + [program] == [payer, program];
    assert Intern(lim, b, program) == Ok((b1, 1));
    assert AddMetas(lim, b1, []) == (b1, None);
    assert b.dataBuf + Zeros(n) == Zeros(n);
    assert b.entries + [Entry(1, 0, 0, 0, n)] == [Entry(1, 0, 0, 0, n)];
  }

  /**
    A transaction of exactly the size limit that `build` refuses: with the limit of 1232 bytes, one signer and
    1060 bytes of instruction data.
   */
  lemma {:induction false} RefusedAtLimit(lim: Limits, payer: Key, hash: Key, program: Key)
    requires lim.acctMax >= 2 && lim.instrMax >= 1 && lim.sigMax >= 1 && 300 <= lim.mtu < 16556
    requires payer != program
    ensures var b := Run(lim, OneInstruction(payer, hash, program, lim.mtu - 172));
      BuiltSize(lim, b) == lim.mtu && BuildResult(lim, b) == Err(TransactionTooLarge)
  {
    var n := lim.mtu - 172;
    OneInstructionRun(lim, payer, hash, program, n);
    var b := Run(lim, OneInstruction(payer, hash, program, n));
    OneSigner(b.roles[0], b.roles[1]);
    OneEntry(n);
    BuildIsDecided(lim, b);
  }

  lemma {:induction false} OneSigner(r: Role, q: Role)
    requires r.signer && !q.signer
    ensures Signers([r, q]) == 1
  {
    assert [r, q][..1] == [r] && [r][..0] == [];
    assert Tally([r], 0, 1) == 1;
  }

  lemma {:induction false} OneEntry(n: u16)
    requires 0x80 <= n < 0x4000
    ensures InstrsSize([Entry(1, 0, 0, 0, n)]) == 4 + n
  {
    var e := Entry(1, 0, 0, 0, n);
    assert [e][1..] == [];
    assert InstrSize(e) == 4 + n;
  }

  // ---------- order independence

  /** Two runs asked for the same things, perhaps in a different order. */
  ghost predicate SameAsks(lim: Limits, cs: seq<Call>, ds: seq<Call>)
  {
    && LastVersion(cs) == LastVersion(ds) && LastBlockhash(cs) == LastBlockhash(ds)
    && LastPayer(lim, cs) == LastPayer(lim, ds) && Accepted(lim, cs) == Accepted(lim, ds)
    && forall k, w :: AskedFor(Requests(lim, cs), k, w) == AskedFor(Requests(lim, ds), k, w)
  }

  /** The keys of the table whose sort key lies in `lo..hi`. */
  function ClassKeys(keys: seq<Key>, roles: seq<Role>, lo: nat, hi: nat): (r: set<Key>)
    requires |keys| == |roles|
    ensures forall k :: k in r ==> k in keys
  {
    if keys == [] then {}
    else
      var n := |keys| - 1;
      ClassKeys(keys[..n], roles[..n], lo, hi) + if lo <= SortKey(roles[n]) <= hi then {keys[n]} else {}
  }

  lemma {:induction false} InClass(keys: seq<Key>, roles: seq<Role>, lo: nat, hi: nat, i: nat)
    requires |keys| == |roles| && i < |keys| && lo <= SortKey(roles[i]) <= hi
    ensures keys[i] in ClassKeys(keys, roles, lo, hi)
  {
    if i < |keys| - 1 {
      InClass(keys[..|keys| - 1], roles[..|keys| - 1], lo, hi, i);
    }
  }

  lemma {:induction false} ClassIndex(keys: seq<Key>, roles: seq<Role>, lo: nat, hi: nat, k: Key) returns (i: nat)
    requires |keys| == |roles| && k in ClassKeys(keys, roles, lo, hi)
    ensures i < |keys| && keys[i] == k && lo <= SortKey(roles[i]) <= hi
  {
    i := |keys| - 1;
    if !(keys[i] == k && lo <= SortKey(roles[i]) <= hi) {
      i := ClassIndex(keys[..i], roles[..i], lo, hi, k);
    }
  }

  /** No key repeats an earlier one. */
  predicate NoRepeat(keys: seq<Key>)
  {
    keys != [] ==> keys[|keys| - 1] !in keys[..|keys| - 1] && NoRepeat(keys[..|keys| - 1])
  }

  lemma {:induction false} DistinctNoRepeat(keys: seq<Key>)
    requires forall i, j :: 0 <= i < j < |keys| ==> keys[i] != keys[j]
    ensures NoRepeat(keys)
  {
    if keys != [] {
      DistinctNoRepeat(keys[..|keys| - 1]);
    }
  }

  lemma {:induction false} TallyIsCardinality(keys: seq<Key>, roles: seq<Role>, lo: nat, hi: nat)
    requires |keys| == |roles| && NoRepeat(keys)
    ensures Tally(roles, lo, hi) == |ClassKeys(keys, roles, lo, hi)|
  {
    if keys != [] {
      var n := |keys| - 1;
      TallyIsCardinality(keys[..n], roles[..n], lo, hi);
      assert keys[n] !in ClassKeys(keys[..n], roles[..n], lo, hi);
    }
  }

  /** Tables that hold the same keys with the same roles have the same class counts. */
  lemma {:induction false} SameTally(b: State, c: State, rs: seq<AccountMeta>, qs: seq<AccountMeta>, lo: nat, hi: nat)
    requires NoRepeat(b.keys) && NoRepeat(c.keys) && Reflects(b, rs) && Reflects(c, qs)
    requires forall k, w :: AskedFor(rs, k, w) == AskedFor(qs, k, w)
    ensures Tally(b.roles, lo, hi) == Tally(c.roles, lo, hi)
  {
    assert ClassKeys(b.keys, b.roles, lo, hi) == ClassKeys(c.keys, c.roles, lo, hi) by {
      SameClassKeys(b, c, rs, qs, lo, hi);
      SameClassKeys(c, b, qs, rs, lo, hi);
    }
    TallyIsCardinality(b.keys, b.roles, lo, hi);
    TallyIsCardinality(c.keys, c.roles, lo, hi);
  }

  lemma {:induction false} SameTableSize(lim: Limits, b: State, c: State, rs: seq<AccountMeta>, qs: seq<AccountMeta>)
    requires TableOk(lim, b) && TableOk(lim, c) && Reflects(b, rs) && Reflects(c, qs)
    requires forall k, w :: AskedFor(rs, k, w) == AskedFor(qs, k, w)
    ensures |b.keys| == |c.keys| && NoRepeat(b.keys) && NoRepeat(c.keys)
  {
    DistinctNoRepeat(b.keys);
    DistinctNoRepeat(c.keys);
    TableSize(lim, b);
    TableSize(lim, c);
    assert KeySet(b) == KeySet(c);
  }

  lemma {:induction false} SameClassKeys(
    b: State, c: State, rs: seq<AccountMeta>, qs: seq<AccountMeta>, lo: nat, hi: nat)
    requires Reflects(b, rs) && Reflects(c, qs) && forall k, w :: AskedFor(rs, k, w) == AskedFor(qs, k, w)
    ensures ClassKeys(b.keys, b.roles, lo, hi) <= ClassKeys(c.keys, c.roles, lo, hi)
  {
    forall k | k in ClassKeys(b.keys, b.roles, lo, hi) ensures k in ClassKeys(c.keys, c.roles, lo, hi) {
      var i := ClassIndex(b.keys, b.roles, lo, hi, k);
      assert AskedFor(rs, k, ToExist);
      assert k in c.keys;
      var j :| 0 <= j < |c.keys| && c.keys[j] == k;
      assert b.roles[i] == c.roles[j];
      InClass(c.keys, c.roles, lo, hi, j);
    }
  }

  lemma {:induction false} SameInstrsSize(lim: Limits, b: State, c: State, ixs: seq<Instruction>)
    requires Valid(lim, b) && Valid(lim, c) && Holds(lim, b, ixs) && Holds(lim, c, ixs)
    ensures InstrsSize(b.entries) == InstrsSize(c.entries)
    ensures forall i :: 0 <= i < |ixs| ==>
      b.entries[i].acctCnt == c.entries[i].acctCnt && b.entries[i].dataLen == c.entries[i].dataLen
  {
    forall i | 0 <= i < |ixs|
      ensures b.entries[i].acctCnt == c.entries[i].acctCnt && b.entries[i].dataLen == c.entries[i].dataLen
    {
      assert Stored(lim, b, b.entries[i]) == Asked(ixs[i]) == Stored(lim, c, c.entries[i]);
      assert |Stored(lim, b, b.entries[i]).data| == b.entries[i].dataLen;
      assert |Stored(lim, c, c.entries[i]).data| == c.entries[i].dataLen;
    }
    SameSizes(b.entries, c.entries);
  }

  lemma {:induction false} SameSizes(es: seq<Entry>, fs: seq<Entry>)
    requires |es| == |fs|
    requires forall i :: 0 <= i < |es| ==> es[i].acctCnt == fs[i].acctCnt && es[i].dataLen == fs[i].dataLen
    ensures InstrsSize(es) == InstrsSize(fs)
  {
    if es != [] {
      SameSizes(es[1..], fs[1..]);
    }
  }

  /** Runs that asked for the same things reach states that look the same to every check of `build`. */
  lemma {:induction false} SameFigures(lim: Limits, cs: seq<Call>, ds: seq<Call>)
    requires SameAsks(lim, cs, ds)
    ensures var b, c := Run(lim, cs), Run(lim, ds);
      && SameSettings(b, c) && |b.keys| == |c.keys| && |b.entries| == |c.entries|
      && (forall lo, hi :: Tally(b.roles, lo, hi) == Tally(c.roles, lo, hi))
      && BuiltSize(lim, b) == BuiltSize(lim, c) && (b.entries != [] ==> StateSlack(b) == StateSlack(c))
  {
    SettingsAreLast(lim, cs);
    SettingsAreLast(lim, ds);
    SameTallies(lim, cs, ds);
    SameEntries(lim, cs, ds);
    SameSize(lim, Run(lim, cs), Run(lim, ds));
  }

  lemma {:induction false} SameSize(lim: Limits, b: State, c: State)
    requires Valid(lim, b) && Valid(lim, c) && b.version == c.version
    requires |b.keys| == |c.keys| && Tally(b.roles, 0, 1) == Tally(c.roles, 0, 1)
    requires |b.entries| == |c.entries| && InstrsSize(b.entries) == InstrsSize(c.entries)
    requires b.entries != [] ==> b.entries[|b.entries| - 1].dataLen == c.entries[|c.entries| - 1].dataLen
    ensures BuiltSize(lim, b) == BuiltSize(lim, c) && (b.entries != [] ==> StateSlack(b) == StateSlack(c))
  {
  }

  lemma {:induction false} SameTallies(lim: Limits, cs: seq<Call>, ds: seq<Call>)
    requires SameAsks(lim, cs, ds)
    ensures var b, c := Run(lim, cs), Run(lim, ds);
      |b.keys| == |c.keys| && forall lo, hi :: Tally(b.roles, lo, hi) == Tally(c.roles, lo, hi)
  {
    var b, c := Run(lim, cs), Run(lim, ds);
    var rs, qs := Requests(lim, cs), Requests(lim, ds);
    RolesAreRequested(lim, cs);
    RolesAreRequested(lim, ds);
    SameTableSize(lim, b, c, rs, qs);
    forall lo, hi ensures Tally(b.roles, lo, hi) == Tally(c.roles, lo, hi) {
      SameTally(b, c, rs, qs, lo, hi);
    }
  }

  lemma {:induction false} SameEntries(lim: Limits, cs: seq<Call>, ds: seq<Call>)
    requires SameAsks(lim, cs, ds)
    ensures var es, fs := Run(lim, cs).entries, Run(lim, ds).entries;
      && |es| == |fs| && InstrsSize(es) == InstrsSize(fs)
      && (es != [] ==> es[|es| - 1].dataLen == fs[|fs| - 1].dataLen)
  {
    EntriesMeanAccepted(lim, cs);
    EntriesMeanAccepted(lim, ds);
    SameInstrsSize(lim, Run(lim, cs), Run(lim, ds), Accepted(lim, cs));
  }

  lemma {:induction false} SameDecision(lim: Limits, cs: seq<Call>, ds: seq<Call>)
    requires SameAsks(lim, cs, ds)
    ensures var r, q := BuildResult(lim, Run(lim, cs)), BuildResult(lim, Run(lim, ds));
      (r.Err? ==> q == r) && (r.Ok? ==> q.Ok?)
  {
    SameFigures(lim, cs, ds);
    BuildIsDecided(lim, Run(lim, cs));
    BuildIsDecided(lim, Run(lim, ds));
  }

  lemma {:induction false} SameShape(lim: Limits, cs: seq<Call>, ds: seq<Call>)
    requires SameAsks(lim, cs, ds) && Ready(lim, Run(lim, cs)) && Ready(lim, Run(lim, ds))
    ensures var t, u := CompileTxn(lim, Run(lim, cs)), CompileTxn(lim, Run(lim, ds));
      && |W.TxnBytes(t)| == |W.TxnBytes(u)|
      && t.message.header == u.message.header && |t.message.keys| == |u.message.keys|
  {
    var b, c := Run(lim, cs), Run(lim, ds);
    SameFigures(lim, cs, ds);
    SizeIsClosedForm(lim, b);
    SizeIsClosedForm(lim, c);
    HeaderTallies(lim, b);
    HeaderTallies(lim, c);
  }

  /**
    Order independence: two runs that asked for the same things get the same answer, and if that is a
    transaction then it has the same length, header, accounts, roles and instructions. Only the order of
    accounts inside a role class can differ.
   */
  lemma {:induction false} OrderIndependence(lim: Limits, cs: seq<Call>, ds: seq<Call>)
    requires SameAsks(lim, cs, ds)
    ensures var r, q := BuildResult(lim, Run(lim, cs)), BuildResult(lim, Run(lim, ds));
      && (r.Err? ==> q == r)
      && (r.Ok? ==>
            && q.Ok? && |W.TxnBytes(r.value)| == |W.TxnBytes(q.value)|
            && SameReading(r.value.message, q.value.message))
  {
    SameDecision(lim, cs, ds);
    var r, q := BuildResult(lim, Run(lim, cs)), BuildResult(lim, Run(lim, ds));
    if r.Ok? {
      BuiltIsCompiled(lim, Run(lim, cs));
      BuiltIsCompiled(lim, Run(lim, ds));
      SameShape(lim, cs, ds);
      RoundTrip(lim, cs);
      RoundTrip(lim, ds);
      ReadSame(lim, cs, ds, r.value.message, q.value.message);
    }
  }

  lemma {:induction false} BuiltIsCompiled(lim: Limits, b: State)
    requires Valid(lim, b) && BuildResult(lim, b).Ok?
    ensures Ready(lim, b) && BuildResult(lim, b).value == CompileTxn(lim, b)
  {
  }

  /** What a reader learns from two messages is the same, up to the position of an account. */
  ghost predicate SameReading(m: W.Message, n: W.Message)
  {
    && m.version == n.version && m.header == n.header && m.blockhash == n.blockhash
    && |m.keys| == |n.keys| && (forall k :: k in m.keys <==> k in n.keys)
    && (forall i, j :: 0 <= i < |m.keys| && 0 <= j < |n.keys| && m.keys[i] == n.keys[j] ==>
          W.IsSigner(m, i) == W.IsSigner(n, j) && W.IsWritable(m, i) == W.IsWritable(n, j))
    && |m.instrs| == |n.instrs|
    && forall i :: 0 <= i < |m.instrs| ==>
         && Resolvable(m, m.instrs[i]) && Resolvable(n, n.instrs[i])
         && Resolve(m, m.instrs[i]) == Resolve(n, n.instrs[i])
  }

  lemma {:induction false} ReadSame(lim: Limits, cs: seq<Call>, ds: seq<Call>, m: W.Message, n: W.Message)
    requires SameAsks(lim, cs, ds) && Says(lim, cs, m) && Says(lim, ds, n)
    requires m.header == n.header && |m.keys| == |n.keys|
    ensures SameReading(m, n)
  {
  }

  // ---------- runs in which every call succeeded

  ghost predicate AllDone(lim: Limits, cs: seq<Call>)
  {
    cs == [] || (AllDone(lim, cs[..|cs| - 1]) && LastOutcome(lim, cs).Done?)
  }

  function Instructions(cs: seq<Call>): (r: seq<Instruction>)
  {
    if cs == [] then []
    else Instructions(cs[..|cs| - 1]) + if cs[|cs| - 1].AddInstruction? then [cs[|cs| - 1].ix] else []
  }

  function Payers(cs: seq<Call>): (r: set<Key>)
  {
    set i | 0 <= i < |cs| && cs[i].FeePayer? :: cs[i].key
  }

  function AddedSigners(cs: seq<Call>): (r: set<Key>)
  {
    set i | 0 <= i < |cs| && cs[i].AddSigner? :: cs[i].key
  }

  function FinalPayer(cs: seq<Call>): (r: Option<Key>)
  {
    if cs == [] then None
    else if cs[|cs| - 1].FeePayer? then Some(cs[|cs| - 1].key)
    else FinalPayer(cs[..|cs| - 1])
  }

  /** What the calls ask for a key, read off the calls alone. */
  ghost predicate Wanted(cs: seq<Call>, k: Key, w: Want)
  {
    || k in Payers(cs)
    || (k in AddedSigners(cs) && !w.ToWrite?)
    || AskedByAny(Instructions(cs), k, w)
  }

  ghost predicate AskedByAny(ixs: seq<Instruction>, k: Key, w: Want)
  {
    exists i :: 0 <= i < |ixs| && AskedFor(Wishes(AddInstruction(ixs[i])), k, w)
  }

  lemma {:induction false} AskedConcat(rs: seq<AccountMeta>, qs: seq<AccountMeta>, k: Key, w: Want)
    ensures AskedFor(rs + qs, k, w) == (AskedFor(rs, k, w) || AskedFor(qs, k, w))
  {
    var all := rs + qs;
    assert forall j :: 0 <= j < |rs| ==> all[j] == rs[j];
    assert forall j :: 0 <= j < |qs| ==> all[|rs| + j] == qs[j];
    if AskedFor(qs, k, w) {
      var j :| 0 <= j < |qs| && qs[j].pubkey == k && Carries(qs[j].role, w);
      assert all[|rs| + j] == qs[j];
    }
    if AskedFor(all, k, w) {
      var j :| 0 <= j < |all| && all[j].pubkey == k && Carries(all[j].role, w);
      assert j < |rs| || all[j] == qs[j - |rs|];
    }
  }

  lemma {:induction false} WantedNext(cs: seq<Call>, c: Call, k: Key, w: Want)
    ensures Wanted(cs + [c], k, w) == (Wanted(cs, k, w) || AskedFor(Wishes(c), k, w))
  {
    assert (cs + [c])[..|cs|] == cs;
    PayersNext(cs, c);
    if c.AddInstruction? {
      AskedByAnyNext(Instructions(cs), c.ix, k, w);
    } else {
      assert Instructions(cs + [c]) == Instructions(cs);
      WishOfOne(c, k, w);
    }
  }

  lemma {:induction false} AskedByAnyNext(ixs: seq<Instruction>, ix: Instruction, k: Key, w: Want)
    ensures AskedByAny(ixs + [ix], k, w) == (AskedByAny(ixs, k, w) || AskedFor(Wishes(AddInstruction(ix)), k, w))
  {
    var all := ixs + [ix];
    assert all[|ixs|] == ix;
    assert forall i :: 0 <= i < |ixs| ==> all[i] == ixs[i];
  }

  lemma {:induction false} WishOfOne(c: Call, k: Key, w: Want)
    requires !c.AddInstruction?
    ensures AskedFor(Wishes(c), k, w) ==
      match c { case FeePayer(p) => p == k case AddSigner(p) => p == k && !w.ToWrite? case _ => false }
  {
    if c.FeePayer? || c.AddSigner? {
      assert Wishes(c)[0].pubkey == c.key;
    }
  }

  /** The requests are what the calls want. */
  ghost predicate Grants(rs: seq<AccountMeta>, cs: seq<Call>)
  {
    forall k, w :: AskedFor(rs, k, w) == Wanted(cs, k, w)
  }

  /** When every call succeeded, the history is read off the calls themselves. */
  lemma {:induction false} DoneHistory(lim: Limits, cs: seq<Call>)
    requires AllDone(lim, cs)
    ensures Accepted(lim, cs) == Instructions(cs) && LastPayer(lim, cs) == FinalPayer(cs)
    ensures Grants(Requests(lim, cs), cs)
  {
    DoneCalls(lim, cs);
    DoneRequests(lim, cs);
  }

  lemma {:induction false} DoneCalls(lim: Limits, cs: seq<Call>)
    requires AllDone(lim, cs)
    ensures Accepted(lim, cs) == Instructions(cs) && LastPayer(lim, cs) == FinalPayer(cs)
  {
    if cs != [] {
      DoneCalls(lim, cs[..|cs| - 1]);
    }
  }

  lemma {:induction false} DoneRequests(lim: Limits, cs: seq<Call>)
    requires AllDone(lim, cs)
    ensures Grants(Requests(lim, cs), cs)
  {
    if cs != [] {
      DoneRequests(lim, cs[..|cs| - 1]);
      RequestsNext(lim, cs);
      GrantsNext(Requests(lim, cs[..|cs| - 1]), Requests(lim, cs), cs);
    }
  }

  lemma {:induction false} GrantsNext(rs: seq<AccountMeta>, rs': seq<AccountMeta>, cs: seq<Call>)
    requires cs != [] && Grants(rs, cs[..|cs| - 1]) && rs' == rs + Wishes(cs[|cs| - 1])
    ensures Grants(rs', cs)
  {
    var front, c := cs[..|cs| - 1], cs[|cs| - 1];
    WantedByAll(rs, front, c);
    assert front + [c] == cs;
  }

  lemma {:induction false} RequestsNext(lim: Limits, cs: seq<Call>)
    requires cs != [] && LastOutcome(lim, cs).Done?
    ensures Requests(lim, cs) == Requests(lim, cs[..|cs| - 1]) + Wishes(cs[|cs| - 1])
  {
    var front := cs[..|cs| - 1];
    RolesAreRequested(lim, front);
    StepReflected(lim, Run(lim, front), cs[|cs| - 1], Requests(lim, front));
  }

  lemma {:induction false} WantedByAll(rs: seq<AccountMeta>, cs: seq<Call>, c: Call)
    requires Grants(rs, cs)
    ensures Grants(rs + Wishes(c), cs + [c])
  {
    forall k, w ensures AskedFor(rs + Wishes(c), k, w) == Wanted(cs + [c], k, w) {
      AskedConcat(rs, Wishes(c), k, w);
      WantedNext(cs, c, k, w);
    }
  }

  // ---------- when every call succeeds

  function InstrKeys(ixs: seq<Instruction>): (r: set<Key>)
  {
    if ixs == [] then {}
    else InstrKeys(ixs[..|ixs| - 1]) + {ixs[|ixs| - 1].program} + MetaKeys(ixs[|ixs| - 1].accounts)
  }

  function AcctBytes(ixs: seq<Instruction>): (r: nat)
  {
    if ixs == [] then 0 else AcctBytes(ixs[..|ixs| - 1]) + |ixs[|ixs| - 1].accounts|
  }

  function DataBytes(ixs: seq<Instruction>): (r: nat)
  {
    if ixs == [] then 0 else DataBytes(ixs[..|ixs| - 1]) + |ixs[|ixs| - 1].data|
  }

  /** Every key the calls mention. */
  function Mentioned(cs: seq<Call>): (r: set<Key>)
  {
    Payers(cs) + AddedSigners(cs) + InstrKeys(Instructions(cs))
  }

  /** The totals of all calls are within the limits. */
  predicate TotalsFit(lim: Limits, cs: seq<Call>)
  {
    var ixs := Instructions(cs);
    |ixs| <= lim.instrMax && |Mentioned(cs)| <= lim.acctMax && AcctBytes(ixs) <= lim.mtu && DataBytes(ixs) <= lim.mtu
  }

  /** The instruction of a call, if it is one. */
  function CallInstr(c: Call): (r: seq<Instruction>)
  {
    if c.AddInstruction? then [c.ix] else []
  }

  function CallKeys(c: Call): (r: set<Key>)
  {
    match c
    case FeePayer(k) => {k}
    case AddSigner(k) => {k}
    case AddInstruction(ix) => {ix.program} + MetaKeys(ix.accounts)
    case _ => {}
  }

  function AcctsOf(c: Call): (r: nat)
  {
    if c.AddInstruction? then |c.ix.accounts| else 0
  }

  function DataOf(c: Call): (r: nat)
  {
    if c.AddInstruction? then |c.ix.data| else 0
  }

  lemma {:induction false} InstructionsNext(cs: seq<Call>, c: Call)
    ensures var ixs, all := Instructions(cs), Instructions(cs + [c]);
      && |all| == |ixs| + |CallInstr(c)|
      && AcctBytes(all) == AcctBytes(ixs) + AcctsOf(c) && DataBytes(all) == DataBytes(ixs) + DataOf(c)
      && InstrKeys(all) == InstrKeys(ixs) + if c.AddInstruction? then CallKeys(c) else {}
  {
    var ixs := Instructions(cs);
    assert (cs + [c])[..|cs|] == cs;
    assert Instructions(cs + [c]) == ixs + CallInstr(c);
    if c.AddInstruction? {
      assert (ixs + [c.ix])[..|ixs|] == ixs;
    } else {
      assert ixs + [] == ixs;
    }
  }

  /** What one more call adds to the totals. */
  lemma {:induction false} MentionedNext(cs: seq<Call>, c: Call)
    ensures Mentioned(cs + [c]) == Mentioned(cs) + CallKeys(c)
  {
    PayersNext(cs, c);
    InstructionsNext(cs, c);
  }

  lemma {:induction false} PayersNext(cs: seq<Call>, c: Call)
    ensures Payers(cs + [c]) == Payers(cs) + (if c.FeePayer? then {c.key} else {})
    ensures AddedSigners(cs + [c]) == AddedSigners(cs) + (if c.AddSigner? then {c.key} else {})
  {
    var all := cs + [c];
    assert all[|cs|] == c;
    assert forall i :: 0 <= i < |cs| ==> all[i] == cs[i];
  }

  /** The state uses exactly the totals of the calls. */
  ghost predicate UsesTotals(b: State, cs: seq<Call>)
  {
    var ixs := Instructions(cs);
    |b.entries| == |ixs| && KeySet(b) == Mentioned(cs) && |b.acctBuf| == AcctBytes(ixs) && |b.dataBuf| == DataBytes(ixs)
  }

  lemma {:induction false} InternKeys(lim: Limits, b: State, k: Key)
    requires Intern(lim, b, k).Ok?
    ensures KeySet(Intern(lim, b, k).value.0) == KeySet(b) + {k}
  {
  }

  lemma {:induction false} MetasKeySet(lim: Limits, b: State, metas: seq<AccountMeta>)
    requires Valid(lim, b) && AddMetas(lim, b, metas).1.None?
    ensures KeySet(AddMetas(lim, b, metas).0) == KeySet(b) + MetaKeys(metas)
    decreases |metas|
  {
    if metas != [] {
      AddMetaOk(lim, b, metas[0]);
      AddMetasNext(lim, b, metas);
      AddMetaKeys(lim, b, metas[0]);
      MetasKeySet(lim, AddMeta(lim, b, metas[0]), metas[1..]);
    }
  }

  lemma {:induction false} InstructionKeySet(lim: Limits, b: State, ix: Instruction)
    requires Valid(lim, b) && StepInstruction(lim, b, ix).1.Done?
    ensures KeySet(StepInstruction(lim, b, ix).0) == KeySet(b) + CallKeys(AddInstruction(ix))
  {
    InternOk(lim, b, ix.program);
    InternKeys(lim, b, ix.program);
    var b1 := Intern(lim, b, ix.program).value.0;
    InstructionTable(lim, b, ix);
    MetasKeySet(lim, b1, ix.accounts);
    var b2, b3 := AddMetas(lim, b1, ix.accounts).0, StepInstruction(lim, b, ix).0;
    assert KeySet(b3) == KeySet(b2);
  }

  /** A call that succeeds adds its own keys to the table. */
  lemma {:induction false} StepKeySet(lim: Limits, b: State, c: Call)
    requires Valid(lim, b) && Step(lim, b, c).1.Done?
    ensures KeySet(Step(lim, b, c).0) == KeySet(b) + CallKeys(c)
  {
    match c
    case FeePayer(k) => InternKeys(lim, b, k);
    case AddSigner(k) => InternKeys(lim, b, k);
    case AddInstruction(ix) => InstructionKeySet(lim, b, ix);
    case _ =>
  }

  /** What a call adds still fits. */
  predicate StepFits(lim: Limits, b: State, c: Call)
  {
    && |KeySet(b) + CallKeys(c)| <= lim.acctMax
    && (c.AddInstruction? ==>
          && |b.entries| < lim.instrMax
          && |b.acctBuf| + |c.ix.accounts| <= lim.mtu && |b.dataBuf| + |c.ix.data| <= lim.mtu)
  }

  /** A call succeeds if and only if what it adds still fits. */
  lemma {:induction false} StepDoneIff(lim: Limits, b: State, c: Call)
    requires Valid(lim, b)
    ensures Step(lim, b, c).1.Done? <==> StepFits(lim, b, c)
  {
    match c
    case AddInstruction(ix) =>
      AcceptedIff(lim, b, ix);
      assert KeySet(b) + {ix.program} + MetaKeys(ix.accounts) == KeySet(b) + CallKeys(c);
    case FeePayer(k) => InternDecided(lim, b, k);
    case AddSigner(k) => InternDecided(lim, b, k);
    case _ =>
      TableSize(lim, b);
      assert KeySet(b) + {} == KeySet(b);
  }

  lemma {:induction false} DoneUsesTotals(lim: Limits, cs: seq<Call>)
    requires AllDone(lim, cs)
    ensures UsesTotals(Run(lim, cs), cs)
  {
    if cs != [] {
      DoneUsesTotals(lim, cs[..|cs| - 1]);
      TotalsLast(lim, cs);
    }
  }

  lemma {:induction false} TotalsLast(lim: Limits, cs: seq<Call>)
    requires cs != [] && LastOutcome(lim, cs).Done? && UsesTotals(Run(lim, cs[..|cs| - 1]), cs[..|cs| - 1])
    ensures UsesTotals(Run(lim, cs), cs)
  {
    var front, c := cs[..|cs| - 1], cs[|cs| - 1];
    assert front + [c] == cs;
    TotalsNext(lim, Run(lim, front), front, c);
  }

  lemma {:induction false} TotalsNext(lim: Limits, b: State, cs: seq<Call>, c: Call)
    requires Valid(lim, b) && UsesTotals(b, cs) && Step(lim, b, c).1.Done?
    ensures UsesTotals(Step(lim, b, c).0, cs + [c])
  {
    MentionedNext(cs, c);
    InstructionsNext(cs, c);
    StepKeySet(lim, b, c);
    StepBuffers(lim, b, c);
  }

  lemma {:induction false} StepBuffers(lim: Limits, b: State, c: Call)
    requires Valid(lim, b) && Step(lim, b, c).1.Done?
    ensures var b' := Step(lim, b, c).0;
      && |b'.entries| == |b.entries| + |CallInstr(c)|
      && |b'.acctBuf| == |b.acctBuf| + AcctsOf(c) && |b'.dataBuf| == |b.dataBuf| + DataOf(c)
  {
    StepOk(lim, b, c);
    if c.AddInstruction? {
      StepInstructionOk(lim, b, c.ix);
    }
  }

  /** Totals only grow. */
  lemma {:induction false} TotalsGrow(lim: Limits, cs: seq<Call>, c: Call)
    requires TotalsFit(lim, cs + [c])
    ensures TotalsFit(lim, cs)
  {
    MentionedNext(cs, c);
    InstructionsNext(cs, c);
    CardinalityGrows(Mentioned(cs), Mentioned(cs + [c]));
  }

  lemma {:induction false} NextDoneIff(lim: Limits, b: State, cs: seq<Call>, c: Call)
    requires Valid(lim, b) && UsesTotals(b, cs) && TotalsFit(lim, cs)
    ensures Step(lim, b, c).1.Done? <==> TotalsFit(lim, cs + [c])
  {
    MentionedNext(cs, c);
    InstructionsNext(cs, c);
    StepDoneIff(lim, b, c);
  }

  /**
    When every call of a sequence succeeds: if and only if the instructions, the distinct keys mentioned, the
    account bytes and the data bytes of all calls together are within the limits. The order does not matter.
   */
  lemma {:induction false} AllDoneIff(lim: Limits, cs: seq<Call>)
    ensures AllDone(lim, cs) <==> TotalsFit(lim, cs)
  {
    if cs == [] {
      assert Mentioned(cs) == {};
    } else {
      var front, c := cs[..|cs| - 1], cs[|cs| - 1];
      assert front + [c] == cs;
      AllDoneIff(lim, front);
      if AllDone(lim, front) {
        DoneUsesTotals(lim, front);
        NextDoneIff(lim, Run(lim, front), front, c);
      } else if TotalsFit(lim, cs) {
        TotalsGrow(lim, front, c);
      }
    }
  }

  /**
    Take a sequence of calls that all succeed. Any other sequence with the same instructions in the same order,
    the same fee-payer and signer keys and the same final settings, however interleaved, succeeds as well and
    asks for the same things.
   */
  lemma {:induction false} InterleavingsAskTheSame(lim: Limits, cs: seq<Call>, ds: seq<Call>)
    requires AllDone(lim, cs)
    requires Instructions(cs) == Instructions(ds) && Payers(cs) == Payers(ds) && AddedSigners(cs) == AddedSigners(ds)
    requires FinalPayer(cs) == FinalPayer(ds)
    requires LastBlockhash(cs) == LastBlockhash(ds) && LastVersion(cs) == LastVersion(ds)
    ensures AllDone(lim, ds) && SameAsks(lim, cs, ds)
  {
    AllDoneIff(lim, cs);
    AllDoneIff(lim, ds);
    DoneHistory(lim, cs);
    DoneHistory(lim, ds);
  }
}
