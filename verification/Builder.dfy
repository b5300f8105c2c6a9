/**
  The transaction builder as a value: an interned account table with merged roles, and instruction
  entries that point into two packed buffers. Every call is a function from state to state and outcome.
 */
module Builder {
  import opened Common

  /** The generated limits: any values that keep the builder's narrowing casts meaningful. */
  datatype Bounds = Bounds(acctMax: nat, instrMax: nat, mtu: nat, sigMax: nat)

  type Limits = l: Bounds | l.acctMax <= 0xff && l.instrMax <= 0xffff && l.mtu <= 0xffff && l.sigMax <= 0x7f
    witness Bounds(0, 0, 0, 0)

  datatype TxnVersion = Legacy | V0

  datatype BuildError =
    | NoFeePayer | NoBlockhash | NoInstructions | TooManyAccounts | TooManyInstructions
    | TooManySigners | DataTooLarge | TransactionTooLarge | ValidationFailed

  /** The signer and writable flag bits of an account. */
  datatype Role = Role(signer: bool, writable: bool)

  function Join(a: Role, b: Role): (r: Role)
  {
    Role(a.signer || b.signer, a.writable || b.writable)
  }

  predicate Wider(a: Role, b: Role)
  {
    (a.signer ==> b.signer) && (a.writable ==> b.writable)
  }

  datatype AccountMeta = AccountMeta(pubkey: Key, role: Role)

  datatype Instruction = Instruction(program: Key, accounts: seq<AccountMeta>, data: Bytes)

  datatype Entry = Entry(program: byte, acctOff: u16, acctCnt: u16, dataOff: u16, dataLen: u16)

  datatype State = State(
    keys: seq<Key>, roles: seq<Role>,
    entries: seq<Entry>, acctBuf: Bytes, dataBuf: Bytes,
    feePayer: Option<Key>, blockhash: Option<Key>, version: TxnVersion)

  datatype Outcome = Done | Failed(error: BuildError) | Panicked

  datatype Call =
    | SetVersion(version: TxnVersion)
    | FeePayer(key: Key)
    | RecentBlockhash(hash: Key)
    | AddSigner(key: Key)
    | AddInstruction(ix: Instruction)

  const EMPTY: State := State([], [], [], [], [], None, None, Legacy)

  // ---------- the calls

  /** The first index holding the key. */
  function Find(keys: seq<Key>, k: Key): (r: Option<nat>)
    ensures r.Some? ==> r.value < |keys| && keys[r.value] == k && k !in keys[..r.value]
    ensures r.None? ==> k !in keys
  {
    if keys == [] then None
    else if keys[0] == k then Some(0)
    else
      match Find(keys[1..], k)
      case None => None
      case Some(i) =>
        assert keys[..i + 1] == [keys[0]] + keys[1..][..i];
        Some(i + 1)
  }

  function Intern(lim: Limits, b: State, k: Key): (r: Result<(State, nat), BuildError>)
  {
    match Find(b.keys, k)
    case Some(i) => Ok((b, i))
    case None =>
      if |b.keys| >= lim.acctMax then Err(TooManyAccounts)
      else Ok((b.(keys := b.keys + [k], roles := b.roles + [Role(false, false)]), |b.keys|))
  }

  function Grant(b: State, i: nat, role: Role): (r: State)
    requires i < |b.roles|
  {
    b.(roles := b.roles[i := Join(b.roles[i], role)])
  }

  /** The account loop of `add_instruction`; it stops at the first error, keeping what was done so far. */
  function AddMetas(lim: Limits, b: State, metas: seq<AccountMeta>): (r: (State, Option<BuildError>))
    requires |b.keys| == |b.roles|
    decreases |metas|
  {
    if metas == [] then (b, None)
    else
      match Intern(lim, b, metas[0].pubkey)
      case Err(e) => (b, Some(e))
      case Ok((b1, i)) =>
        var b2 := Grant(b1, i, metas[0].role);
        if |b2.acctBuf| >= lim.mtu then (b2, Some(DataTooLarge))
        else AddMetas(lim, b2.(acctBuf := b2.acctBuf + [AsU8(i)]), metas[1..])
  }

  function StepInstruction(lim: Limits, b: State, ix: Instruction): (r: (State, Outcome))
    requires |b.keys| == |b.roles|
  {
    if |b.entries| >= lim.instrMax then (b, Failed(TooManyInstructions))
    else
      match Intern(lim, b, ix.program)
      case Err(e) => (b, Failed(e))
      case Ok((b1, p)) =>
        var (b2, error) := AddMetas(lim, b1, ix.accounts);
        if error.Some? then (b2, Failed(error.value))
        else if |b2.dataBuf| + |ix.data| > lim.mtu then (b2, Failed(DataTooLarge))
        else
          var entry := Entry(AsU8(p), AsU16(|b1.acctBuf|), AsU16(|ix.accounts|), AsU16(|b2.dataBuf|), AsU16(|ix.data|));
          (b2.(dataBuf := b2.dataBuf + ix.data, entries := b2.entries + [entry]), Done)
  }

  /** A full table makes `fee_payer` panic before it changes anything. */
  predicate FeePayerPanics(lim: Limits, b: State, k: Key)
  {
    k !in b.keys && |b.keys| >= lim.acctMax
  }

  function Step(lim: Limits, b: State, c: Call): (r: (State, Outcome))
    requires |b.keys| == |b.roles|
  {
    match c
    case SetVersion(v) => (b.(version := v), Done)
    case RecentBlockhash(h) => (b.(blockhash := Some(h)), Done)
    case FeePayer(k) =>
      (match Intern(lim, b, k)
       case Err(_) => (b, Panicked)
       case Ok((b1, i)) => (Grant(b1, i, Role(true, true)).(feePayer := Some(k)), Done))
    case AddSigner(k) =>
      (match Intern(lim, b, k)
       case Err(e) => (b, Failed(e))
       case Ok((b1, i)) => (Grant(b1, i, Role(true, false)), Done))
    case AddInstruction(ix) => StepInstruction(lim, b, ix)
  }

  // ---------- the state invariant

  predicate EntryOk(b: State, e: Entry)
  {
    && e.program < |b.keys|
    && e.acctOff + e.acctCnt <= |b.acctBuf|
    && e.dataOff + e.dataLen <= |b.dataBuf|
  }

  /** Ranges of an earlier entry end before those of a later one start. */
  predicate Apart(e: Entry, f: Entry)
  {
    e.acctOff + e.acctCnt <= f.acctOff && e.dataOff + e.dataLen <= f.dataOff
  }

  predicate TableOk(lim: Limits, b: State)
  {
    && |b.keys| == |b.roles| <= lim.acctMax
    && (forall i, j :: 0 <= i < j < |b.keys| ==> b.keys[i] != b.keys[j])
    && (forall i :: 0 <= i < |b.acctBuf| ==> b.acctBuf[i] < |b.keys|)
    && (b.feePayer.Some? ==>
          && b.feePayer.value in b.keys
          && forall i :: 0 <= i < |b.keys| && b.keys[i] == b.feePayer.value ==> b.roles[i] == Role(true, true))
  }

  predicate BuffersOk(lim: Limits, b: State)
  {
    && |b.entries| <= lim.instrMax && |b.acctBuf| <= lim.mtu && |b.dataBuf| <= lim.mtu
    && (forall i :: 0 <= i < |b.entries| ==> EntryOk(b, b.entries[i]))
    && (forall i, j :: 0 <= i < j < |b.entries| ==> Apart(b.entries[i], b.entries[j]))
  }

  predicate Valid(lim: Limits, b: State)
  {
    TableOk(lim, b) && BuffersOk(lim, b)
  }

  /** What a call may change: tables and buffers grow at the end, roles only widen. */
  predicate Grown(b: State, b': State)
  {
    && b.keys <= b'.keys && |b.roles| <= |b'.roles|
    && (forall i :: 0 <= i < |b.roles| ==> Wider(b.roles[i], b'.roles[i]))
    && b.acctBuf <= b'.acctBuf && b.dataBuf <= b'.dataBuf && b.entries <= b'.entries
  }

  predicate SameSettings(b: State, b': State)
  {
    b.feePayer == b'.feePayer && b.blockhash == b'.blockhash && b.version == b'.version
  }

  // ---------- what an instruction means

  /** An instruction with its accounts named by key: what the caller asked for and what a reader resolves. */
  datatype Meaning = Meaning(program: Key, accounts: seq<Key>, data: Bytes)

  function Asked(ix: Instruction): (r: Meaning)
    ensures |r.accounts| == |ix.accounts|
    ensures forall j :: 0 <= j < |r.accounts| ==> r.accounts[j] == ix.accounts[j].pubkey
  {
    Meaning(ix.program, seq(|ix.accounts|, j requires 0 <= j < |ix.accounts| => ix.accounts[j].pubkey), ix.data)
  }

  function Stored(lim: Limits, b: State, e: Entry): (r: Meaning)
    requires TableOk(lim, b) && EntryOk(b, e)
    ensures |r.accounts| == e.acctCnt
  {
    Meaning(b.keys[e.program],
            seq(e.acctCnt, j requires 0 <= j < e.acctCnt => b.keys[b.acctBuf[e.acctOff + j]]),
            b.dataBuf[e.dataOff..e.dataOff + e.dataLen])
  }

  lemma {:induction false} InternOk(lim: Limits, b: State, k: Key)
    requires Valid(lim, b) && Intern(lim, b, k).Ok?
    ensures var (b', i) := Intern(lim, b, k).value;
      && Valid(lim, b') && Grown(b, b') && SameSettings(b, b') && i < |b'.keys| && b'.keys[i] == k
      && b'.entries == b.entries && b'.acctBuf == b.acctBuf && b'.dataBuf == b.dataBuf
  {
    var (b', i) := Intern(lim, b, k).value;
    if b' != b {
      assert forall j :: 0 <= j < |b.keys| ==> b'.keys[j] == b.keys[j] && b'.keys[j] in b.keys;
      assert BuffersOk(lim, b');
    }
  }

  lemma {:induction false} GrantOk(lim: Limits, b: State, i: nat, role: Role)
    requires Valid(lim, b) && i < |b.keys|
    ensures var b' := Grant(b, i, role); Valid(lim, b') && Grown(b, b') && SameSettings(b, b')
  {
    assert BuffersOk(lim, Grant(b, i, role));
  }

  lemma {:induction false} PushOk(lim: Limits, b: State, i: nat)
    requires Valid(lim, b) && i < |b.keys| && |b.acctBuf| < lim.mtu
    ensures var b' := b.(acctBuf := b.acctBuf + [AsU8(i)]);
      Valid(lim, b') && Grown(b, b') && SameSettings(b, b') && b'.acctBuf[|b.acctBuf|] == i
  {
    var b' := b.(acctBuf := b.acctBuf + [AsU8(i)]);
    assert TableOk(lim, b');
    assert forall j :: 0 <= j < |b.entries| ==> EntryOk(b, b.entries[j]) ==> EntryOk(b', b'.entries[j]);
    assert BuffersOk(lim, b');
  }

  lemma {:induction false} GrownTrans(a: State, b: State, c: State)
    requires Grown(a, b) && Grown(b, c)
    ensures Grown(a, c)
  {
  }

  /** One accepted account of an instruction: interned, granted and pushed. */
  function AddMeta(lim: Limits, b: State, meta: AccountMeta): (r: State)
    requires |b.keys| == |b.roles| && Intern(lim, b, meta.pubkey).Ok?
    ensures |r.keys| == |r.roles|
  {
    var (b1, i) := Intern(lim, b, meta.pubkey).value;
    var b2 := Grant(b1, i, meta.role);
    b2.(acctBuf := b2.acctBuf + [AsU8(i)])
  }

  lemma {:induction false} AddMetaOk(lim: Limits, b: State, meta: AccountMeta)
    requires Valid(lim, b) && Intern(lim, b, meta.pubkey).Ok? && |b.acctBuf| < lim.mtu
    ensures var b' := AddMeta(lim, b, meta);
      && Valid(lim, b') && Grown(b, b') && SameSettings(b, b')
      && b'.entries == b.entries && b'.dataBuf == b.dataBuf && |b'.acctBuf| == |b.acctBuf| + 1
      && b'.keys[b'.acctBuf[|b.acctBuf|]] == meta.pubkey
  {
    InternOk(lim, b, meta.pubkey);
    var (b1, i) := Intern(lim, b, meta.pubkey).value;
    GrantOk(lim, b1, i, meta.role);
    var b2 := Grant(b1, i, meta.role);
    PushOk(lim, b2, i);
    GrownTrans(b, b1, b2);
    GrownTrans(b, b2, AddMeta(lim, b, meta));
  }

  /** The indices name the accounts of `metas`, in order. */
  predicate Names(keys: seq<Key>, indices: Bytes, metas: seq<AccountMeta>)
  {
    && |indices| == |metas|
    && forall j :: 0 <= j < |metas| ==> indices[j] < |keys| && keys[indices[j]] == metas[j].pubkey
  }

  lemma {:induction false} NamesCons(keys: seq<Key>, keys': seq<Key>, buf: Bytes, off: nat, metas: seq<AccountMeta>)
    requires metas != [] && keys <= keys' && off < |buf|
    requires buf[off] < |keys| && keys[buf[off]] == metas[0].pubkey
    requires Names(keys', buf[off + 1..], metas[1..])
    ensures Names(keys', buf[off..], metas)
  {
    forall j | 0 <= j < |metas|
      ensures buf[off..][j] < |keys'| && keys'[buf[off..][j]] == metas[j].pubkey
    {
      if j > 0 {
        assert metas[1..][j - 1] == metas[j] && buf[off + 1..][j - 1] == buf[off..][j];
      }
    }
  }

  lemma {:induction false} AddMetasOk(lim: Limits, b: State, metas: seq<AccountMeta>)
    requires Valid(lim, b)
    ensures var (b', error) := AddMetas(lim, b, metas);
      && Valid(lim, b') && Grown(b, b') && SameSettings(b, b')
      && b'.entries == b.entries && b'.dataBuf == b.dataBuf
      && (error.None? ==> Names(b'.keys, b'.acctBuf[|b.acctBuf|..], metas))
    decreases |metas|
  {
    if metas != [] && Intern(lim, b, metas[0].pubkey).Ok? {
      if |b.acctBuf| < lim.mtu {
        var next := AddMeta(lim, b, metas[0]);
        AddMetaOk(lim, b, metas[0]);
        AddMetasOk(lim, next, metas[1..]);
        var (b', error) := AddMetas(lim, next, metas[1..]);
        AddMetasNext(lim, b, metas);
        GrownTrans(b, next, b');
        if error.None? {
          assert b'.acctBuf[|b.acctBuf|] == next.acctBuf[|b.acctBuf|];
          NamesCons(next.keys, b'.keys, b'.acctBuf, |b.acctBuf|, metas);
        }
      } else {
        InternOk(lim, b, metas[0].pubkey);
        var (b1, i) := Intern(lim, b, metas[0].pubkey).value;
        GrantOk(lim, b1, i, metas[0].role);
        GrownTrans(b, b1, Grant(b1, i, metas[0].role));
      }
    }
  }

  lemma {:induction false} AddMetasNext(lim: Limits, b: State, metas: seq<AccountMeta>)
    requires |b.keys| == |b.roles| && metas != [] && Intern(lim, b, metas[0].pubkey).Ok? && |b.acctBuf| < lim.mtu
    ensures AddMetas(lim, b, metas) == AddMetas(lim, AddMeta(lim, b, metas[0]), metas[1..])
  {
  }

  /** Growing the state does not change what a stored entry means. */
  lemma {:induction false} StoredGrown(lim: Limits, b: State, b': State, e: Entry)
    requires TableOk(lim, b) && TableOk(lim, b') && Grown(b, b') && EntryOk(b, e)
    ensures EntryOk(b', e) && Stored(lim, b', e) == Stored(lim, b, e)
  {
    var s, s' := Stored(lim, b, e), Stored(lim, b', e);
    forall j | 0 <= j < e.acctCnt ensures s.accounts[j] == s'.accounts[j] {
      assert b'.acctBuf[e.acctOff + j] == b.acctBuf[e.acctOff + j];
    }
    assert s.data == s'.data;
  }

  /** The entry an accepted instruction adds, with its full-width fields: no narrowing lost anything. */
  lemma {:induction false} StepInstructionOk(lim: Limits, b: State, ix: Instruction)
    requires Valid(lim, b)
    ensures var (b', o) := StepInstruction(lim, b, ix);
      && Valid(lim, b') && Grown(b, b') && SameSettings(b, b') && !o.Panicked?
      && (o.Failed? ==> b'.entries == b.entries && b'.dataBuf == b.dataBuf)
      && (o.Done? ==>
            && |b'.entries| == |b.entries| + 1
            && Stored(lim, b', b'.entries[|b.entries|]) == Asked(ix)
            && b'.entries[|b.entries|].acctOff == |b.acctBuf|
            && b'.entries[|b.entries|].dataOff == |b.dataBuf|
            && |b'.acctBuf| == |b.acctBuf| + |ix.accounts|
            && b'.dataBuf == b.dataBuf + ix.data)
  {
    if |b.entries| < lim.instrMax && Intern(lim, b, ix.program).Ok? {
      InternOk(lim, b, ix.program);
      var (b1, p) := Intern(lim, b, ix.program).value;
      AddMetasOk(lim, b1, ix.accounts);
      var (b2, error) := AddMetas(lim, b1, ix.accounts);
      GrownTrans(b, b1, b2);
      if error.None? && |b2.dataBuf| + |ix.data| <= lim.mtu {
        var b3 := StepInstruction(lim, b, ix).0;
        AppendEntryOk(lim, b2, b3, p, |b1.acctBuf|, ix);
        GrownTrans(b, b2, b3);
      }
    }
  }

  lemma {:induction false} AppendEntryOk(lim: Limits, b: State, b': State, p: nat, acctOff: nat, ix: Instruction)
    requires Valid(lim, b) && p < |b.keys| && b.keys[p] == ix.program
    requires |b.entries| < lim.instrMax && |b.dataBuf| + |ix.data| <= lim.mtu
    requires acctOff <= |b.acctBuf| && Names(b.keys, b.acctBuf[acctOff..], ix.accounts)
    requires forall i :: 0 <= i < |b.entries| ==> b.entries[i].acctOff + b.entries[i].acctCnt <= acctOff
    requires b' == b.(dataBuf := b.dataBuf + ix.data, entries := b.entries
        + [Entry(AsU8(p), AsU16(acctOff), AsU16(|ix.accounts|), AsU16(|b.dataBuf|), AsU16(|ix.data|))])
    ensures Valid(lim, b') && Grown(b, b') && Stored(lim, b', b'.entries[|b.entries|]) == Asked(ix)
    ensures b'.entries[|b.entries|] == Entry(p, acctOff, |ix.accounts|, |b.dataBuf|, |ix.data|)
  {
    var e := Entry(p, acctOff, |ix.accounts|, |b.dataBuf|, |ix.data|);
    assert b'.entries[|b.entries|] == e;
    assert TableOk(lim, b') && EntryOk(b', e);
    forall i | 0 <= i < |b.entries| ensures EntryOk(b', b'.entries[i]) && Apart(b'.entries[i], e) {
      assert EntryOk(b, b.entries[i]);
    }
    assert BuffersOk(lim, b');
    forall j | 0 <= j < |ix.accounts| ensures Stored(lim, b', e).accounts[j] == ix.accounts[j].pubkey {
      assert b.acctBuf[acctOff..][j] == b.acctBuf[acctOff + j];
    }
    assert Stored(lim, b', e).accounts == Asked(ix).accounts;
    assert b'.dataBuf[|b.dataBuf|..|b.dataBuf| + |ix.data|] == ix.data;
  }

  lemma {:induction false} RequestOk(lim: Limits, b: State, k: Key, role: Role)
    requires Valid(lim, b) && Intern(lim, b, k).Ok?
    ensures var (b1, i) := Intern(lim, b, k).value;
      && i < |b1.keys| == |b1.roles| && b1.keys[i] == k
      && var b2 := Grant(b1, i, role);
      && Valid(lim, b2) && Grown(b, b2) && SameSettings(b, b2)
      && b2.entries == b.entries && b2.acctBuf == b.acctBuf && b2.dataBuf == b.dataBuf
  {
    InternOk(lim, b, k);
    var (b1, i) := Intern(lim, b, k).value;
    GrantOk(lim, b1, i, role);
    GrownTrans(b, b1, Grant(b1, i, role));
  }

  lemma {:induction false} PayerOk(lim: Limits, b: State, i: nat)
    requires Valid(lim, b) && i < |b.keys| && b.roles[i] == Role(true, true)
    ensures var b' := b.(feePayer := Some(b.keys[i])); Valid(lim, b') && Grown(b, b')
  {
    assert BuffersOk(lim, b.(feePayer := Some(b.keys[i])));
  }

  lemma {:induction false} StepValid(lim: Limits, b: State, c: Call)
    requires Valid(lim, b)
    ensures Valid(lim, Step(lim, b, c).0)
  {
    StepOk(lim, b, c);
  }

  /** Every call keeps the invariant and only grows the state; a call that did not succeed stores no instruction. */
  lemma {:induction false} StepOk(lim: Limits, b: State, c: Call)
    requires Valid(lim, b)
    ensures var (b', o) := Step(lim, b, c);
      && Valid(lim, b') && Grown(b, b')
      && (o.Panicked? <==> c.FeePayer? && FeePayerPanics(lim, b, c.key))
      && (o.Panicked? ==> b' == b)
      && (!o.Done? ==> SameSettings(b, b') && b'.entries == b.entries && b'.dataBuf == b.dataBuf)
      && (!c.AddInstruction? ==> b'.entries == b.entries && b'.acctBuf == b.acctBuf && b'.dataBuf == b.dataBuf)
  {
    match c
    case SetVersion(_) => assert BuffersOk(lim, Step(lim, b, c).0);
    case RecentBlockhash(_) => assert BuffersOk(lim, Step(lim, b, c).0);
    case FeePayer(k) =>
      if Intern(lim, b, k).Ok? {
        RequestOk(lim, b, k, Role(true, true));
        var (b1, i) := Intern(lim, b, k).value;
        PayerOk(lim, Grant(b1, i, Role(true, true)), i);
      }
    case AddSigner(k) =>
      if Intern(lim, b, k).Ok? {
        RequestOk(lim, b, k, Role(true, false));
      }
    case AddInstruction(ix) => StepInstructionOk(lim, b, ix);
  }
}
