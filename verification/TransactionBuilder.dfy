/** The builder as the program keeps it: fixed-size tables and buffers updated in place. */
module TransactionBuilder {
  import opened Common
  import opened Builder
  import opened Ordering
  import opened Compile
  import opened Writer
  import W = Wire
  import U = UnsignedTransaction
  import H = History
  import CompactU16

  class TransactionBuilder {
    const lim: Limits

    const acctKeys: array<Key>
    const acctFlags: array<Role>
    var acctCount: nat

    const instrs: array<Entry>
    var instrCount: nat

    const instrAcctBuf: array<byte>
    var instrAcctLen: nat

    const instrDataBuf: array<byte>
    var instrDataLen: nat

    var feePayer: Option<Key>
    var blockhash: Option<Key>
    var version: TxnVersion

    ghost predicate Shape()
      reads this
    {
      && acctKeys.Length == acctFlags.Length == lim.acctMax && acctCount <= lim.acctMax
      && instrs.Length == lim.instrMax && instrCount <= lim.instrMax
      && instrAcctBuf.Length == instrDataBuf.Length == lim.mtu && instrAcctBuf != instrDataBuf
      && instrAcctLen <= lim.mtu && instrDataLen <= lim.mtu
    }

    /** The filled parts of the tables, as a value. */
    ghost function Value(): (b: State)
      requires Shape()
      reads this, acctKeys, acctFlags, instrs, instrAcctBuf, instrDataBuf
      ensures |b.keys| == |b.roles|
    {
      State(acctKeys[..acctCount], acctFlags[..acctCount], instrs[..instrCount],
            instrAcctBuf[..instrAcctLen], instrDataBuf[..instrDataLen], feePayer, blockhash, version)
    }

    ghost predicate Valid()
      reads this, acctKeys, acctFlags, instrs, instrAcctBuf, instrDataBuf
    {
      Shape() && Builder.Valid(lim, Value())
    }

    constructor (lim: Limits)
      ensures Valid() && this.lim == lim && Value() == EMPTY
      ensures acctCount == 0 && instrCount == 0 && feePayer == None && blockhash == None && version == Legacy
      ensures fresh(acctKeys) && fresh(acctFlags) && fresh(instrs) && fresh(instrAcctBuf) && fresh(instrDataBuf)
    {
      this.lim := lim;
      acctKeys := new Key[lim.acctMax](_ => Zeros(32));
      acctFlags := new Role[lim.acctMax](_ => Role(false, false));
      acctCount := 0;
      instrs := new Entry[lim.instrMax](_ => Entry(0, 0, 0, 0, 0));
      instrCount := 0;
      instrAcctBuf := new byte[lim.mtu](_ => 0);
      instrAcctLen := 0;
      instrDataBuf := new byte[lim.mtu](_ => 0);
      instrDataLen := 0;
      feePayer, blockhash, version := None, None, Legacy;
    }

    method SetVersion(v: TxnVersion)
      requires Valid()
      modifies this`version
      ensures Valid() && Value() == Step(lim, old(Value()), Call.SetVersion(v)).0
    {
      version := v;
      StepValid(lim, old(Value()), Call.SetVersion(v));
    }

    method SetBlockhash(hash: Key)
      requires Valid()
      modifies this`blockhash
      ensures Valid() && Value() == Step(lim, old(Value()), RecentBlockhash(hash)).0
    {
      blockhash := Some(hash);
      StepValid(lim, old(Value()), RecentBlockhash(hash));
    }

    method FindAccount(k: Key) returns (r: Option<nat>)
      requires Shape()
      ensures r == Find(Value().keys, k)
    {
      ghost var keys := acctKeys[..acctCount];
      for i := 0 to acctCount
        invariant k !in keys[..i]
      {
        if acctKeys[i] == k {
          FindFirst(keys, k, i);
          return Some(i);
        }
        assert keys[..i + 1] == keys[..i] + [keys[i]];
      }
      assert keys[..acctCount] == keys;
      return None;
    }

    method FindOrInsert(k: Key) returns (r: Result<nat, BuildError>)
      requires Shape()
      modifies this`acctCount, acctKeys, acctFlags
      ensures Shape()
      ensures match Intern(lim, old(Value()), k)
              case Err(e) => r == Err(e) && Value() == old(Value())
              case Ok((b, i)) => r == Ok(i) && Value() == b && i < acctCount
      ensures r.Err? <==> k !in old(Value()).keys && old(acctCount) == lim.acctMax
      ensures r.Err? ==> r.error == TooManyAccounts
    {
      var found := FindAccount(k);
      if found.Some? {
        return Ok(found.value);
      }
      if acctCount >= lim.acctMax {
        return Err(TooManyAccounts);
      }
      var idx := acctCount;
      acctKeys[idx] := k;
      acctFlags[idx] := Role(false, false);
      acctCount := acctCount + 1;
      assert acctKeys[..acctCount] == old(acctKeys[..acctCount]) + [k];
      assert acctFlags[..acctCount] == old(acctFlags[..acctCount]) + [Role(false, false)];
      return Ok(idx);
    }

    /** Set flag bits on an account. */
    method Merge(i: nat, role: Role)
      requires Shape() && i < acctCount
      modifies acctFlags
      ensures Value() == Grant(old(Value()), i, role)
    {
      acctFlags[i] := Join(acctFlags[i], role);
      assert acctFlags[..acctCount] == old(acctFlags[..acctCount])[i := Join(old(acctFlags[i]), role)];
    }

    method SetFeePayer(k: Key)
      requires Valid() && !FeePayerPanics(lim, Value(), k)
      modifies this`acctCount, this`feePayer, acctKeys, acctFlags
      ensures Valid() && (Value(), Done) == Step(lim, old(Value()), FeePayer(k))
    {
      ghost var b := Value();
      var r := FindOrInsert(k);
      Merge(r.value, Role(true, true));
      feePayer := Some(k);
      StepValid(lim, b, FeePayer(k));
    }

    method AddSigner(k: Key) returns (o: Outcome)
      requires Valid()
      modifies this`acctCount, acctKeys, acctFlags
      ensures Valid() && (Value(), o) == Step(lim, old(Value()), Call.AddSigner(k))
      ensures o == H.Decision(lim, old(Value()), Call.AddSigner(k))
    {
      ghost var b := Value();
      H.StepDecided(lim, b, Call.AddSigner(k));
      StepValid(lim, b, Call.AddSigner(k));
      var r := FindOrInsert(k);
      if r.Err? {
        return Failed(r.error);
      }
      Merge(r.value, Role(true, false));
      return Done;
    }

    /** One round of the account loop. */
    method AddAccount(meta: AccountMeta) returns (error: Option<BuildError>)
      requires Shape()
      modifies this`acctCount, this`instrAcctLen, acctKeys, acctFlags, instrAcctBuf
      ensures Shape() && instrDataLen == old(instrDataLen)
      ensures error.Some? ==> (Value(), error) == AddMetas(lim, old(Value()), [meta])
      ensures error.None? ==> Intern(lim, old(Value()), meta.pubkey).Ok? && old(instrAcctLen) < lim.mtu
                              && Value() == AddMeta(lim, old(Value()), meta)
    {
      var r := FindOrInsert(meta.pubkey);
      if r.Err? {
        return Some(r.error);
      }
      Merge(r.value, meta.role);
      if instrAcctLen >= lim.mtu {
        return Some(DataTooLarge);
      }
      instrAcctBuf[instrAcctLen] := AsU8(r.value);
      instrAcctLen := instrAcctLen + 1;
      assert instrAcctBuf[..instrAcctLen] == old(instrAcctBuf[..instrAcctLen]) + [AsU8(r.value)];
      return None;
    }

    /** The account loop: it stops at the first error. */
    method AddAccounts(metas: seq<AccountMeta>) returns (error: Option<BuildError>)
      requires Shape()
      modifies this`acctCount, this`instrAcctLen, acctKeys, acctFlags, instrAcctBuf
      ensures Shape() && (Value(), error) == AddMetas(lim, old(Value()), metas)
    {
      ghost var b := Value();
      for j := 0 to |metas|
        invariant Shape()
        invariant AddMetas(lim, Value(), metas[j..]) == AddMetas(lim, b, metas)
      {
        ghost var before := Value();
        var e := AddAccount(metas[j]);
        assert metas[j..][0] == metas[j] && metas[j..][1..] == metas[j + 1..];
        if e.Some? {
          FailsAtOnce(lim, before, metas[j..]);
          return e;
        }
        AddMetasNext(lim, before, metas[j..]);
      }
      return None;
    }

    method AddInstruction(ix: Instruction) returns (o: Outcome)
      requires Valid()
      modifies this`acctCount, this`instrAcctLen, this`instrDataLen, this`instrCount
      modifies acctKeys, acctFlags, instrAcctBuf, instrDataBuf, instrs
      ensures Valid() && (Value(), o) == Step(lim, old(Value()), Call.AddInstruction(ix))
      ensures o == H.Decision(lim, old(Value()), Call.AddInstruction(ix))
    {
      ghost var b := Value();
      H.StepDecided(lim, b, Call.AddInstruction(ix));
      StepValid(lim, b, Call.AddInstruction(ix));
      if instrCount >= lim.instrMax {
        return Failed(TooManyInstructions);
      }
      var program := FindOrInsert(ix.program);
      if program.Err? {
        return Failed(program.error);
      }
      ghost var b1 := Value();
      var acctOff := instrAcctLen;
      var error := AddAccounts(ix.accounts);
      if error.Some? {
        return Failed(error.value);
      }
      if instrDataLen + |ix.data| > lim.mtu {
        return Failed(DataTooLarge);
      }
      StoreEntry(program.value, acctOff, ix);
      return Done;
    }

    /** Copy the data and append the entry that points at it. */
    method StoreEntry(program: nat, acctOff: nat, ix: Instruction)
      requires Shape() && instrCount < lim.instrMax && instrDataLen + |ix.data| <= lim.mtu
      modifies this`instrDataLen, this`instrCount, instrDataBuf, instrs
      ensures Shape()
      ensures var b := old(Value());
        var entry := Entry(AsU8(program), AsU16(acctOff), AsU16(|ix.accounts|), AsU16(|b.dataBuf|), AsU16(|ix.data|));
        Value() == b.(dataBuf := b.dataBuf + ix.data, entries := b.entries + [entry])
    {
      var dataOff := instrDataLen;
      CopyData(ix.data);
      var entry := Entry(AsU8(program), AsU16(acctOff), AsU16(|ix.accounts|), AsU16(dataOff), AsU16(|ix.data|));
      instrs[instrCount] := entry;
      instrCount := instrCount + 1;
      assert instrs[..instrCount] == old(Value()).entries + [entry];
    }

    method CopyData(data: Bytes)
      requires Shape() && instrDataLen + |data| <= lim.mtu
      modifies this`instrDataLen, instrDataBuf
      ensures Shape() && Value() == old(Value()).(dataBuf := old(Value()).dataBuf + data)
    {
      var start := instrDataLen;
      forall i | 0 <= i < |data| {
        instrDataBuf[start + i] := data[i];
      }
      instrDataLen := instrDataLen + |data|;
      assert instrDataBuf[..start] == old(instrDataBuf[..instrDataLen]);
      assert instrDataBuf[start..instrDataLen] == data;
      assert instrDataBuf[..instrDataLen] == instrDataBuf[..start] + instrDataBuf[start..instrDataLen];
    }

    // ---------- build

    /** The table indices in output order. */
    method SortAccounts(payer: nat) returns (sorted: array<nat>)
      requires Shape() && payer < acctCount
      ensures fresh(sorted) && sorted[..] == Order(Value().roles, payer, acctCount)
    {
      sorted := new nat[acctCount](i => i);
      SortIndices(acctFlags[..acctCount], payer, sorted);
    }

    /** The inverse of the order: where each table index went. */
    method InvertOrder(payer: nat, sorted: array<nat>) returns (remap: array<byte>)
      requires Shape() && sorted[..] == Order(Value().roles, payer, acctCount)
      ensures fresh(remap) && remap.Length == lim.acctMax
      ensures forall x: nat :: x < acctCount ==> remap[x] == AsU8(IndexOf(sorted[..], x))
    {
      ghost var roles, s := Value().roles, sorted[..];
      RemapInverts(roles, payer, acctCount);
      OrderIsOrder(roles, payer, acctCount);
      remap := new byte[lim.acctMax](_ => 0);
      for i := 0 to acctCount
        invariant forall j :: 0 <= j < i ==> remap[s[j]] == AsU8(j)
        invariant sorted[..] == s
      {
        assert s[i] == sorted[i];
        remap[sorted[i]] := AsU8(i);
        assert forall j :: 0 <= j < i ==> IndexOf(s, s[j]) == j;
      }
      forall x: nat | x < acctCount ensures remap[x] == AsU8(IndexOf(s, x)) {
        assert x in s;
        assert s[IndexOf(s, x)] == x;
      }
    }

    /** The three header counts; none of the byte counters can overflow. */
    method CountRoles(sorted: array<nat>) returns (header: W.Header)
      requires Shape() && sorted.Length == acctCount && Indices(Value().roles, sorted[..])
      ensures header == CompileHeader(Value().roles, sorted[..])
    {
      ghost var c := Classes(Value().roles, sorted[..]);
      assert forall i :: 0 <= i < sorted.Length ==> sorted[i] < acctCount && c[i] == SortKey(acctFlags[sorted[i]]);
      header := CountClasses(sorted, c);
    }

    method CountClasses(sorted: array<nat>, ghost c: seq<nat>) returns (header: W.Header)
      requires |c| == sorted.Length <= 0xff
      requires forall i :: 0 <= i < sorted.Length ==>
                 sorted[i] < acctFlags.Length && c[i] == SortKey(acctFlags[sorted[i]])
      ensures header == W.Header(Count(c, 0, 1), Count(c, 1, 1), Count(c, 3, 3))
    {
      var sigCount: byte, readonlySigned: byte, readonlyUnsigned: byte := 0, 0, 0;
      for i := 0 to sorted.Length
        invariant sigCount == Count(c[..i], 0, 1)
        invariant readonlySigned == Count(c[..i], 1, 1)
        invariant readonlyUnsigned == Count(c[..i], 3, 3)
      {
        var f := acctFlags[sorted[i]];
        assert c[i] == SortKey(f);
        CountNext(c, i, 0, 1);
        CountNext(c, i, 1, 1);
        CountNext(c, i, 3, 3);
        if f.signer {
          sigCount := sigCount + 1;
          if !f.writable {
            readonlySigned := readonlySigned + 1;
          }
        } else if !f.writable {
          readonlyUnsigned := readonlyUnsigned + 1;
        }
      }
      assert c[..sorted.Length] == c;
      return W.Header(sigCount, readonlySigned, readonlyUnsigned);
    }

    /** The account keys in output order, then the blockhash and the instruction count. */
    method WriteKeys(buf: array<byte>, start: nat, sorted: array<nat>, ghost ps: seq<Piece>, ghost h: nat)
      returns (ok: bool, off: nat)
      requires Shape() && blockhash.Some? && Indices(Value().roles, sorted[..])
      requires KeysAt(ps, h, CompileKeys(Value(), sorted[..]), blockhash.value, AsU16(instrCount))
      requires Written(buf, start, ps, h) && buf != instrAcctBuf && buf != instrDataBuf
      modifies buf
      ensures ok ==> Written(buf, off, ps, h + sorted.Length + 2)
      ensures !ok ==> !Fits(buf.Length, 0, ps)
    {
      ghost var keys := CompileKeys(Value(), sorted[..]);
      off := start;
      for i := 0 to sorted.Length
        invariant Written(buf, off, ps, h + i)
      {
        assert ps[h + i] == ps[h..][i] && sorted[i] == sorted[..][i];
        assert acctKeys[sorted[i]] == keys[i];
        ok, off := WriteBytes(buf, off, acctKeys[sorted[i]], ps, h + i);
        if !ok { return; }
      }
      ok, off := WriteBytes(buf, off, blockhash.value, ps, h + sorted.Length);
      if !ok { return; }
      ok, off := WriteCu16(buf, off, AsU16(instrCount), ps, h + sorted.Length + 1);
    }

    /** Part of the account buffer with every index looked up in the remap table. */
    method RemapRange(start: nat, end: nat, remap: array<byte>, ghost s: seq<nat>) returns (accounts: Bytes)
      requires start <= end <= instrAcctBuf.Length
      requires forall j :: start <= j < end ==>
                 instrAcctBuf[j] < remap.Length && remap[instrAcctBuf[j]] == AsU8(IndexOf(s, instrAcctBuf[j]))
      ensures accounts == CompileAccounts(instrAcctBuf[start..end], s)
    {
      accounts := [];
      ghost var slice := instrAcctBuf[start..end];
      for j := start to end
        invariant accounts == CompileAccounts(slice, s)[..j - start]
      {
        assert slice[j - start] == instrAcctBuf[j];
        accounts := accounts + [remap[instrAcctBuf[j]]];
      }
    }

    /** Entry `i` with its program and accounts remapped. */
    method RemapEntry(i: nat, remap: array<byte>, ghost s: seq<nat>) returns (ix: W.Instr)
      requires Shape() && i < instrCount && EntryOk(Value(), instrs[i]) && TableOk(lim, Value())
      requires remap.Length == lim.acctMax && forall x: nat :: x < acctCount ==> remap[x] == AsU8(IndexOf(s, x))
      ensures ix == CompileEntry(Value(), s, instrs[i])
    {
      var e := instrs[i];
      ghost var b := Value();
      var start: nat, end: nat := e.acctOff, e.acctOff + e.acctCnt;
      assert forall j :: start <= j < end ==> instrAcctBuf[j] == b.acctBuf[j];
      var accounts := RemapRange(start, end, remap, s);
      assert instrAcctBuf[start..end] == b.acctBuf[start..end];
      var data := instrDataBuf[e.dataOff..e.dataOff + e.dataLen];
      assert data == b.dataBuf[e.dataOff..e.dataOff + e.dataLen];
      return W.Instr(remap[e.program], accounts, data);
    }

    method WriteInstructions(
      buf: array<byte>, start: nat, remap: array<byte>, ghost s: seq<nat>, ghost ps: seq<Piece>, ghost k: nat)
      returns (ok: bool, off: nat)
      requires Valid()
      requires remap.Length == lim.acctMax && forall x: nat :: x < acctCount ==> remap[x] == AsU8(IndexOf(s, x))
      requires InstrsAt(ps, k, CompileEntries(Value(), s)) && TailAt(ps, k + 5 * instrCount, version.V0?)
      requires Written(buf, start, ps, k) && buf != instrAcctBuf && buf != instrDataBuf && buf != remap
      modifies buf
      ensures ok ==> Written(buf, off, ps, |ps|)
      ensures !ok ==> !Fits(buf.Length, 0, ps)
    {
      ghost var b := Value();
      ok, off := true, start;
      for i := 0 to instrCount
        invariant ok && Written(buf, off, ps, k + 5 * i)
        invariant Value() == b && forall x: nat :: x < acctCount ==> remap[x] == AsU8(IndexOf(s, x))
      {
        assert b.entries[i] == instrs[i] && EntryOk(b, b.entries[i]);
        var ix := RemapEntry(i, remap, s);
        assert ix == CompileEntries(b, s)[i];
        ok, off := WriteInstr(buf, off, ix, ps, k + 5 * i);
        if !ok { return; }
      }
      if version == V0 {
        ok, off := WriteCu16(buf, off, 0, ps, k + 5 * instrCount);
      }
    }

    /** Everything after the header: keys, blockhash, instructions and the empty lookup list. */
    method EmitBody(
      buf: array<byte>, start: nat, sorted: array<nat>, remap: array<byte>, ghost ps: seq<Piece>, ghost h: nat)
      returns (ok: bool, len: nat)
      requires Valid() && blockhash.Some? && Indices(Value().roles, sorted[..])
      requires KeysAt(ps, h, CompileKeys(Value(), sorted[..]), blockhash.value, AsU16(instrCount))
      requires InstrsAt(ps, h + sorted.Length + 2, CompileEntries(Value(), sorted[..]))
      requires TailAt(ps, h + sorted.Length + 2 + 5 * instrCount, version.V0?)
      requires remap.Length == lim.acctMax
      requires forall x: nat :: x < acctCount ==> remap[x] == AsU8(IndexOf(sorted[..], x))
      requires Written(buf, start, ps, h) && buf != instrAcctBuf && buf != instrDataBuf && buf != remap
      modifies buf
      ensures ok <==> Fits(buf.Length, 0, ps)
      ensures ok ==> len <= buf.Length && buf[..len] == Flat(ps)
    {
      ghost var b := Value();
      ok, len := WriteKeys(buf, start, sorted, ps, h);
      if !ok { return; }
      assert Value() == b;
      ok, len := WriteInstructions(buf, len, remap, sorted[..], ps, h + sorted.Length + 2);
      assert ps[..|ps|] == ps;
    }

    /** Everything `build` writes, from the signature count to the last instruction. */
    method Emit(buf: array<byte>, sorted: array<nat>, remap: array<byte>, header: W.Header, ghost ps: seq<Piece>)
      returns (ok: bool, len: nat, sigOff: nat, messageOff: nat)
      requires Valid() && blockhash.Some? && Indices(Value().roles, sorted[..]) && sorted.Length == acctCount
      requires PlanAt(ps, version.V0?, header, CompileKeys(Value(), sorted[..]), blockhash.value,
                      CompileEntries(Value(), sorted[..]))
      requires remap.Length == lim.acctMax
      requires forall x: nat :: x < acctCount ==> remap[x] == AsU8(IndexOf(sorted[..], x))
      requires buf != instrAcctBuf && buf != instrDataBuf && buf != remap
      requires forall i :: 0 <= i < buf.Length ==> buf[i] == 0
      modifies buf
      ensures ok <==> Fits(buf.Length, 0, ps)
      ensures ok ==> len <= buf.Length && buf[..len] == Flat(ps)
      ensures ok ==> sigOff == CompactU16.EncodedSize(header.sigCount) && messageOff == sigOff + 64 * header.sigCount
    {
      ghost var b := Value();
      assert ps[..0] == [];
      ok, len, sigOff, messageOff := WriteHead(buf, version.V0?, header, AsU16(acctCount), ps);
      if !ok { return; }
      assert Value() == b;
      ok, len := EmitBody(buf, len, sorted, remap, ps, HeadCount(version.V0?));
    }

    /** Sort, count and serialise, once the payer is known. */
    method Assemble(payer: nat, ghost s: seq<nat>, ghost header: W.Header, ghost ps: seq<Piece>)
      returns (r: Result<U.UnsignedTransaction, BuildError>)
      requires Valid() && blockhash.Some? && payer < acctCount
      requires s == Order(Value().roles, payer, acctCount) && header == CompileHeader(Value().roles, s)
      requires PlanAt(ps, version.V0?, header, CompileKeys(Value(), s), blockhash.value, CompileEntries(Value(), s))
      ensures
        if header.sigCount == 0 || header.sigCount > lim.sigMax then r == Err(TooManySigners)
        else if !Fits(lim.mtu, 0, ps) then r == Err(TransactionTooLarge)
        else
          && r.Ok? && fresh(r.value) && fresh(r.value.buf)
          && r.value.len <= r.value.buf.Length && r.value.buf[..r.value.len] == Flat(ps)
          && r.value.sigCount == header.sigCount && r.value.sigOff == CompactU16.EncodedSize(header.sigCount)
          && r.value.messageOff == r.value.sigOff + 64 * header.sigCount
    {
      ghost var b := Value();
      var sorted := SortAccounts(payer);
      var remap := InvertOrder(payer, sorted);
      var h := CountRoles(sorted);
      if h.sigCount == 0 || h.sigCount > lim.sigMax {
        return Err(TooManySigners);
      }
      var buf := new byte[lim.mtu](_ => 0);
      assert Value() == b && sorted[..] == s;
      var ok, len, sigOff, messageOff := Emit(buf, sorted, remap, h, ps);
      if !ok {
        return Err(TransactionTooLarge);
      }
      var u := new U.UnsignedTransaction(buf, len, h.sigCount, sigOff, messageOff);
      return Ok(u);
    }

    /** Assemble the transaction and read the answer as one about the compiled transaction. */
    method Serialise(payer: nat) returns (r: Result<U.UnsignedTransaction, BuildError>)
      requires Shape() && Ready(lim, Value()) && instrCount > 0 && payer == Payer(lim, Value())
      ensures match BuildResult(lim, Value())
              case Err(e) => r == Err(e)
              case Ok(t) => r.Ok? && fresh(r.value) && fresh(r.value.buf) && r.value.Represents(t)
    {
      ghost var s, header, ps, t := PlanOf(lim, Value());
      r := Assemble(payer, s, header, ps);
    }

    /**
      The bytes of the compiled transaction, or the first error. `validate` stands for the parser that
      has the last word.
     */
    method Build(validate: Bytes -> bool) returns (r: Result<U.UnsignedTransaction, BuildError>)
      requires Valid()
      ensures match BuildResult(lim, Value())
              case Err(e) => r == Err(e)
              case Ok(t) =>
                if validate(W.TxnBytes(t)) then r.Ok? && fresh(r.value) && fresh(r.value.buf) && r.value.Represents(t)
                else r == Err(ValidationFailed)
    {
      if feePayer.None? {
        return Err(NoFeePayer);
      }
      if blockhash.None? {
        return Err(NoBlockhash);
      }
      if instrCount == 0 {
        return Err(NoInstructions);
      }
      var payer := FindAccount(feePayer.value);
      if payer.None? {
        assert false;
      }
      r := Serialise(payer.value);
      if r.Ok? {
        var bytes := r.value.AsBytes();
        if !validate(bytes) {
          return Err(ValidationFailed);
        }
      }
    }
  }

  /** What `Assemble` needs to know of the compiled transaction, and what its answer then means. */
  lemma {:induction false} PlanOf(lim: Limits, b: State)
    returns (s: seq<nat>, header: W.Header, ps: seq<Piece>, t: W.Txn)
    requires Ready(lim, b) && b.entries != []
    ensures s == Order(b.roles, Payer(lim, b), |b.keys|) && header == CompileHeader(b.roles, s)
    ensures PlanAt(ps, b.version.V0?, header, CompileKeys(b, s), b.blockhash.value, CompileEntries(b, s))
    ensures Flat(ps) == W.TxnBytes(t) && |t.signatures| == header.sigCount
    ensures BuildResult(lim, b) ==
      if header.sigCount == 0 || header.sigCount > lim.sigMax then Err(TooManySigners)
      else if !Fits(lim.mtu, 0, ps) then Err(TransactionTooLarge)
      else Ok(t)
  {
    t := CompileTxn(lim, b);
    s, header, ps := Layout(lim, b), t.message.header, TxnPieces(t);
    LaidOut(t);
    PiecesPrint(t);
  }

  lemma {:induction false} FindFirst(keys: seq<Key>, k: Key, i: nat)
    requires i < |keys| && keys[i] == k && k !in keys[..i]
    ensures Find(keys, k) == Some(i)
  {
    if i > 0 {
      assert keys[0] in keys[..i];
      assert keys[1..][..i - 1] == keys[..i][1..];
      FindFirst(keys[1..], k, i - 1);
    }
  }

  /** When the first account already fails, the rest of the list plays no part. */
  lemma {:induction false} FailsAtOnce(lim: Limits, b: State, metas: seq<AccountMeta>)
    requires |b.keys| == |b.roles| && metas != [] && AddMetas(lim, b, metas[..1]).1.Some?
    ensures AddMetas(lim, b, metas) == AddMetas(lim, b, metas[..1])
  {
  }
}
