/**
  What `build` emits, as a value: the message compiled from a builder state, what a reader of that
  message recovers, and exactly when the serialised form fits the size limit.
 */
module Compile {
  import opened Common
  import opened Builder
  import opened Ordering
  import opened Codec
  import W = Wire
  import CompactU16

  /** Nothing `build` checks before compiling is missing. */
  predicate Ready(lim: Limits, b: State)
  {
    Valid(lim, b) && b.feePayer.Some? && b.blockhash.Some?
  }

  function Payer(lim: Limits, b: State): (r: nat)
    requires Ready(lim, b)
    ensures r < |b.keys| && b.keys[r] == b.feePayer.value && b.roles[r] == Role(true, true)
  {
    Find(b.keys, b.feePayer.value).value
  }

  function Layout(lim: Limits, b: State): (r: seq<nat>)
    requires Ready(lim, b)
    ensures |r| == |b.keys| && Indices(b.roles, r)
  {
    Order(b.roles, Payer(lim, b), |b.keys|)
  }

  // ---------- compilation

  function CompileHeader(roles: seq<Role>, s: seq<nat>): (r: W.Header)
    requires Indices(roles, s)
  {
    var c := Classes(roles, s);
    W.Header(AsU8(Count(c, 0, 1)), AsU8(Count(c, 1, 1)), AsU8(Count(c, 3, 3)))
  }

  function CompileKeys(b: State, s: seq<nat>): (r: seq<Key>)
    requires |b.keys| == |b.roles| && Indices(b.roles, s)
    ensures |r| == |s| && forall i :: 0 <= i < |s| ==> r[i] == b.keys[s[i]]
  {
    seq(|s|, i requires 0 <= i < |s| => b.keys[s[i]])
  }

  /** The accounts of an entry, each index replaced by its position in the order. */
  function CompileAccounts(buf: Bytes, s: seq<nat>): (r: Bytes)
    ensures |r| == |buf| && forall i :: 0 <= i < |buf| ==> r[i] == AsU8(IndexOf(s, buf[i]))
  {
    seq(|buf|, i requires 0 <= i < |buf| => AsU8(IndexOf(s, buf[i])))
  }

  function CompileEntry(b: State, s: seq<nat>, e: Entry): (r: W.Instr)
    requires EntryOk(b, e)
  {
    W.Instr(AsU8(IndexOf(s, e.program)),
            CompileAccounts(b.acctBuf[e.acctOff..e.acctOff + e.acctCnt], s),
            b.dataBuf[e.dataOff..e.dataOff + e.dataLen])
  }

  function CompileEntries(b: State, s: seq<nat>): (r: seq<W.Instr>)
    requires forall i :: 0 <= i < |b.entries| ==> EntryOk(b, b.entries[i])
    ensures |r| == |b.entries| && forall i :: 0 <= i < |r| ==> r[i] == CompileEntry(b, s, b.entries[i])
  {
    seq(|b.entries|, i requires 0 <= i < |b.entries| => CompileEntry(b, s, b.entries[i]))
  }

  function CompileVersion(v: TxnVersion): (r: W.Version)
  {
    match v
    case Legacy => W.Legacy
    case V0 => W.V0([])
  }

  /** All-zero signature slots. */
  function EmptySlots(n: nat): (r: seq<Signature>)
    ensures |r| == n && forall i :: 0 <= i < n ==> r[i] == Zeros(64)
  {
    seq(n, _ => Zeros(64))
  }

  function CompileTxn(lim: Limits, b: State): (r: W.Txn)
    requires Ready(lim, b)
  {
    var s := Layout(lim, b);
    var header := CompileHeader(b.roles, s);
    W.Txn(EmptySlots(header.sigCount),
          W.Message(CompileVersion(b.version), header, CompileKeys(b, s), b.blockhash.value, CompileEntries(b, s)))
  }

  // ---------- what a reader recovers

  /** Account indices of a parsed instruction all name an account of the message. */
  predicate Resolvable(m: W.Message, ix: W.Instr)
  {
    ix.program < |m.keys| && forall j :: 0 <= j < |ix.accounts| ==> ix.accounts[j] < |m.keys|
  }

  /** The addresses and data a parsed instruction gives access to. */
  function Resolve(m: W.Message, ix: W.Instr): (r: Meaning)
    requires Resolvable(m, ix)
    ensures |r.accounts| == |ix.accounts|
  {
    Meaning(m.keys[ix.program],
            seq(|ix.accounts|, j requires 0 <= j < |ix.accounts| => m.keys[ix.accounts[j]]),
            ix.data)
  }

  /** Remapping an index through the order keeps the key it denotes, and the narrowing is lossless. */
  lemma {:induction false} RemapKeepsKey(lim: Limits, b: State, x: nat)
    requires Ready(lim, b) && x < |b.keys|
    ensures var s := Layout(lim, b);
      var y := AsU8(IndexOf(s, x));
      y == IndexOf(s, x) && y < |b.keys| && CompileKeys(b, s)[y] == b.keys[x]
  {
    RemapInverts(b.roles, Payer(lim, b), |b.keys|);
    OrderIsOrder(b.roles, Payer(lim, b), |b.keys|);
  }

  lemma {:induction false} RemapKeepsKeys(lim: Limits, b: State, slice: Bytes)
    requires Ready(lim, b) && forall j :: 0 <= j < |slice| ==> slice[j] < |b.keys|
    ensures var s := Layout(lim, b);
      var r := CompileAccounts(slice, s);
      forall j :: 0 <= j < |slice| ==> r[j] < |b.keys| && CompileKeys(b, s)[r[j]] == b.keys[slice[j]]
  {
    forall j | 0 <= j < |slice|
      ensures var r := CompileAccounts(slice, Layout(lim, b));
        r[j] < |b.keys| && CompileKeys(b, Layout(lim, b))[r[j]] == b.keys[slice[j]]
    {
      RemapKeepsKey(lim, b, slice[j]);
    }
  }

  lemma {:induction false} ResolveIs(m: W.Message, ix: W.Instr, x: Meaning)
    requires ix.program < |m.keys| && m.keys[ix.program] == x.program
    requires |ix.accounts| == |x.accounts| && ix.data == x.data
    requires forall j :: 0 <= j < |ix.accounts| ==> ix.accounts[j] < |m.keys| && m.keys[ix.accounts[j]] == x.accounts[j]
    ensures Resolvable(m, ix) && Resolve(m, ix) == x
  {
    assert Resolve(m, ix).accounts == x.accounts;
  }

  /** Compiling an entry and resolving it against the compiled keys gives what the entry stored. */
  lemma {:induction false} EntryMeaningKept(lim: Limits, b: State, e: Entry)
    requires Ready(lim, b) && EntryOk(b, e)
    ensures var m := CompileTxn(lim, b).message;
      var ix := CompileEntry(b, Layout(lim, b), e);
      Resolvable(m, ix) && Resolve(m, ix) == Stored(lim, b, e)
  {
    EntryMeaningIn(lim, b, e, CompileTxn(lim, b).message);
  }

  lemma {:induction false} EntryMeaningIn(lim: Limits, b: State, e: Entry, m: W.Message)
    requires Ready(lim, b) && EntryOk(b, e) && m.keys == CompileKeys(b, Layout(lim, b))
    ensures var ix := CompileEntry(b, Layout(lim, b), e); Resolvable(m, ix) && Resolve(m, ix) == Stored(lim, b, e)
  {
    RemapKeepsKey(lim, b, e.program);
    AccountsMeaning(lim, b, e);
    ResolveIs(m, CompileEntry(b, Layout(lim, b), e), Stored(lim, b, e));
  }

  lemma {:induction false} AccountsMeaning(lim: Limits, b: State, e: Entry)
    requires Ready(lim, b) && EntryOk(b, e)
    ensures var ix, keys := CompileEntry(b, Layout(lim, b), e), CompileKeys(b, Layout(lim, b));
      |ix.accounts| == e.acctCnt && forall j :: 0 <= j < e.acctCnt ==>
        ix.accounts[j] < |keys| && keys[ix.accounts[j]] == Stored(lim, b, e).accounts[j]
  {
    var slice := b.acctBuf[e.acctOff..e.acctOff + e.acctCnt];
    SliceNames(lim, b, e, slice);
    RemapKeepsKeys(lim, b, slice);
  }

  lemma {:induction false} SliceNames(lim: Limits, b: State, e: Entry, slice: Bytes)
    requires TableOk(lim, b) && EntryOk(b, e) && slice == b.acctBuf[e.acctOff..e.acctOff + e.acctCnt]
    ensures forall j :: 0 <= j < |slice| ==> slice[j] < |b.keys| && Stored(lim, b, e).accounts[j] == b.keys[slice[j]]
  {
    assert forall j :: 0 <= j < |slice| ==> slice[j] == b.acctBuf[e.acctOff + j];
  }

  /** Where the class boundaries fall in a non-decreasing sequence of the four classes. */
  lemma {:induction false} CountsPlace(c: seq<nat>, i: nat)
    requires NonDecreasing(c) && i < |c| && forall j :: 0 <= j < |c| ==> c[j] < 4
    ensures i < Count(c, 0, 1) <==> c[i] <= 1
    ensures i < Count(c, 0, 1) - Count(c, 1, 1) || Count(c, 0, 1) <= i < |c| - Count(c, 3, 3) <==> c[i] % 2 == 0
  {
    CountIsPosition(c, 0);
    CountIsPosition(c, 1);
    CountIsPosition(c, 2);
    CountAll(c, 3);
    CountSplit(c, 1, 1);
    CountSplit(c, 3, 3);
  }

  lemma {:induction false} RoleAt(m: W.Message, c: seq<nat>, role: Role, i: nat)
    requires NonDecreasing(c) && (forall j :: 0 <= j < |c| ==> c[j] < 4)
    requires i < |m.keys| == |c| <= 0xff && c[i] == SortKey(role)
    requires m.header == W.Header(Count(c, 0, 1), Count(c, 1, 1), Count(c, 3, 3))
    ensures W.IsSigner(m, i) == role.signer && W.IsWritable(m, i) == role.writable
  {
    CountsPlace(c, i);
  }

  lemma {:induction false} HeaderPlaces(roles: seq<Role>, s: seq<nat>, m: W.Message)
    requires Indices(roles, s) && 0 < |s| <= 0xff && SortKey(roles[s[0]]) == 0 && NonDecreasing(Classes(roles, s))
    requires m.header == CompileHeader(roles, s) && |m.keys| == |s|
    ensures m.header.sigCount >= 1
    ensures forall i :: 0 <= i < |m.keys| ==>
      W.IsSigner(m, i) == roles[s[i]].signer && W.IsWritable(m, i) == roles[s[i]].writable
  {
    var c := Classes(roles, s);
    RolesAt(m, c, roles, s);
    CountsPlace(c, 0);
  }

  lemma {:induction false} RolesAt(m: W.Message, c: seq<nat>, roles: seq<Role>, s: seq<nat>)
    requires Indices(roles, s) && c == Classes(roles, s) && NonDecreasing(c) && |m.keys| == |s| <= 0xff
    requires m.header == W.Header(Count(c, 0, 1), Count(c, 1, 1), Count(c, 3, 3))
    ensures forall i :: 0 <= i < |m.keys| ==>
      W.IsSigner(m, i) == roles[s[i]].signer && W.IsWritable(m, i) == roles[s[i]].writable
  {
    forall i | 0 <= i < |m.keys|
      ensures W.IsSigner(m, i) == roles[s[i]].signer && W.IsWritable(m, i) == roles[s[i]].writable
    {
      RoleAt(m, c, roles[s[i]], i);
    }
  }

  /** The three header counts recover every account's flags from its position alone. */
  lemma {:induction false} HeaderRecoversRoles(lim: Limits, b: State)
    requires Ready(lim, b)
    ensures var m := CompileTxn(lim, b).message;
      var s := Layout(lim, b);
      && m.keys[0] == b.feePayer.value && m.header.sigCount >= 1
      && forall i :: 0 <= i < |m.keys| ==>
           W.IsSigner(m, i) == b.roles[s[i]].signer && W.IsWritable(m, i) == b.roles[s[i]].writable
  {
    var m := CompileTxn(lim, b).message;
    var s := Layout(lim, b);
    assert m.header == CompileHeader(b.roles, s) && |m.keys| == |s|;
    ClassesInOrder(b.roles, Payer(lim, b), |b.keys|);
    HeaderPlaces(b.roles, s, m);
  }

  /** Every key of the table occurs in the compiled message exactly once, at the position the order gives it. */
  lemma {:induction false} KeysPermuted(lim: Limits, b: State)
    requires Ready(lim, b)
    ensures var m := CompileTxn(lim, b).message;
      && |m.keys| == |b.keys|
      && (forall k :: k in m.keys <==> k in b.keys)
      && (forall i, j :: 0 <= i < j < |m.keys| ==> m.keys[i] != m.keys[j])
  {
    var m := CompileTxn(lim, b).message;
    var s := Layout(lim, b);
    OrderIsOrder(b.roles, Payer(lim, b), |b.keys|);
    AscendingDistinct(b.roles, Payer(lim, b), s);
    forall k | k in b.keys ensures k in m.keys {
      var x :| 0 <= x < |b.keys| && b.keys[x] == k;
      RemapKeepsKey(lim, b, x);
      assert m.keys[IndexOf(s, x)] == k;
    }
    forall i, j | 0 <= i < j < |m.keys| ensures m.keys[i] != m.keys[j] {
      assert s[i] != s[j];
    }
  }

  // ---------- the serialised form as the pieces `build` writes

  /** One bounds check and the write it guards: a compact-u16, or bytes of known length. */
  datatype Piece = Cu(value: u16) | Raw(bytes: Bytes)

  function PieceBytes(p: Piece): (r: Bytes)
  {
    match p
    case Cu(v) => CompactU16.Encode(v)
    case Raw(bs) => bs
  }

  /** What the bounds check asks for: three bytes for any compact-u16, however short its encoding. */
  function Need(p: Piece): (r: nat)
  {
    match p
    case Cu(_) => 3
    case Raw(bs) => |bs|
  }

  /** Every bounds check succeeds when the pieces are written from `off` on. */
  predicate Fits(mtu: nat, off: nat, ps: seq<Piece>)
    decreases |ps|
  {
    ps != [] ==> off + Need(ps[0]) <= mtu && Fits(mtu, off + |PieceBytes(ps[0])|, ps[1..])
  }

  function KeyPieces(ks: seq<Key>): (r: seq<Piece>)
    ensures |r| == |ks| && forall i :: 0 <= i < |ks| ==> r[i] == Raw(ks[i])
  {
    seq(|ks|, i requires 0 <= i < |ks| => Raw(ks[i]))
  }

  function InstrPieces(ix: W.Instr): (r: seq<Piece>)
  {
    [Raw([ix.program]), Cu(|ix.accounts|), Raw(ix.accounts), Cu(|ix.data|), Raw(ix.data)]
  }

  function InstrsPieces(ixs: seq<W.Instr>): (r: seq<Piece>)
  {
    if ixs == [] then [] else InstrsPieces(ixs[..|ixs| - 1]) + InstrPieces(ixs[|ixs| - 1])
  }

  function HeadPieces(t: W.Txn): (r: seq<Piece>)
  {
    [Cu(|t.signatures|), Raw(Concat(t.signatures, SignatureBytes))]
    + (if t.message.version.V0? then [Raw([0x80])] else [])
    + [Raw(W.HeaderBytes(t.message.header)), Cu(|t.message.keys|)]
  }

  function TailPieces(v: W.Version): (r: seq<Piece>)
  {
    if v.V0? then [Cu(0)] else []
  }

  function TxnPieces(t: W.Txn): (r: seq<Piece>)
  {
    HeadPieces(t) + KeyPieces(t.message.keys) + [Raw(t.message.blockhash), Cu(|t.message.instrs|)]
    + InstrsPieces(t.message.instrs) + TailPieces(t.message.version)
  }

  function Flat(ps: seq<Piece>): (r: Bytes)
  {
    Concat(ps, PieceBytes)
  }

  lemma {:induction false} FlatAppend(ps: seq<Piece>, qs: seq<Piece>)
    ensures Flat(ps + qs) == Flat(ps) + Flat(qs)
  {
    ConcatAppend(ps, qs, PieceBytes);
  }

  lemma {:induction false} FlatOne(p: Piece)
    ensures Flat([p]) == PieceBytes(p)
  {
    assert Concat([p], PieceBytes) == PieceBytes(p) + Concat([p][1..], PieceBytes);
  }

  lemma {:induction false} FlatTwo(p: Piece, q: Piece)
    ensures Flat([p, q]) == PieceBytes(p) + PieceBytes(q)
  {
    assert [p, q] == [p] + [q];
    FlatAppend([p], [q]);
    FlatOne(p);
    FlatOne(q);
  }

  lemma {:induction false} FlatKeys(ks: seq<Key>)
    ensures Flat(KeyPieces(ks)) == Concat(ks, KeyBytes)
  {
    if ks != [] {
      FlatKeys(ks[1..]);
      assert KeyPieces(ks)[1..] == KeyPieces(ks[1..]);
      assert KeyPieces(ks)[0] == Raw(ks[0]);
    }
  }

  lemma {:induction false} FlatInstr(ix: W.Instr)
    ensures Flat(InstrPieces(ix)) == W.InstrBytes(ix)
  {
    var ps := InstrPieces(ix);
    assert ps == [ps[0]] + ([ps[1], ps[2]] + [ps[3], ps[4]]);
    FlatAppend([ps[0]], [ps[1], ps[2]] + [ps[3], ps[4]]);
    FlatAppend([ps[1], ps[2]], [ps[3], ps[4]]);
    FlatOne(ps[0]);
    FlatTwo(ps[1], ps[2]);
    FlatTwo(ps[3], ps[4]);
    Regroup([ix.program], VecBytes(ix.accounts), VecBytes(ix.data), []);
  }

  lemma {:induction false} FlatInstrs(ixs: seq<W.Instr>)
    ensures Flat(InstrsPieces(ixs)) == Concat(ixs, W.InstrBytes)
  {
    if ixs != [] {
      var front, last := ixs[..|ixs| - 1], ixs[|ixs| - 1];
      FlatInstrs(front);
      FlatAppend(InstrsPieces(front), InstrPieces(last));
      FlatInstr(last);
      ConcatAppend(front, [last], W.InstrBytes);
      assert Concat([last], W.InstrBytes) == W.InstrBytes(last) + Concat([last][1..], W.InstrBytes);
      assert front + [last] == ixs;
    }
  }

  lemma {:induction false} FlatHead(t: W.Txn)
    ensures Flat(HeadPieces(t)) == W.ManyBytes(t.signatures, SignatureBytes) + W.VersionTag(t.message.version)
              + (W.HeaderBytes(t.message.header) + CompactU16.Encode(|t.message.keys|))
  {
    var a := [Cu(|t.signatures|), Raw(Concat(t.signatures, SignatureBytes))];
    var v := if t.message.version.V0? then [Raw([0x80])] else [];
    var h := [Raw(W.HeaderBytes(t.message.header)), Cu(|t.message.keys|)];
    FlatAppend(a + v, h);
    FlatAppend(a, v);
    FlatTwo(a[0], a[1]);
    FlatTwo(h[0], h[1]);
    assert Flat(v) == W.VersionTag(t.message.version) by {
      FlatOne(Raw([0x80]));
    }
  }

  /** The pieces, one after the other, are the printed transaction. */
  lemma {:induction false} PiecesPrint(t: W.Txn)
    requires t.message.version.V0? ==> t.message.version.lookups == []
    ensures Flat(TxnPieces(t)) == W.TxnBytes(t)
  {
    var m := t.message;
    var middle := [Raw(m.blockhash), Cu(|m.instrs|)];
    var instrs, tail := InstrsPieces(m.instrs), TailPieces(m.version);
    FlatAppend(HeadPieces(t) + KeyPieces(m.keys) + middle + instrs, tail);
    FlatAppend(HeadPieces(t) + KeyPieces(m.keys) + middle, instrs);
    FlatAppend(HeadPieces(t) + KeyPieces(m.keys), middle);
    FlatAppend(HeadPieces(t), KeyPieces(m.keys));
    FlatHead(t);
    FlatKeys(m.keys);
    FlatTwo(middle[0], middle[1]);
    FlatInstrs(m.instrs);
    assert Flat(tail) == W.LookupsBytes(m.version) by {
      FlatOne(Cu(0));
    }
    PrintRegrouped(W.ManyBytes(t.signatures, SignatureBytes), W.VersionTag(m.version), W.HeaderBytes(m.header),
                   CompactU16.Encode(|m.keys|), Concat(m.keys, KeyBytes), KeyBytes(m.blockhash),
                   CompactU16.Encode(|m.instrs|), Concat(m.instrs, W.InstrBytes), W.LookupsBytes(m.version));
  }

  lemma {:induction false} PrintRegrouped(
    a: Bytes, v: Bytes, h: Bytes, ck: Bytes, ks: Bytes, bh: Bytes, ci: Bytes, ix: Bytes, ls: Bytes)
    ensures a + v + (h + ck) + ks + (bh + ci) + ix + ls == a + (v + (h + ((ck + ks) + (bh + ((ci + ix) + ls)))))
  {
  }

  // ---------- exactly when the checks succeed

  /** The highest offset any check asks for. */
  function Peak(off: nat, ps: seq<Piece>): (r: nat)
    requires ps != []
    decreases |ps|
  {
    var here := off + Need(ps[0]);
    if |ps| == 1 then here
    else
      var later := Peak(off + |PieceBytes(ps[0])|, ps[1..]);
      if here >= later then here else later
  }

  lemma {:induction false} PeakNext(off: nat, p: Piece, ps: seq<Piece>)
    requires ps != []
    ensures Peak(off, [p] + ps) ==
      var here, later := off + Need(p), Peak(off + |PieceBytes(p)|, ps); if here >= later then here else later
  {
    assert ([p] + ps)[1..] == ps;
  }

  lemma {:induction false} FitsIffPeak(mtu: nat, off: nat, ps: seq<Piece>)
    requires ps != []
    ensures Fits(mtu, off, ps) <==> Peak(off, ps) <= mtu
    decreases |ps|
  {
    if |ps| > 1 {
      FitsIffPeak(mtu, off + |PieceBytes(ps[0])|, ps[1..]);
    }
  }

  lemma {:induction false} PeakCoversAll(off: nat, ps: seq<Piece>)
    requires ps != []
    ensures off + |Flat(ps)| <= Peak(off, ps)
    decreases |ps|
  {
    if |ps| > 1 {
      PeakCoversAll(off + |PieceBytes(ps[0])|, ps[1..]);
    } else {
      FlatOne(ps[0]);
      assert ps == [ps[0]];
    }
  }

  /** Checks followed by at least two more bytes never decide: only the last pieces do. */
  lemma {:induction false} PeakAtEnd(off: nat, ps: seq<Piece>, qs: seq<Piece>)
    requires |Flat(qs)| >= 2 && qs != []
    ensures Peak(off, ps + qs) == Peak(off + |Flat(ps)|, qs)
    decreases |ps|
  {
    if ps == [] {
      assert ps + qs == qs;
    } else {
      var next := off + |PieceBytes(ps[0])|;
      PeakAtEnd(next, ps[1..], qs);
      assert (ps + qs)[1..] == ps[1..] + qs;
      assert (ps + qs)[0] == ps[0];
      PeakCoversAll(next, ps[1..] + qs);
      FlatAppend(ps[1..], qs);
    }
  }

  /** The bytes a transaction must leave free: the unused part of the last three-byte check. */
  function Slack(versioned: bool, lastDataLen: nat): (r: nat)
    ensures r <= 2
  {
    if versioned then 2 else if lastDataLen == 0 then 2 else if lastDataLen == 1 then 1 else 0
  }

  lemma {:induction false} PeakOfFour(off: nat, a: u16, as_: Bytes, d: u16, ds: Bytes)
    requires |as_| == a && |ds| == d
    ensures var end := off + CompactU16.EncodedSize(a) + a + CompactU16.EncodedSize(d) + d;
      && |Flat([Cu(a), Raw(as_), Cu(d), Raw(ds)])| == end - off
      && Peak(off, [Cu(a), Raw(as_), Cu(d), Raw(ds)]) == end + (if d == 0 then 2 else if d == 1 then 1 else 0)
  {
    var ca, ra, cd, rd := Cu(a), Raw(as_), Cu(d), Raw(ds);
    assert [ca, ra, cd, rd] == [ca] + ([ra] + ([cd] + [rd])) == [ca, ra] + [cd, rd];
    FlatAppend([ca, ra], [cd, rd]);
    FlatTwo(ca, ra);
    FlatTwo(cd, rd);
    PeakNext(off, ca, [ra] + ([cd] + [rd]));
    PeakNext(off + CompactU16.EncodedSize(a), ra, [cd] + [rd]);
    PeakNext(off + CompactU16.EncodedSize(a) + a, cd, [rd]);
  }

  lemma {:induction false} PeakSnoc(off: nat, ps: seq<Piece>, q: Piece)
    requires ps != []
    ensures var last := off + |Flat(ps)| + Need(q);
      Peak(off, ps + [q]) == if Peak(off, ps) >= last then Peak(off, ps) else last
    decreases |ps|
  {
    if |ps| == 1 {
      FlatOne(ps[0]);
      assert ps == [ps[0]];
      PeakNext(off, ps[0], [q]);
    } else {
      assert ps + [q] == [ps[0]] + (ps[1..] + [q]) && ps == [ps[0]] + ps[1..];
      PeakNext(off, ps[0], ps[1..] + [q]);
      PeakNext(off, ps[0], ps[1..]);
      PeakSnoc(off + |PieceBytes(ps[0])|, ps[1..], q);
    }
  }

  lemma {:induction false} PeakOfLast(off: nat, ix: W.Instr, v: W.Version)
    ensures var qs := InstrPieces(ix)[1..] + TailPieces(v);
      qs != [] && |Flat(qs)| >= 2 && Peak(off, qs) == off + |Flat(qs)| + Slack(v.V0?, |ix.data|)
  {
    var four := [Cu(|ix.accounts|), Raw(ix.accounts), Cu(|ix.data|), Raw(ix.data)];
    assert InstrPieces(ix)[1..] == four;
    PeakOfFour(off, |ix.accounts|, ix.accounts, |ix.data|, ix.data);
    if v.V0? {
      PeakSnoc(off, four, Cu(0));
      FlatAppend(four, [Cu(0)]);
      FlatOne(Cu(0));
    } else {
      assert four + TailPieces(v) == four;
    }
  }

  /**
    Size theorem: with at least one instruction, the checks of `build` all succeed if and only if the
    printed size plus the slack of its last compact-u16 is within the limit.
   */
  lemma {:induction false} FitsIffSize(mtu: nat, t: W.Txn)
    requires t.message.version.V0? ==> t.message.version.lookups == []
    requires t.message.instrs != []
    ensures var last := t.message.instrs[|t.message.instrs| - 1];
      Fits(mtu, 0, TxnPieces(t)) <==> |W.TxnBytes(t)| + Slack(t.message.version.V0?, |last.data|) <= mtu
  {
    var last := t.message.instrs[|t.message.instrs| - 1];
    var ps := SplitLast(t);
    var qs := InstrPieces(last)[1..] + TailPieces(t.message.version);
    PeakOfLast(|Flat(ps)|, last, t.message.version);
    PeakAtEnd(0, ps, qs);
    FitsIffPeak(mtu, 0, ps + qs);
    FlatAppend(ps, qs);
    PiecesPrint(t);
  }

  /** Everything before the account count of the last instruction. */
  lemma {:induction false} SplitLast(t: W.Txn) returns (ps: seq<Piece>)
    requires t.message.instrs != []
    ensures TxnPieces(t) ==
      ps + (InstrPieces(t.message.instrs[|t.message.instrs| - 1])[1..] + TailPieces(t.message.version))
  {
    var m := t.message;
    var last := InstrPieces(m.instrs[|m.instrs| - 1]);
    var before := HeadPieces(t) + KeyPieces(m.keys) + [Raw(m.blockhash), Cu(|m.instrs|)];
    var front := InstrsPieces(m.instrs[..|m.instrs| - 1]);
    ps := before + front + [last[0]];
    assert last == [last[0]] + last[1..];
    assert before + (front + ([last[0]] + last[1..])) + TailPieces(m.version)
        == ps + (last[1..] + TailPieces(m.version));
  }

  // ---------- closed-form size

  function InstrSize(e: Entry): (r: nat)
  {
    1 + CompactU16.EncodedSize(e.acctCnt) + e.acctCnt + CompactU16.EncodedSize(e.dataLen) + e.dataLen
  }

  function InstrsSize(es: seq<Entry>): (r: nat)
  {
    if es == [] then 0 else InstrSize(es[0]) + InstrsSize(es[1..])
  }

  /** How many accounts of the table have a sort key in `lo..hi`. */
  function Tally(roles: seq<Role>, lo: nat, hi: nat): (r: nat)
    ensures r <= |roles|
  {
    if roles == [] then 0
    else Tally(roles[..|roles| - 1], lo, hi) + if lo <= SortKey(roles[|roles| - 1]) <= hi then 1 else 0
  }

  /** How many accounts of the table are signers. */
  function Signers(roles: seq<Role>): (r: nat)
    ensures r <= |roles|
  {
    Tally(roles, 0, 1)
  }

  /** The size of the transaction a state builds, from its table and entries alone. */
  function BuiltSize(lim: Limits, b: State): (r: nat)
    requires Valid(lim, b)
  {
    var sigs := Signers(b.roles);
    CompactU16.EncodedSize(sigs) + 64 * sigs + (if b.version.V0? then 2 else 0) + 3
    + CompactU16.EncodedSize(|b.keys|) + 32 * |b.keys| + 32
    + CompactU16.EncodedSize(|b.entries|) + InstrsSize(b.entries)
  }

  lemma {:induction false} CountInsert(roles: seq<Role>, payer: nat, s: seq<nat>, x: nat, lo: nat, hi: nat)
    requires Indices(roles, s) && x < |roles|
    ensures Count(Classes(roles, Insert(roles, payer, s, x)), lo, hi)
         == Count(Classes(roles, s), lo, hi) + if lo <= SortKey(roles[x]) <= hi then 1 else 0
  {
    var r := Insert(roles, payer, s, x);
    if s == [] || Before(roles, payer, s[|s| - 1], x) {
      assert Classes(roles, r)[..|s|] == Classes(roles, s);
    } else {
      var front := s[..|s| - 1];
      CountInsert(roles, payer, front, x, lo, hi);
      assert Classes(roles, s)[..|s| - 1] == Classes(roles, front);
      assert Classes(roles, r)[..|s|] == Classes(roles, Insert(roles, payer, front, x));
    }
  }

  lemma {:induction false} TallyNext(roles: seq<Role>, n: nat, lo: nat, hi: nat)
    requires 0 < n <= |roles|
    ensures Tally(roles[..n], lo, hi)
         == Tally(roles[..n - 1], lo, hi) + if lo <= SortKey(roles[n - 1]) <= hi then 1 else 0
  {
    assert roles[..n][..n - 1] == roles[..n - 1];
  }

  /** Sorting does not change how many accounts each class has. */
  lemma {:induction false} CountTally(roles: seq<Role>, payer: nat, n: nat, lo: nat, hi: nat)
    requires n <= |roles|
    ensures Count(Classes(roles, Order(roles, payer, n)), lo, hi) == Tally(roles[..n], lo, hi)
  {
    if n > 0 {
      CountTally(roles, payer, n - 1, lo, hi);
      CountInsert(roles, payer, Order(roles, payer, n - 1), n - 1, lo, hi);
      TallyNext(roles, n, lo, hi);
    }
  }

  /** The header as counts over the table, whatever the order. */
  lemma {:induction false} HeaderTallies(lim: Limits, b: State)
    requires Ready(lim, b)
    ensures CompileTxn(lim, b).message.header == W.Header(Signers(b.roles), Tally(b.roles, 1, 1), Tally(b.roles, 3, 3))
  {
    OrderTallies(b.roles, Payer(lim, b));
  }

  lemma {:induction false} OrderTallies(roles: seq<Role>, payer: nat)
    requires |roles| <= 0xff
    ensures CompileHeader(roles, Order(roles, payer, |roles|))
         == W.Header(Signers(roles), Tally(roles, 1, 1), Tally(roles, 3, 3))
  {
    assert roles[..|roles|] == roles;
    var c := Classes(roles, Order(roles, payer, |roles|));
    assert Count(c, 0, 1) == Signers(roles) by { CountTally(roles, payer, |roles|, 0, 1); }
    assert Count(c, 1, 1) == Tally(roles, 1, 1) by { CountTally(roles, payer, |roles|, 1, 1); }
    assert Count(c, 3, 3) == Tally(roles, 3, 3) by { CountTally(roles, payer, |roles|, 3, 3); }
  }

  lemma {:induction false} SomeSigner(roles: seq<Role>, i: nat)
    requires i < |roles| && roles[i].signer
    ensures Signers(roles) >= 1
  {
    if i < |roles| - 1 {
      SomeSigner(roles[..|roles| - 1], i);
    }
  }

  lemma {:induction false} EntriesSize(b: State, s: seq<nat>, es: seq<Entry>, ixs: seq<W.Instr>)
    requires |ixs| == |es|
    requires forall i :: 0 <= i < |es| ==> EntryOk(b, es[i]) && ixs[i] == CompileEntry(b, s, es[i])
    ensures |Concat(ixs, W.InstrBytes)| == InstrsSize(es)
  {
    if es != [] {
      EntriesSize(b, s, es[1..], ixs[1..]);
      assert ixs[0] == CompileEntry(b, s, es[0]);
    }
  }

  lemma {:induction false} TxnSize(t: W.Txn)
    requires t.message.version.V0? ==> t.message.version.lookups == []
    ensures |W.TxnBytes(t)| == CompactU16.EncodedSize(|t.signatures|) + 64 * |t.signatures|
      + (if t.message.version.V0? then 2 else 0) + 3
      + CompactU16.EncodedSize(|t.message.keys|) + 32 * |t.message.keys| + 32
      + CompactU16.EncodedSize(|t.message.instrs|) + |Concat(t.message.instrs, W.InstrBytes)|
  {
    var m := t.message;
    ConcatSize(t.signatures, SignatureBytes, 64);
    ConcatSize(m.keys, KeyBytes, 32);
    assert |W.LookupsBytes(m.version)| == if m.version.V0? then 1 else 0;
    assert |W.BodyBytes(m)| == 3 + |W.ManyBytes(m.keys, KeyBytes)| + 32 + |W.ManyBytes(m.instrs, W.InstrBytes)|
      + |W.LookupsBytes(m.version)|;
  }

  /** The closed form is the length of the bytes. */
  lemma {:induction false} SizeIsClosedForm(lim: Limits, b: State)
    requires Ready(lim, b)
    ensures |W.TxnBytes(CompileTxn(lim, b))| == BuiltSize(lim, b)
  {
    var t := CompileTxn(lim, b);
    HeaderTallies(lim, b);
    TxnSize(t);
    EntriesSize(b, Layout(lim, b), b.entries, t.message.instrs);
  }

  // ---------- build as a function of the state

  function BuildResult(lim: Limits, b: State): (r: Result<W.Txn, BuildError>)
    requires Valid(lim, b)
  {
    if b.feePayer.None? then Err(NoFeePayer)
    else if b.blockhash.None? then Err(NoBlockhash)
    else if b.entries == [] then Err(NoInstructions)
    else
      var t := CompileTxn(lim, b);
      var sigs := t.message.header.sigCount;
      if sigs == 0 || sigs > lim.sigMax then Err(TooManySigners)
      else if !Fits(lim.mtu, 0, TxnPieces(t)) then Err(TransactionTooLarge)
      else Ok(t)
  }

  /** The bytes the last instruction of a state leaves to be spared. */
  function StateSlack(b: State): (r: nat)
    requires b.entries != []
    ensures r <= 2
  {
    Slack(b.version.V0?, b.entries[|b.entries| - 1].dataLen)
  }

  lemma {:induction false} LastCompiled(lim: Limits, b: State)
    requires Ready(lim, b) && b.entries != []
    ensures var m := CompileTxn(lim, b).message;
      && m.version == CompileVersion(b.version) && |m.instrs| == |b.entries|
      && |m.instrs[|m.instrs| - 1].data| == b.entries[|b.entries| - 1].dataLen
  {
    var m, last := CompileTxn(lim, b).message, b.entries[|b.entries| - 1];
    assert m.instrs[|b.entries| - 1] == CompileEntry(b, Layout(lim, b), last);
  }

  lemma {:induction false} FitsDecided(lim: Limits, b: State)
    requires Ready(lim, b) && b.entries != []
    ensures Fits(lim.mtu, 0, TxnPieces(CompileTxn(lim, b))) <==> BuiltSize(lim, b) + StateSlack(b) <= lim.mtu
  {
    var t := CompileTxn(lim, b);
    LastCompiled(lim, b);
    SizeIsClosedForm(lim, b);
    FitsIffSize(lim.mtu, t);
  }

  /**
    Which result `build` gives is decided by the table and the entries: in particular the transaction is
    refused as too large if and only if its closed-form size, plus the slack of the last compact-u16
    check (at most two bytes), exceeds the limit.
   */
  lemma {:induction false} BuildIsDecided(lim: Limits, b: State)
    requires Valid(lim, b)
    ensures var r := BuildResult(lim, b);
      if b.feePayer.None? then r == Err(NoFeePayer)
      else if b.blockhash.None? then r == Err(NoBlockhash)
      else if b.entries == [] then r == Err(NoInstructions)
      else if Signers(b.roles) > lim.sigMax then r == Err(TooManySigners)
      else if BuiltSize(lim, b) + StateSlack(b) > lim.mtu then r == Err(TransactionTooLarge)
      else r == Ok(CompileTxn(lim, b)) && W.WellFormed(r.value.message)
  {
    if Ready(lim, b) && b.entries != [] {
      HeaderTallies(lim, b);
      SomeSigner(b.roles, Payer(lim, b));
      FitsDecided(lim, b);
    }
  }
}
