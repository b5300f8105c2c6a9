/** Bounded writes into the output buffer, one piece at a time, each guarded by its own check. */
module Writer {
  import opened Common
  import opened Compile
  import opened Codec
  import W = Wire
  import CompactU16

  lemma {:induction false} FitsAppend(mtu: nat, off: nat, ps: seq<Piece>, qs: seq<Piece>)
    ensures Fits(mtu, off, ps + qs) <==> Fits(mtu, off, ps) && Fits(mtu, off + |Flat(ps)|, qs)
    decreases |ps|
  {
    if ps == [] {
      assert ps + qs == qs;
    } else {
      assert (ps + qs)[1..] == ps[1..] + qs;
      FitsAppend(mtu, off + |PieceBytes(ps[0])|, ps[1..], qs);
    }
  }

  /** The first `k` pieces are in the buffer, all their checks succeeded, and the rest is still zero. */
  ghost predicate Written(buf: array<byte>, off: nat, pieces: seq<Piece>, k: nat)
    reads buf
  {
    && off <= buf.Length && k <= |pieces|
    && buf[..off] == Flat(pieces[..k]) && Fits(buf.Length, 0, pieces[..k])
    && forall i :: off <= i < buf.Length ==> buf[i] == 0
  }

  lemma {:induction false} NextPiece(mtu: nat, pieces: seq<Piece>, k: nat)
    requires k < |pieces| && Fits(mtu, 0, pieces[..k])
    ensures Flat(pieces[..k + 1]) == Flat(pieces[..k]) + PieceBytes(pieces[k])
    ensures Fits(mtu, 0, pieces[..k + 1]) <==> |Flat(pieces[..k])| + Need(pieces[k]) <= mtu
    ensures Fits(mtu, 0, pieces) ==> Fits(mtu, 0, pieces[..k + 1])
  {
    assert pieces[..k + 1] == pieces[..k] + [pieces[k]];
    FlatAppend(pieces[..k], [pieces[k]]);
    FlatOne(pieces[k]);
    FitsAppend(mtu, 0, pieces[..k], [pieces[k]]);
    assert pieces == pieces[..k + 1] + pieces[k + 1..];
    FitsAppend(mtu, 0, pieces[..k + 1], pieces[k + 1..]);
  }

  method WriteCu16(buf: array<byte>, off: nat, v: u16, ghost pieces: seq<Piece>, ghost k: nat)
    returns (ok: bool, off': nat)
    requires Written(buf, off, pieces, k) && k < |pieces| && pieces[k] == Cu(v)
    modifies buf
    ensures ok ==> Written(buf, off', pieces, k + 1) && off' == off + CompactU16.EncodedSize(v)
    ensures !ok ==> !Fits(buf.Length, 0, pieces)
  {
    NextPiece(buf.Length, pieces, k);
    if off + 3 > buf.Length {
      return false, off;
    }
    var bs := CompactU16.Encode(v);
    Store(buf, off, bs);
    return true, off + |bs|;
  }

  /** Copy bytes into the buffer. */
  method Store(buf: array<byte>, off: nat, bs: Bytes)
    requires off + |bs| <= buf.Length
    modifies buf
    ensures buf[..off + |bs|] == old(buf[..off]) + bs
    ensures forall i :: off + |bs| <= i < buf.Length ==> buf[i] == old(buf[i])
  {
    forall i | 0 <= i < |bs| {
      buf[off + i] := bs[i];
    }
    assert buf[..off] == old(buf[..off]);
    assert buf[off..off + |bs|] == bs;
    assert buf[..off + |bs|] == buf[..off] + buf[off..off + |bs|];
  }

  method WriteBytes(buf: array<byte>, off: nat, bs: Bytes, ghost pieces: seq<Piece>, ghost k: nat)
    returns (ok: bool, off': nat)
    requires Written(buf, off, pieces, k) && k < |pieces| && pieces[k] == Raw(bs)
    modifies buf
    ensures ok ==> Written(buf, off', pieces, k + 1) && off' == off + |bs|
    ensures !ok ==> !Fits(buf.Length, 0, pieces)
  {
    NextPiece(buf.Length, pieces, k);
    if off + |bs| > buf.Length {
      return false, off;
    }
    Store(buf, off, bs);
    return true, off + |bs|;
  }

  /** Leave room for bytes that stay zero. */
  method Skip(buf: array<byte>, off: nat, n: nat, ghost pieces: seq<Piece>, ghost k: nat)
    returns (ok: bool, off': nat)
    requires Written(buf, off, pieces, k) && k < |pieces| && pieces[k] == Raw(Zeros(n))
    ensures ok ==> Written(buf, off', pieces, k + 1) && off' == off + n
    ensures !ok ==> !Fits(buf.Length, 0, pieces)
  {
    NextPiece(buf.Length, pieces, k);
    if off + n > buf.Length {
      return false, off;
    }
    assert buf[off..off + n] == Zeros(n);
    assert buf[..off + n] == buf[..off] + buf[off..off + n];
    return true, off + n;
  }

  // ---------- where the pieces of a transaction are

  lemma {:induction false} InstrPieceAt(ixs: seq<W.Instr>, i: nat, j: nat)
    requires i < |ixs| && j < 5
    ensures |InstrsPieces(ixs)| == 5 * |ixs| && InstrsPieces(ixs)[5 * i + j] == InstrPieces(ixs[i])[j]
  {
    InstrPieceCount(ixs);
    InstrPieceCount(ixs[..|ixs| - 1]);
    if i < |ixs| - 1 {
      InstrPieceAt(ixs[..|ixs| - 1], i, j);
    }
  }

  lemma {:induction false} InstrPieceCount(ixs: seq<W.Instr>)
    ensures |InstrsPieces(ixs)| == 5 * |ixs|
  {
    if ixs != [] {
      InstrPieceCount(ixs[..|ixs| - 1]);
    }
  }

  /** How many pieces come before the keys. */
  function HeadCount(versioned: bool): (r: nat)
  {
    if versioned then 5 else 4
  }

  predicate HeadAt(ps: seq<Piece>, versioned: bool, header: W.Header, n: u16)
  {
    var h := HeadCount(versioned);
    && |ps| >= h
    && ps[0] == Cu(header.sigCount) && ps[1] == Raw(Zeros(64 * header.sigCount))
    && (versioned ==> ps[2] == Raw([0x80]))
    && ps[h - 2] == Raw(W.HeaderBytes(header)) && ps[h - 1] == Cu(n)
  }

  predicate KeysAt(ps: seq<Piece>, h: nat, keys: seq<Key>, blockhash: Key, instrCount: u16)
  {
    && |ps| >= h + |keys| + 2
    && (forall i :: 0 <= i < |keys| ==> ps[h..][i] == Raw(keys[i]))
    && ps[h + |keys|] == Raw(blockhash) && ps[h + |keys| + 1] == Cu(instrCount)
  }

  predicate InstrAt(ps: seq<Piece>, k: nat, ix: W.Instr)
  {
    && |ps| >= k + 5
    && ps[k] == Raw([ix.program]) && ps[k + 1] == Cu(|ix.accounts|) && ps[k + 2] == Raw(ix.accounts)
    && ps[k + 3] == Cu(|ix.data|) && ps[k + 4] == Raw(ix.data)
  }

  predicate InstrsAt(ps: seq<Piece>, k: nat, ixs: seq<W.Instr>)
  {
    forall i :: 0 <= i < |ixs| ==> InstrAt(ps, k + 5 * i, ixs[i])
  }

  predicate TailAt(ps: seq<Piece>, k: nat, versioned: bool)
  {
    if versioned then |ps| == k + 1 && ps[k] == Cu(0) else |ps| == k
  }

  /** The pieces are those of a message with the given parts, each where the writer expects it. */
  predicate PlanAt(ps: seq<Piece>, versioned: bool, header: W.Header, keys: W.Keys, blockhash: Key, instrs: W.Instrs)
  {
    var k := HeadCount(versioned) + |keys| + 2;
    && HeadAt(ps, versioned, header, |keys|)
    && KeysAt(ps, HeadCount(versioned), keys, blockhash, |instrs|)
    && InstrsAt(ps, k, instrs)
    && TailAt(ps, k + 5 * |instrs|, versioned)
  }

  /** Where `build` finds each piece of the transaction it is writing. */
  lemma {:induction false} LaidOut(t: W.Txn)
    requires t.signatures == EmptySlots(t.message.header.sigCount)
    ensures var m := t.message; PlanAt(TxnPieces(t), m.version.V0?, m.header, m.keys, m.blockhash, m.instrs)
  {
    var m := t.message;
    var head, keys, middle := HeadPieces(t), KeyPieces(m.keys), [Raw(m.blockhash), Cu(|m.instrs|)];
    var ixs, tail := InstrsPieces(m.instrs), TailPieces(m.version);
    InstrPieceCount(m.instrs);
    HeadLaidOut(t);
    Sections(head, keys, middle, ixs, tail);
    SectionsLaidOut(head + keys + middle + ixs + tail, head, m);
  }

  lemma {:induction false} SectionsLaidOut(ps: seq<Piece>, head: seq<Piece>, m: W.Message)
    requires HeadAt(head, m.version.V0?, m.header, |m.keys|) && |head| == HeadCount(m.version.V0?)
    requires |ps| == |head| + |m.keys| + 2 + 5 * |m.instrs| + |TailPieces(m.version)|
    requires ps[..|head|] == head && ps[|head|..][..|m.keys|] == KeyPieces(m.keys)
    requires var k := |head| + |m.keys|; ps[k] == Raw(m.blockhash) && ps[k + 1] == Cu(|m.instrs|)
    requires ps[|head| + |m.keys| + 2..] == InstrsPieces(m.instrs) + TailPieces(m.version)
    requires ps[|head| + |m.keys| + 2 + 5 * |m.instrs|..] == TailPieces(m.version)
    ensures PlanAt(ps, m.version.V0?, m.header, m.keys, m.blockhash, m.instrs)
  {
    var k := |head| + |m.keys| + 2;
    HeadPrefix(head, ps, m.version.V0?, m.header, |m.keys|);
    KeysLaidOut(ps, |head|, m);
    forall i | 0 <= i < |m.instrs| ensures InstrAt(ps, k + 5 * i, m.instrs[i]) {
      InstrLaidOut(ps, k, m.instrs, TailPieces(m.version), i);
    }
    TailLaidOut(ps, k + 5 * |m.instrs|, m.version);
  }

  lemma {:induction false} HeadPrefix(head: seq<Piece>, ps: seq<Piece>, versioned: bool, header: W.Header, n: u16)
    requires HeadAt(head, versioned, header, n) && |head| <= |ps| && ps[..|head|] == head
    ensures HeadAt(ps, versioned, header, n)
  {
    assert forall i :: 0 <= i < |head| ==> ps[i] == ps[..|head|][i];
  }

  lemma {:induction false} KeysLaidOut(ps: seq<Piece>, h: nat, m: W.Message)
    requires |ps| >= h + |m.keys| + 2 && ps[h..][..|m.keys|] == KeyPieces(m.keys)
    requires ps[h + |m.keys|] == Raw(m.blockhash) && ps[h + |m.keys| + 1] == Cu(|m.instrs|)
    ensures KeysAt(ps, h, m.keys, m.blockhash, |m.instrs|)
  {
    forall i | 0 <= i < |m.keys| ensures ps[h..][i] == Raw(m.keys[i]) {
      assert ps[h..][..|m.keys|][i] == KeyPieces(m.keys)[i];
    }
  }

  lemma {:induction false} TailLaidOut(ps: seq<Piece>, k: nat, v: W.Version)
    requires k <= |ps| && ps[k..] == TailPieces(v)
    ensures TailAt(ps, k, v.V0?)
  {
    assert |ps| == k + |TailPieces(v)|;
    if v.V0? {
      assert ps[k] == ps[k..][0];
    }
  }

  lemma {:induction false} Sections(a: seq<Piece>, b: seq<Piece>, c: seq<Piece>, d: seq<Piece>, e: seq<Piece>)
    requires |c| == 2
    ensures var ps := a + b + c + d + e;
      && ps[..|a|] == a && ps[|a|..][..|b|] == b
      && ps[|a| + |b|] == c[0] && ps[|a| + |b| + 1] == c[1]
      && ps[|a| + |b| + 2..] == d + e && ps[|a| + |b| + 2 + |d|..] == e
  {
  }

  lemma {:induction false} HeadLaidOut(t: W.Txn)
    requires t.signatures == EmptySlots(t.message.header.sigCount)
    ensures HeadAt(HeadPieces(t), t.message.version.V0?, t.message.header, |t.message.keys|)
  {
    ZeroSignatures(t.message.header.sigCount);
  }

  lemma {:induction false} InstrLaidOut(ps: seq<Piece>, k: nat, ixs: seq<W.Instr>, tail: seq<Piece>, i: nat)
    requires k <= |ps| && ps[k..] == InstrsPieces(ixs) + tail && i < |ixs|
    ensures InstrAt(ps, k + 5 * i, ixs[i])
  {
    InstrPieceCount(ixs);
    var five := InstrPieces(ixs[i]);
    forall j | 0 <= j < 5 ensures ps[k + 5 * i + j] == five[j] {
      InstrPieceAt(ixs, i, j);
      assert ps[k + 5 * i + j] == ps[k..][5 * i + j];
    }
    assert ps[k + 5 * i + 0] == five[0] && ps[k + 5 * i + 1] == five[1] && ps[k + 5 * i + 2] == five[2];
    assert ps[k + 5 * i + 3] == five[3] && ps[k + 5 * i + 4] == five[4];
  }

  lemma {:induction false} ZeroSignatures(n: nat)
    ensures Concat(EmptySlots(n), SignatureBytes) == Zeros(64 * n)
  {
    if n > 0 {
      ZeroSignatures(n - 1);
      assert EmptySlots(n)[1..] == EmptySlots(n - 1);
      assert Zeros(64 * n) == Zeros(64) + Zeros(64 * (n - 1));
    }
  }

  // ---------- the parts `build` writes

  /** Signature slots, version tag, header and account count. */
  method WriteHead(buf: array<byte>, versioned: bool, header: W.Header, acctCount: u16, ghost ps: seq<Piece>)
    returns (ok: bool, off: nat, sigOff: nat, messageOff: nat)
    requires HeadAt(ps, versioned, header, acctCount) && Written(buf, 0, ps, 0)
    modifies buf
    ensures ok ==> Written(buf, off, ps, HeadCount(versioned))
    ensures ok ==> sigOff == CompactU16.EncodedSize(header.sigCount) && messageOff == sigOff + 64 * header.sigCount
    ensures !ok ==> !Fits(buf.Length, 0, ps)
  {
    sigOff, messageOff := 0, 0;
    ok, off := WriteCu16(buf, 0, header.sigCount, ps, 0);
    if !ok { return; }
    sigOff := off;
    ok, off := Skip(buf, off, 64 * header.sigCount, ps, 1);
    if !ok { return; }
    messageOff := off;
    if versioned {
      ok, off := WriteBytes(buf, off, [0x80], ps, 2);
      if !ok { return; }
    }
    ghost var k := if versioned then 3 else 2;
    ok, off := WriteBytes(buf, off, [header.sigCount, header.readonlySigned, header.readonlyUnsigned], ps, k);
    if !ok { return; }
    ok, off := WriteCu16(buf, off, acctCount, ps, k + 1);
  }

  /** One instruction: program, accounts and data. */
  method WriteInstr(buf: array<byte>, start: nat, ix: W.Instr, ghost ps: seq<Piece>, ghost k: nat)
    returns (ok: bool, off: nat)
    requires InstrAt(ps, k, ix) && Written(buf, start, ps, k)
    modifies buf
    ensures ok ==> Written(buf, off, ps, k + 5)
    ensures !ok ==> !Fits(buf.Length, 0, ps)
  {
    ok, off := WriteBytes(buf, start, [ix.program], ps, k);
    if !ok { return; }
    ok, off := WriteCu16(buf, off, |ix.accounts|, ps, k + 1);
    if !ok { return; }
    ok, off := WriteBytes(buf, off, ix.accounts, ps, k + 2);
    if !ok { return; }
    ok, off := WriteCu16(buf, off, |ix.data|, ps, k + 3);
    if !ok { return; }
    ok, off := WriteBytes(buf, off, ix.data, ps, k + 4);
  }
}
