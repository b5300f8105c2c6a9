/** A built transaction whose signature slots are filled in place. */
module UnsignedTransaction {
  import opened Common
  import opened Codec
  import W = Wire
  import CompactU16

  class UnsignedTransaction {
    const buf: array<byte>
    const len: nat
    const sigCount: byte
    const sigOff: nat
    const messageOff: nat

    /** The buffer holds the printed transaction and the offsets point at its parts. */
    ghost predicate Represents(t: W.Txn)
      reads buf
    {
      && len <= buf.Length && buf[..len] == W.TxnBytes(t)
      && sigCount == |t.signatures|
      && sigOff == CompactU16.EncodedSize(sigCount) && messageOff == sigOff + 64 * sigCount
    }

    constructor (buf: array<byte>, len: nat, sigCount: byte, sigOff: nat, messageOff: nat)
      ensures this.buf == buf && this.len == len && this.sigCount == sigCount
      ensures this.sigOff == sigOff && this.messageOff == messageOff
    {
      this.buf, this.len, this.sigCount, this.sigOff, this.messageOff := buf, len, sigCount, sigOff, messageOff;
    }

    /** Writing slot `index` replaces that signature of the represented transaction and nothing else. */
    method SetSignature(index: nat, signature: Signature, ghost t: W.Txn)
      requires Represents(t) && index < sigCount
      modifies buf
      ensures Represents(t.(signatures := t.signatures[index := signature]))
      ensures forall i :: 0 <= i < buf.Length && !(sigOff + 64 * index <= i < sigOff + 64 * index + 64) ==>
                buf[i] == old(buf[i])
    {
      SlotSpliced(t, index, signature);
      assert sigOff + index * 64 == SlotStart(t, index);
      Overwrite(buf, sigOff + index * 64, signature, len);
    }

    method AsBytes() returns (r: Bytes)
      requires len <= buf.Length
      ensures forall t :: Represents(t) ==> r == W.TxnBytes(t)
    {
      r := buf[..len];
    }

    /** What signers sign: the message part, without the slots. */
    method MessageBytes(ghost t: W.Txn) returns (r: Bytes)
      requires Represents(t)
      ensures r == W.MessageBytes(t.message)
    {
      MessageFollowsSlots(t);
      r := buf[messageOff..len];
      assert r == buf[..len][messageOff..];
    }
  }

  /** Copy bytes over part of a buffer whose first `len` bytes are in use. */
  method Overwrite(buf: array<byte>, start: nat, bs: Signature, len: nat)
    requires start + 64 <= len <= buf.Length
    modifies buf
    ensures buf[..len] == SpliceAt(old(buf[..len]), start, bs)
    ensures forall i :: 0 <= i < buf.Length && !(start <= i < start + 64) ==> buf[i] == old(buf[i])
  {
    forall i | 0 <= i < 64 {
      buf[start + i] := bs[i];
    }
  }

  // ---------- slots inside the printed transaction

  function SlotStart(t: W.Txn, index: nat): (r: nat)
  {
    CompactU16.EncodedSize(|t.signatures|) + 64 * index
  }

  lemma {:induction false} MessageFollowsSlots(t: W.Txn)
    ensures |W.TxnBytes(t)| == SlotStart(t, |t.signatures|) + |W.MessageBytes(t.message)|
    ensures W.TxnBytes(t)[SlotStart(t, |t.signatures|)..] == W.MessageBytes(t.message)
  {
    ConcatSize(t.signatures, SignatureBytes, 64);
    var slots := W.ManyBytes(t.signatures, SignatureBytes);
    assert |slots| == SlotStart(t, |t.signatures|);
    assert (slots + W.MessageBytes(t.message))[|slots|..] == W.MessageBytes(t.message);
  }

  lemma {:induction false} SlotInConcat(ss: seq<Signature>, i: nat, s: Signature)
    requires i < |ss|
    ensures var bs := Concat(ss, SignatureBytes);
      && |bs| == 64 * |ss| && bs[64 * i..64 * i + 64] == ss[i]
      && Concat(ss[i := s], SignatureBytes) == SpliceAt(bs, 64 * i, s)
  {
    ConcatSize(ss, SignatureBytes, 64);
    var a, z := Concat(ss[..i], SignatureBytes), Concat(ss[i + 1..], SignatureBytes);
    ConcatSize(ss[..i], SignatureBytes, 64);
    SplitAt(ss, i);
    SplitAt(ss[i := s], i);
    assert ss[i := s][..i] == ss[..i] && ss[i := s][i + 1..] == ss[i + 1..];
    SpliceMiddle(a, ss[i], s, z);
  }

  lemma {:induction false} SpliceMiddle(a: Bytes, x: Signature, y: Signature, z: Bytes)
    ensures var bs := a + (x + z); bs[|a|..|a| + 64] == x && a + (y + z) == SpliceAt(bs, |a|, y)
  {
    var bs := a + (x + z);
    assert bs[..|a|] == a && bs[|a| + 64..] == z;
  }

  lemma {:induction false} SplitAt(ss: seq<Signature>, i: nat)
    requires i < |ss|
    ensures Concat(ss, SignatureBytes) ==
      Concat(ss[..i], SignatureBytes) + (ss[i] + Concat(ss[i + 1..], SignatureBytes))
  {
    assert ss == ss[..i] + ss[i..];
    ConcatAppend(ss[..i], ss[i..], SignatureBytes);
    assert ss[i..][1..] == ss[i + 1..];
  }

  /** The bytes with 64 of them replaced by a signature. */
  function SpliceAt(bs: Bytes, at: nat, s: Signature): (r: Bytes)
    requires at + 64 <= |bs|
    ensures |r| == |bs|
  {
    bs[..at] + s + bs[at + 64..]
  }

  lemma {:induction false} SpliceInside(c: Bytes, bs: Bytes, m: Bytes, at: nat, s: Signature)
    requires at + 64 <= |bs|
    ensures (c + SpliceAt(bs, at, s)) + m == SpliceAt(c + bs + m, |c| + at, s)
  {
  }

  /** Replacing a signature overwrites its 64 bytes in the print and leaves the rest. */
  lemma {:induction false} SlotSpliced(t: W.Txn, index: nat, s: Signature)
    requires index < |t.signatures|
    ensures var start := SlotStart(t, index);
      && start + 64 <= |W.TxnBytes(t)|
      && W.TxnBytes(t.(signatures := t.signatures[index := s])) == SpliceAt(W.TxnBytes(t), start, s)
  {
    SlotInConcat(t.signatures, index, s);
    var count, slots := CompactU16.Encode(|t.signatures|), Concat(t.signatures, SignatureBytes);
    SpliceInside(count, slots, W.MessageBytes(t.message), 64 * index, s);
  }

  // ---------- runs of signing

  datatype Signing = Signing(index: nat, signature: Signature)

  /** What a sequence of `set_signature` calls does to the bytes of a transaction with `n` slots. */
  function SignBytes(n: u16, bytes: Bytes, calls: seq<Signing>): (r: Bytes)
    requires |bytes| >= CompactU16.EncodedSize(n) + 64 * n
    requires forall i :: 0 <= i < |calls| ==> calls[i].index < n
    ensures |r| == |bytes|
  {
    if calls == [] then bytes
    else
      var before := SignBytes(n, bytes, calls[..|calls| - 1]);
      var c := calls[|calls| - 1];
      var start := CompactU16.EncodedSize(n) + 64 * c.index;
      SpliceAt(before, start, c.signature)
  }

  /** The last signature written to slot `i`, or what was there before. */
  function LastWritten(calls: seq<Signing>, i: nat, initial: Signature): (r: Signature)
  {
    if calls == [] then initial
    else if calls[|calls| - 1].index == i then calls[|calls| - 1].signature
    else LastWritten(calls[..|calls| - 1], i, initial)
  }

  function SignedSlots(ss: seq<Signature>, calls: seq<Signing>): (r: seq<Signature>)
    ensures |r| == |ss| && forall i :: 0 <= i < |ss| ==> r[i] == LastWritten(calls, i, ss[i])
  {
    seq(|ss|, i requires 0 <= i < |ss| => LastWritten(calls, i, ss[i]))
  }

  lemma {:induction false} SlotsNext(ss: seq<Signature>, calls: seq<Signing>)
    requires calls != [] && calls[|calls| - 1].index < |ss|
    ensures var c := calls[|calls| - 1];
      SignedSlots(ss, calls) == SignedSlots(ss, calls[..|calls| - 1])[c.index := c.signature]
  {
  }

  lemma {:induction false} SignedBytes(t: W.Txn, calls: seq<Signing>)
    requires forall i :: 0 <= i < |calls| ==> calls[i].index < |t.signatures|
    ensures |W.TxnBytes(t)| >= SlotStart(t, |t.signatures|)
    ensures SignBytes(|t.signatures|, W.TxnBytes(t), calls)
         == W.TxnBytes(t.(signatures := SignedSlots(t.signatures, calls)))
  {
    MessageFollowsSlots(t);
    if calls == [] {
      assert SignedSlots(t.signatures, calls) == t.signatures;
    } else {
      var front, c := calls[..|calls| - 1], calls[|calls| - 1];
      SignedBytes(t, front);
      var before := t.(signatures := SignedSlots(t.signatures, front));
      SlotsNext(t.signatures, calls);
      SlotSpliced(before, c.index, c.signature);
    }
  }

  /**
    Signing is confined: after any sequence of writes the bytes are those of the same message with slot i
    holding the last signature written to it, so parsing gives back exactly that.
   */
  lemma {:induction false} SigningIsConfined(t: W.Txn, calls: seq<Signing>)
    requires W.WellFormed(t.message)
    requires forall i :: 0 <= i < |calls| ==> calls[i].index < |t.signatures|
    ensures |W.TxnBytes(t)| >= SlotStart(t, |t.signatures|)
    ensures var signed := t.(signatures := SignedSlots(t.signatures, calls));
      var bytes := SignBytes(|t.signatures|, W.TxnBytes(t), calls);
      && bytes[SlotStart(t, |t.signatures|)..] == W.MessageBytes(t.message)
      && W.ParseTxn(bytes) == Got(signed, [])
  {
    SignedBytes(t, calls);
    var signed := t.(signatures := SignedSlots(t.signatures, calls));
    MessageFollowsSlots(signed);
    W.TxnRoundTrip(signed, []);
    assert W.TxnBytes(signed) + [] == W.TxnBytes(signed);
  }
}
