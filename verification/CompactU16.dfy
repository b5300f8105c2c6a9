/** The compact-u16 integer format: seven bits a byte, low bits first, minimal length. */
module CompactU16 {
  import opened Common

  function Encode(v: u16): (r: Bytes)
    ensures 1 <= |r| <= 3
  {
    if v < 0x80 then [v]
    else if v < 0x4000 then [v % 0x80 + 0x80, v / 0x80]
    else [v % 0x80 + 0x80, v / 0x80 % 0x80 + 0x80, v / 0x4000]
  }

  /** The decoded value and the number of bytes consumed; None on truncated, non-minimal or oversized input. */
  function Decode(bs: Bytes): (r: Option<(u16, nat)>)
    ensures r.Some? ==> r.value.1 <= |bs|
  {
    if |bs| == 0 then None
    else
      var b0: int := bs[0];
      if b0 < 0x80 then Some((b0, 1))
      else if |bs| == 1 || bs[1] == 0 then None
      else
        var b1: int := bs[1];
        if b1 < 0x80 then Some((b0 - 0x80 + 0x80 * b1, 2))
        else if |bs| == 2 || bs[2] == 0 || bs[2] > 3 then None
        else
          var b2: int := bs[2];
          Some((b0 - 0x80 + 0x80 * (b1 - 0x80) + 0x4000 * b2, 3))
  }

  function EncodedSize(v: u16): (r: nat)
    ensures r == |Encode(v)|
  {
    if v < 0x80 then 1 else if v < 0x4000 then 2 else 3
  }

  /** The value of little-endian groups of seven bits. */
  function Groups(bs: Bytes): (r: nat)
  {
    if bs == [] then 0 else bs[0] % 0x80 + 0x80 * Groups(bs[1..])
  }

  /** The documented layout: low group first, the high bit set on all bytes but the last, no zero last group. */
  lemma {:induction false} EncodeLayout(v: u16)
    ensures var r := Encode(v);
      && Groups(r) == v && r[|r| - 1] < 0x80 && (|r| > 1 ==> r[|r| - 1] != 0)
      && forall i :: 0 <= i < |r| - 1 ==> r[i] >= 0x80
  {
    var r := Encode(v);
    if v >= 0x4000 {
      var mid: byte, last: byte := v / 0x80 % 0x80 + 0x80, v / 0x4000;
      assert r[1..] == [mid, last] && [mid, last][1..] == [last] && [last][1..] == [];
      assert Groups([last]) == last;
      assert Groups([mid, last]) == v / 0x80;
    } else if v >= 0x80 {
      var last: byte := v / 0x80;
      assert r[1..] == [last] && [last][1..] == [];
      assert Groups([last]) == last;
    } else {
      assert r[1..] == [];
    }
  }

  /** Decoding ignores whatever follows an encoding. */
  lemma {:induction false} DecodeEncode(v: u16, tail: Bytes)
    ensures Decode(Encode(v) + tail) == Some((v, |Encode(v)|))
  {
    var bs := Encode(v) + tail;
    if v >= 0x4000 {
      assert bs[0] == v % 0x80 + 0x80 && bs[1] == v / 0x80 % 0x80 + 0x80 && bs[2] == v / 0x4000;
      assert v / 0x80 / 0x80 == v / 0x4000;
    } else if v >= 0x80 {
      assert bs[0] == v % 0x80 + 0x80 && bs[1] == v / 0x80;
    }
  }

  /** An accepted prefix is the encoding of the value returned: no value has two encodings. */
  lemma {:induction false} DecodeCanonical(bs: Bytes)
    requires Decode(bs).Some?
    ensures bs[..Decode(bs).value.1] == Encode(Decode(bs).value.0)
  {
    var (v, n) := Decode(bs).value;
    if n == 3 {
      var b1: int, b2: int := bs[1], bs[2];
      assert v / 0x80 == b1 - 0x80 + 0x80 * b2;
      assert v / 0x4000 == b2;
      assert bs[..3] == [bs[0], bs[1], bs[2]];
    } else if n == 2 {
      assert v / 0x80 == bs[1];
      assert bs[..2] == [bs[0], bs[1]];
    }
  }

  /** A byte string is accepted exactly when it starts with the encoding of some value. */
  lemma {:induction false} AcceptedIffEncoded(bs: Bytes)
    ensures Decode(bs).Some? <==> exists v: u16 :: Encode(v) <= bs
  {
    if Decode(bs).Some? {
      DecodeCanonical(bs);
      assert Encode(Decode(bs).value.0) <= bs;
    }
    forall v: u16 | Encode(v) <= bs ensures Decode(bs).Some? {
      DecodeEncode(v, bs[|Encode(v)|..]);
      assert bs == Encode(v) + bs[|Encode(v)|..];
    }
  }

  /** No encoding is a proper prefix of another. */
  lemma {:induction false} PrefixFree(v: u16, w: u16)
    requires Encode(v) <= Encode(w)
    ensures v == w
  {
    DecodeEncode(v, Encode(w)[|Encode(v)|..]);
    DecodeEncode(w, []);
    assert Encode(w) == Encode(v) + Encode(w)[|Encode(v)|..] == Encode(w) + [];
  }
}
