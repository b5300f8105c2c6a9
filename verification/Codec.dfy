/** Parsers over byte strings, and what it means for a parser to invert a printer. */
module Codec {
  import opened Common
  import CompactU16

  datatype Parsed<+T> = Fail | Got(value: T, rest: Bytes) {
    predicate IsFailure() {
      Fail?
    }

    function PropagateFailure<U>(): (r: Parsed<U>)
      requires Fail?
    {
      Fail
    }

    function Extract(): (r: (T, Bytes))
      requires Got?
    {
      (value, rest)
    }
  }

  /** `parse` accepts exactly the strings that start with a print, and recovers the value and the rest. */
  ghost predicate Inverts<T(!new)>(parse: Bytes -> Parsed<T>, print_: T -> Bytes)
  {
    && (forall x: T, tail: Bytes :: parse(print_(x) + tail) == Got(x, tail))
    && (forall bs: Bytes :: parse(bs).Got? ==> bs == print_(parse(bs).value) + parse(bs).rest)
  }

  // ---------- single fields

  function KeyBytes(k: Key): (r: Bytes)
  {
    k
  }

  function ParseKey(bs: Bytes): (r: Parsed<Key>)
  {
    if |bs| < 32 then Fail else Got(bs[..32], bs[32..])
  }

  function SignatureBytes(s: Signature): (r: Bytes)
  {
    s
  }

  function ParseSignature(bs: Bytes): (r: Parsed<Signature>)
  {
    if |bs| < 64 then Fail else Got(bs[..64], bs[64..])
  }

  function ParseU16(bs: Bytes): (r: Parsed<u16>)
  {
    match CompactU16.Decode(bs)
    case None => Fail
    case Some((v, n)) => Got(v, bs[n..])
  }

  /** A compact-u16 length followed by that many bytes. */
  function VecBytes(v: Vec16): (r: Bytes)
  {
    CompactU16.Encode(|v|) + v
  }

  function ParseVec(bs: Bytes): (r: Parsed<Vec16>)
  {
    var (n, rest) :- ParseU16(bs);
    if |rest| < n then Fail else Got(rest[..n], rest[n..])
  }

  // ---------- repetition

  function Concat<T>(xs: seq<T>, print_: T -> Bytes): (r: Bytes)
  {
    if xs == [] then [] else print_(xs[0]) + Concat(xs[1..], print_)
  }

  function ParseN<T>(n: nat, parse: Bytes -> Parsed<T>, bs: Bytes): (r: Parsed<seq<T>>)
  {
    if n == 0 then Got([], bs)
    else
      var (x, rest) :- parse(bs);
      var (xs, end) :- ParseN(n - 1, parse, rest);
      Got([x] + xs, end)
  }

  // ---------- the inverses

  lemma {:induction false} Regroup(a: Bytes, b: Bytes, c: Bytes, rest: Bytes)
    ensures a + (b + (c + rest)) == (a + b + c) + rest
    ensures a + (b + rest) == (a + b) + rest
  {
  }

  lemma {:induction false} RegroupFive(a: Bytes, b: Bytes, c: Bytes, d: Bytes, e: Bytes, rest: Bytes)
    ensures a + (b + (c + (d + (e + rest)))) == (a + (b + (c + (d + e)))) + rest
  {
    Regroup(a, b + (c + (d + e)), [], rest);
    Regroup(b, c, d + e, rest);
    Regroup(c, d, e, rest);
  }

  lemma {:induction false} KeyRoundTrip(k: Key, tail: Bytes)
    ensures ParseKey(KeyBytes(k) + tail) == Got(k, tail)
  {
    assert (k + tail)[..32] == k && (k + tail)[32..] == tail;
  }

  lemma {:induction false} KeyInverse(bs: Bytes)
    requires ParseKey(bs).Got?
    ensures bs == KeyBytes(ParseKey(bs).value) + ParseKey(bs).rest
  {
    assert bs == bs[..32] + bs[32..];
  }

  lemma {:induction false} KeyInverts()
    ensures Inverts(ParseKey, KeyBytes)
  {
    forall x: Key, tail: Bytes ensures ParseKey(KeyBytes(x) + tail) == Got(x, tail) {
      KeyRoundTrip(x, tail);
    }
    forall bs: Bytes | ParseKey(bs).Got? ensures bs == KeyBytes(ParseKey(bs).value) + ParseKey(bs).rest {
      KeyInverse(bs);
    }
  }

  lemma {:induction false} SignatureInverts()
    ensures Inverts(ParseSignature, SignatureBytes)
  {
    forall x: Signature, tail: Bytes ensures ParseSignature(SignatureBytes(x) + tail) == Got(x, tail) {
      assert (x + tail)[..64] == x && (x + tail)[64..] == tail;
    }
    forall bs: Bytes | ParseSignature(bs).Got?
      ensures bs == SignatureBytes(ParseSignature(bs).value) + ParseSignature(bs).rest
    {
      assert bs == bs[..64] + bs[64..];
    }
  }

  lemma {:induction false} U16RoundTrip(v: u16, tail: Bytes)
    ensures ParseU16(CompactU16.Encode(v) + tail) == Got(v, tail)
  {
    CompactU16.DecodeEncode(v, tail);
    assert (CompactU16.Encode(v) + tail)[|CompactU16.Encode(v)|..] == tail;
  }

  lemma {:induction false} U16Inverse(bs: Bytes)
    requires ParseU16(bs).Got?
    ensures bs == CompactU16.Encode(ParseU16(bs).value) + ParseU16(bs).rest
  {
    CompactU16.DecodeCanonical(bs);
    var n := CompactU16.Decode(bs).value.1;
    assert bs == bs[..n] + bs[n..];
  }

  lemma {:induction false} VecRoundTrip(v: Vec16, tail: Bytes)
    ensures ParseVec(VecBytes(v) + tail) == Got(v, tail)
  {
    U16RoundTrip(|v|, v + tail);
    assert VecBytes(v) + tail == CompactU16.Encode(|v|) + (v + tail);
    assert (v + tail)[..|v|] == v && (v + tail)[|v|..] == tail;
  }

  lemma {:induction false} VecInverse(bs: Bytes)
    requires ParseVec(bs).Got?
    ensures bs == VecBytes(ParseVec(bs).value) + ParseVec(bs).rest
  {
    U16Inverse(bs);
    var r := ParseU16(bs);
    assert r.rest == r.rest[..r.value] + r.rest[r.value..];
  }

  lemma {:induction false} ParseNConcat<T(!new)>(xs: seq<T>, parse: Bytes -> Parsed<T>, print_: T -> Bytes, tail: Bytes)
    requires Inverts(parse, print_)
    ensures ParseN(|xs|, parse, Concat(xs, print_) + tail) == Got(xs, tail)
  {
    if xs == [] {
      assert Concat(xs, print_) + tail == tail;
    } else {
      var rest := Concat(xs[1..], print_) + tail;
      assert Concat(xs, print_) + tail == print_(xs[0]) + rest;
      assert parse(print_(xs[0]) + rest) == Got(xs[0], rest);
      ParseNConcat(xs[1..], parse, print_, tail);
      assert xs == [xs[0]] + xs[1..];
    }
  }

  lemma {:induction false} ConcatParseN<T(!new)>(n: nat, parse: Bytes -> Parsed<T>, print_: T -> Bytes, bs: Bytes)
    requires Inverts(parse, print_)
    requires ParseN(n, parse, bs).Got?
    ensures var r := ParseN(n, parse, bs); |r.value| == n && bs == Concat(r.value, print_) + r.rest
  {
    if n > 0 {
      var one := parse(bs);
      assert bs == print_(one.value) + one.rest;
      ConcatParseN(n - 1, parse, print_, one.rest);
      var more := ParseN(n - 1, parse, one.rest);
      var xs := [one.value] + more.value;
      assert xs[1..] == more.value;
      assert bs == print_(one.value) + (Concat(more.value, print_) + more.rest);
    }
  }

  lemma {:induction false} ConcatAppend<T>(xs: seq<T>, ys: seq<T>, print_: T -> Bytes)
    ensures Concat(xs + ys, print_) == Concat(xs, print_) + Concat(ys, print_)
  {
    if xs == [] {
      assert xs + ys == ys;
    } else {
      ConcatAppend(xs[1..], ys, print_);
      assert (xs + ys)[1..] == xs[1..] + ys;
    }
  }

  lemma {:induction false} ConcatSize<T>(xs: seq<T>, print_: T -> Bytes, size: nat)
    requires forall i :: 0 <= i < |xs| ==> |print_(xs[i])| == size
    ensures |Concat(xs, print_)| == |xs| * size
  {
    if xs != [] {
      assert forall i :: 0 <= i < |xs[1..]| ==> xs[1..][i] == xs[i + 1];
      ConcatSize(xs[1..], print_, size);
      assert |xs| * size == size + (|xs| - 1) * size;
    }
  }
}
