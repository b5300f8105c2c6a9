/** UTF-8: the table a decoder checks, and the encoding it is the image of. */
module Unicode {
  import opened Common

  predicate Continuation(b: byte)
  {
    0x80 <= b <= 0xBF
  }

  /** Well-formed UTF-8, as tabulated in table 3-7 of the Unicode Standard. */
  predicate Utf8(s: Bytes)
  {
    if s == [] then true
    else if s[0] < 0x80 then Utf8(s[1..])
    else if 0xC2 <= s[0] <= 0xDF then |s| >= 2 && Continuation(s[1]) && Utf8(s[2..])
    else if 0xE0 <= s[0] <= 0xEF then
      && |s| >= 3 && Continuation(s[1]) && Continuation(s[2])
      && (s[0] == 0xE0 ==> s[1] >= 0xA0) && (s[0] == 0xED ==> s[1] <= 0x9F) && Utf8(s[3..])
    else if 0xF0 <= s[0] <= 0xF4 then
      && |s| >= 4 && Continuation(s[1]) && Continuation(s[2]) && Continuation(s[3])
      && (s[0] == 0xF0 ==> s[1] >= 0x90) && (s[0] == 0xF4 ==> s[1] <= 0x8F) && Utf8(s[4..])
    else false
  }

  // ---------- the encoding

  /** A Unicode scalar value: a code point that is not a surrogate. */
  type Scalar = c: int | 0 <= c <= 0x10FFFF && !(0xD800 <= c <= 0xDFFF)

  /** The six bits of a scalar value from bit `6 * i` on, as a continuation byte. */
  function Group(c: Scalar, i: nat): (r: byte)
    requires i < 3
  {
    0x80 + (if i == 0 then c else if i == 1 then c / 0x40 else c / 0x1000) % 0x40
  }

  /** One to four bytes: the leading byte tells how many, and carries the bits above the groups of six. */
  function EncodeScalar(c: Scalar): (r: Bytes)
    ensures 1 <= |r| <= 4
  {
    if c < 0x80 then [c]
    else if c < 0x800 then [0xC0 + c / 0x40, Group(c, 0)]
    else if c < 0x1_0000 then [0xE0 + c / 0x1000, Group(c, 1), Group(c, 0)]
    else [0xF0 + c / 0x4_0000, Group(c, 2), Group(c, 1), Group(c, 0)]
  }

  function Encode(cs: seq<Scalar>): (r: Bytes)
  {
    if cs == [] then [] else EncodeScalar(cs[0]) + Encode(cs[1..])
  }

  // ---------- encodings are well-formed

  lemma {:induction false} ScalarAccepted(c: Scalar, rest: Bytes)
    requires Utf8(rest)
    ensures Utf8(EncodeScalar(c) + rest)
  {
    var s := EncodeScalar(c) + rest;
    assert s[|EncodeScalar(c)|..] == rest;
  }

  lemma {:induction false} EncodingAccepted(cs: seq<Scalar>)
    ensures Utf8(Encode(cs))
  {
    if cs != [] {
      EncodingAccepted(cs[1..]);
      ScalarAccepted(cs[0], Encode(cs[1..]));
    }
  }

  // ---------- well-formed strings are encodings

  /** The length of the first character, by its leading byte. */
  function FirstLen(s: Bytes): (r: nat)
    requires s != []
  {
    if s[0] < 0x80 then 1 else if s[0] < 0xE0 then 2 else if s[0] < 0xF0 then 3 else 4
  }

  lemma {:induction false} TwoBytes(a: byte, b: byte) returns (c: Scalar)
    requires 0xC2 <= a <= 0xDF && Continuation(b)
    ensures EncodeScalar(c) == [a, b]
  {
    var n := (a - 0xC0) * 0x40 + (b - 0x80);
    assert n / 0x40 == a - 0xC0 && n % 0x40 == b - 0x80;
    c := n;
  }

  lemma {:induction false} ThreeBytes(a: byte, b: byte, d: byte) returns (c: Scalar)
    requires 0xE0 <= a <= 0xEF && Continuation(b) && Continuation(d)
    requires (a == 0xE0 ==> b >= 0xA0) && (a == 0xED ==> b <= 0x9F)
    ensures EncodeScalar(c) == [a, b, d]
  {
    var n := (a - 0xE0) * 0x1000 + (b - 0x80) * 0x40 + (d - 0x80);
    assert n / 0x40 == (a - 0xE0) * 0x40 + (b - 0x80) && n % 0x40 == d - 0x80;
    assert n / 0x1000 == a - 0xE0;
    c := n;
  }

  lemma {:induction false} FourBytes(a: byte, b: byte, d: byte, e: byte) returns (c: Scalar)
    requires 0xF0 <= a <= 0xF4 && Continuation(b) && Continuation(d) && Continuation(e)
    requires (a == 0xF0 ==> b >= 0x90) && (a == 0xF4 ==> b <= 0x8F)
    ensures EncodeScalar(c) == [a, b, d, e]
  {
    var n := (a - 0xF0) * 0x4_0000 + (b - 0x80) * 0x1000 + (d - 0x80) * 0x40 + (e - 0x80);
    assert n / 0x40 == (a - 0xF0) * 0x1000 + (b - 0x80) * 0x40 + (d - 0x80) && n % 0x40 == e - 0x80;
    assert n / 0x1000 == (a - 0xF0) * 0x40 + (b - 0x80);
    assert n / 0x4_0000 == a - 0xF0;
    c := n;
  }

  lemma {:induction false} FirstScalar(s: Bytes) returns (c: Scalar)
    requires s != [] && Utf8(s)
    ensures FirstLen(s) <= |s| && EncodeScalar(c) == s[..FirstLen(s)] && Utf8(s[FirstLen(s)..])
  {
    if s[0] < 0x80 {
      c := s[0];
      assert s[..1] == [s[0]];
    } else if s[0] < 0xE0 {
      c := TwoBytes(s[0], s[1]);
      assert s[..2] == [s[0], s[1]];
    } else if s[0] < 0xF0 {
      c := ThreeBytes(s[0], s[1], s[2]);
      assert s[..3] == [s[0], s[1], s[2]];
    } else {
      c := FourBytes(s[0], s[1], s[2], s[3]);
      assert s[..4] == [s[0], s[1], s[2], s[3]];
    }
  }

  lemma {:induction false} Decoded(s: Bytes) returns (cs: seq<Scalar>)
    requires Utf8(s)
    ensures Encode(cs) == s
  {
    cs := [];
    if s != [] {
      var n := FirstLen(s);
      var c := FirstScalar(s);
      var rest := Decoded(s[n..]);
      cs := [c] + rest;
      assert s == s[..n] + s[n..];
    }
  }

  ghost predicate IsEncoding(s: Bytes)
  {
    exists cs :: Encode(cs) == s
  }

  /** A byte string is accepted if and only if it encodes some sequence of scalar values. */
  lemma {:induction false} Utf8Iff(s: Bytes)
    ensures Utf8(s) <==> IsEncoding(s)
  {
    if Utf8(s) {
      var cs := Decoded(s);
    }
    if IsEncoding(s) {
      var cs :| Encode(cs) == s;
      EncodingAccepted(cs);
    }
  }
}
