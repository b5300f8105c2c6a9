/**
  The Solana transaction wire format: a printer, a reference parser written from the documented layout,
  and the proof that the two are mutually inverse.
 */
module Wire {
  import opened Common
  import opened Codec
  import CompactU16

  datatype Instr = Instr(program: byte, accounts: Vec16, data: Vec16)

  datatype Lookup = Lookup(table: Key, writable: Vec16, readonly: Vec16)

  type Lookups = s: seq<Lookup> | |s| < 0x1_0000

  /** Only versioned messages carry address-table lookups. */
  datatype Version = Legacy | V0(lookups: Lookups)

  datatype Header = Header(sigCount: byte, readonlySigned: byte, readonlyUnsigned: byte)

  type Keys = s: seq<Key> | |s| < 0x1_0000
  type Instrs = s: seq<Instr> | |s| < 0x1_0000
  type Signatures = s: seq<Signature> | |s| < 0x1_0000

  datatype Message = Message(version: Version, header: Header, keys: Keys, blockhash: Key, instrs: Instrs)

  datatype Txn = Txn(signatures: Signatures, message: Message)

  /** The first byte of a message is a version tag when its high bit is set, so a legacy header must not set it. */
  predicate WellFormed(m: Message)
  {
    m.version.Legacy? ==> m.header.sigCount < 0x80
  }

  // ---------- what the fields of a parsed transaction say about an account

  predicate IsSigner(m: Message, i: nat)
  {
    i < m.header.sigCount
  }

  predicate IsWritable(m: Message, i: nat)
  {
    || i < m.header.sigCount - m.header.readonlySigned
    || m.header.sigCount <= i < |m.keys| - m.header.readonlyUnsigned
  }

  // ---------- printing

  function InstrBytes(ix: Instr): (r: Bytes)
  {
    [ix.program] + VecBytes(ix.accounts) + VecBytes(ix.data)
  }

  function LookupBytes(l: Lookup): (r: Bytes)
  {
    KeyBytes(l.table) + VecBytes(l.writable) + VecBytes(l.readonly)
  }

  /** A compact-u16 count followed by that many items. */
  function ManyBytes<T>(xs: seq<T>, print_: T -> Bytes): (r: Bytes)
    requires |xs| < 0x1_0000
  {
    CompactU16.Encode(|xs|) + Concat(xs, print_)
  }

  function HeaderBytes(h: Header): (r: Bytes)
  {
    [h.sigCount, h.readonlySigned, h.readonlyUnsigned]
  }

  function VersionTag(v: Version): (r: Bytes)
  {
    if v.V0? then [0x80] else []
  }

  function LookupsBytes(v: Version): (r: Bytes)
  {
    match v
    case Legacy => []
    case V0(ls) => ManyBytes(ls, LookupBytes)
  }

  /** The message after its version tag. */
  function BodyBytes(m: Message): (r: Bytes)
  {
    HeaderBytes(m.header) + (ManyBytes(m.keys, KeyBytes)
    + (KeyBytes(m.blockhash) + (ManyBytes(m.instrs, InstrBytes) + LookupsBytes(m.version))))
  }

  function MessageBytes(m: Message): (r: Bytes)
  {
    VersionTag(m.version) + BodyBytes(m)
  }

  function TxnBytes(t: Txn): (r: Bytes)
  {
    ManyBytes(t.signatures, SignatureBytes) + MessageBytes(t.message)
  }

  // ---------- parsing

  function ParseInstr(bs: Bytes): (r: Parsed<Instr>)
  {
    if bs == [] then Fail
    else
      var (accounts, afterAccounts) :- ParseVec(bs[1..]);
      var (data, rest) :- ParseVec(afterAccounts);
      Got(Instr(bs[0], accounts, data), rest)
  }

  function ParseLookup(bs: Bytes): (r: Parsed<Lookup>)
  {
    var (table, afterTable) :- ParseKey(bs);
    var (writable, afterWritable) :- ParseVec(afterTable);
    var (readonly, rest) :- ParseVec(afterWritable);
    Got(Lookup(table, writable, readonly), rest)
  }

  function ParseHeader(bs: Bytes): (r: Parsed<Header>)
  {
    if |bs| < 3 then Fail else Got(Header(bs[0], bs[1], bs[2]), bs[3..])
  }

  function ParseMany<T>(parse: Bytes -> Parsed<T>, bs: Bytes): (r: Parsed<seq<T>>)
  {
    var (n, rest) :- ParseU16(bs);
    ParseN(n, parse, rest)
  }

  function ParseLookups(versioned: bool, bs: Bytes): (r: Parsed<Version>)
  {
    if !versioned then Got(Legacy, bs)
    else
      var (ls, rest) :- ParseMany(ParseLookup, bs);
      if |ls| < 0x1_0000 then Got(V0(ls), rest) else Fail
  }

  function ParseBody(versioned: bool, bs: Bytes): (r: Parsed<Message>)
  {
    var (header, bs1) :- ParseHeader(bs);
    var (keys, bs2) :- ParseMany(ParseKey, bs1);
    var (blockhash, bs3) :- ParseKey(bs2);
    var (instrs, bs4) :- ParseMany(ParseInstr, bs3);
    var (version, rest) :- ParseLookups(versioned, bs4);
    if |keys| < 0x1_0000 && |instrs| < 0x1_0000
    then Got(Message(version, header, keys, blockhash, instrs), rest)
    else Fail
  }

  function ParseMessage(bs: Bytes): (r: Parsed<Message>)
  {
    if bs == [] then Fail
    else if bs[0] < 0x80 then ParseBody(false, bs)
    else if bs[0] == 0x80 then ParseBody(true, bs[1..])
    else Fail
  }

  function ParseTxn(bs: Bytes): (r: Parsed<Txn>)
  {
    var (signatures, bs1) :- ParseMany(ParseSignature, bs);
    var (message, rest) :- ParseMessage(bs1);
    if |signatures| < 0x1_0000 then Got(Txn(signatures, message), rest) else Fail
  }

  // ---------- the parser inverts the printer

  lemma {:induction false} InstrRoundTrip(ix: Instr, tail: Bytes)
    ensures ParseInstr(InstrBytes(ix) + tail) == Got(ix, tail)
  {
    var bs := InstrBytes(ix) + tail;
    var afterAccounts := VecBytes(ix.data) + tail;
    assert bs[1..] == VecBytes(ix.accounts) + afterAccounts;
    VecRoundTrip(ix.accounts, afterAccounts);
    VecRoundTrip(ix.data, tail);
  }

  lemma {:induction false} InstrInverse(bs: Bytes)
    requires ParseInstr(bs).Got?
    ensures bs == InstrBytes(ParseInstr(bs).value) + ParseInstr(bs).rest
  {
    VecInverse(bs[1..]);
    var accounts := ParseVec(bs[1..]);
    VecInverse(accounts.rest);
    var data := ParseVec(accounts.rest);
    assert bs == [bs[0]] + bs[1..];
    Regroup([bs[0]], VecBytes(accounts.value), VecBytes(data.value), data.rest);
    assert ParseInstr(bs) == Got(Instr(bs[0], accounts.value, data.value), data.rest);
  }

  lemma {:induction false} InstrInverts()
    ensures Inverts(ParseInstr, InstrBytes)
  {
    forall x: Instr, tail: Bytes ensures ParseInstr(InstrBytes(x) + tail) == Got(x, tail) {
      InstrRoundTrip(x, tail);
    }
    forall bs: Bytes | ParseInstr(bs).Got? ensures bs == InstrBytes(ParseInstr(bs).value) + ParseInstr(bs).rest {
      InstrInverse(bs);
    }
  }

  lemma {:induction false} LookupRoundTrip(l: Lookup, tail: Bytes)
    ensures ParseLookup(LookupBytes(l) + tail) == Got(l, tail)
  {
    var afterWritable := VecBytes(l.readonly) + tail;
    var afterTable := VecBytes(l.writable) + afterWritable;
    assert LookupBytes(l) + tail == KeyBytes(l.table) + afterTable;
    KeyRoundTrip(l.table, afterTable);
    VecRoundTrip(l.writable, afterWritable);
    VecRoundTrip(l.readonly, tail);
  }

  lemma {:induction false} LookupInverse(bs: Bytes)
    requires ParseLookup(bs).Got?
    ensures bs == LookupBytes(ParseLookup(bs).value) + ParseLookup(bs).rest
  {
    KeyInverse(bs);
    var table := ParseKey(bs);
    VecInverse(table.rest);
    var writable := ParseVec(table.rest);
    VecInverse(writable.rest);
    var readonly := ParseVec(writable.rest);
    Regroup(KeyBytes(table.value), VecBytes(writable.value), VecBytes(readonly.value), readonly.rest);
    assert ParseLookup(bs) == Got(Lookup(table.value, writable.value, readonly.value), readonly.rest);
  }

  lemma {:induction false} LookupInverts()
    ensures Inverts(ParseLookup, LookupBytes)
  {
    forall x: Lookup, tail: Bytes ensures ParseLookup(LookupBytes(x) + tail) == Got(x, tail) {
      LookupRoundTrip(x, tail);
    }
    forall bs: Bytes | ParseLookup(bs).Got? ensures bs == LookupBytes(ParseLookup(bs).value) + ParseLookup(bs).rest {
      LookupInverse(bs);
    }
  }

  lemma {:induction false} ManyRoundTrip<T(!new)>(
    xs: seq<T>, parse: Bytes -> Parsed<T>, print_: T -> Bytes, tail: Bytes)
    requires Inverts(parse, print_) && |xs| < 0x1_0000
    ensures ParseMany(parse, ManyBytes(xs, print_) + tail) == Got(xs, tail)
  {
    Regroup(CompactU16.Encode(|xs|), Concat(xs, print_), [], tail);
    U16RoundTrip(|xs|, Concat(xs, print_) + tail);
    ParseNConcat(xs, parse, print_, tail);
  }

  lemma {:induction false} ManyInverse<T(!new)>(parse: Bytes -> Parsed<T>, print_: T -> Bytes, bs: Bytes)
    requires Inverts(parse, print_) && ParseMany(parse, bs).Got?
    ensures var r := ParseMany(parse, bs); |r.value| < 0x1_0000 && bs == ManyBytes(r.value, print_) + r.rest
  {
    U16Inverse(bs);
    var n := ParseU16(bs);
    ConcatParseN(n.value, parse, print_, n.rest);
    var xs := ParseN(n.value, parse, n.rest);
    Regroup(CompactU16.Encode(n.value), Concat(xs.value, print_), [], xs.rest);
  }

  lemma {:induction false} LookupsRoundTrip(v: Version, tail: Bytes)
    ensures ParseLookups(v.V0?, LookupsBytes(v) + tail) == Got(v, tail)
  {
    match v
    case Legacy =>
      assert LookupsBytes(v) + tail == tail;
    case V0(ls) =>
      LookupInverts();
      ManyRoundTrip(ls, ParseLookup, LookupBytes, tail);
  }

  lemma {:induction false} BodyRoundTrip(m: Message, tail: Bytes)
    ensures ParseBody(m.version.V0?, BodyBytes(m) + tail) == Got(m, tail)
  {
    var bs4 := LookupsBytes(m.version) + tail;
    var bs3 := ManyBytes(m.instrs, InstrBytes) + bs4;
    var bs2 := KeyBytes(m.blockhash) + bs3;
    var bs1 := ManyBytes(m.keys, KeyBytes) + bs2;
    var bs := HeaderBytes(m.header) + bs1;
    RegroupFive(HeaderBytes(m.header), ManyBytes(m.keys, KeyBytes), KeyBytes(m.blockhash),
                ManyBytes(m.instrs, InstrBytes), LookupsBytes(m.version), tail);
    assert BodyBytes(m) + tail == bs;
    assert ParseHeader(bs) == Got(m.header, bs1) by {
      assert bs[3..] == bs1;
    }
    KeyInverts();
    InstrInverts();
    ManyRoundTrip(m.keys, ParseKey, KeyBytes, bs2);
    KeyRoundTrip(m.blockhash, bs3);
    ManyRoundTrip(m.instrs, ParseInstr, InstrBytes, bs4);
    LookupsRoundTrip(m.version, tail);
  }

  lemma {:induction false} BodyStart(m: Message)
    ensures BodyBytes(m) != [] && BodyBytes(m)[0] == m.header.sigCount
  {
  }

  /** A legacy message starts with its three counts, a versioned one with the tag 0x80 and then the counts. */
  lemma {:induction false} MessageStart(m: Message)
    ensures var bs, h := MessageBytes(m), m.header;
      var i := if m.version.V0? then 1 else 0;
      && |bs| >= i + 3 && (m.version.V0? ==> bs[0] == 0x80)
      && bs[i] == h.sigCount && bs[i + 1] == h.readonlySigned && bs[i + 2] == h.readonlyUnsigned
  {
    var body := BodyBytes(m);
    assert body[0] == m.header.sigCount && body[1] == m.header.readonlySigned && body[2] == m.header.readonlyUnsigned;
  }

  lemma {:induction false} MessageRoundTrip(m: Message, tail: Bytes)
    requires WellFormed(m)
    ensures ParseMessage(MessageBytes(m) + tail) == Got(m, tail)
  {
    BodyRoundTrip(m, tail);
    BodyStart(m);
    Tagged(BodyBytes(m), tail);
  }

  lemma {:induction false} Tagged(body: Bytes, tail: Bytes)
    requires body != []
    ensures var bs := [0x80] + body + tail; bs != [] && bs[0] == 0x80 && bs[1..] == body + tail
    ensures var bs := [] + body + tail; bs == body + tail && bs != [] && bs[0] == body[0]
  {
  }

  /** Parsing a printed transaction, whatever follows it, returns that transaction and exactly what follows. */
  lemma {:induction false} TxnRoundTrip(t: Txn, tail: Bytes)
    requires WellFormed(t.message)
    ensures ParseTxn(TxnBytes(t) + tail) == Got(t, tail)
  {
    Regroup(ManyBytes(t.signatures, SignatureBytes), MessageBytes(t.message), [], tail);
    SignatureInverts();
    ManyRoundTrip(t.signatures, ParseSignature, SignatureBytes, MessageBytes(t.message) + tail);
    MessageRoundTrip(t.message, tail);
  }

  lemma {:induction false} LookupsInverse(versioned: bool, bs: Bytes)
    requires ParseLookups(versioned, bs).Got?
    ensures var r := ParseLookups(versioned, bs); r.value.V0? == versioned && bs == LookupsBytes(r.value) + r.rest
  {
    if versioned {
      LookupInverts();
      ManyInverse(ParseLookup, LookupBytes, bs);
    }
  }

  lemma {:induction false} HeaderInverse(bs: Bytes)
    requires ParseHeader(bs).Got?
    ensures bs == HeaderBytes(ParseHeader(bs).value) + ParseHeader(bs).rest
    ensures bs[0] == ParseHeader(bs).value.sigCount
  {
    assert bs == [bs[0], bs[1], bs[2]] + bs[3..];
  }

  lemma {:induction false} BodyInverse(versioned: bool, bs: Bytes)
    requires ParseBody(versioned, bs).Got?
    ensures var r := ParseBody(versioned, bs);
      r.value.version.V0? == versioned && r.value.header.sigCount == bs[0] && bs == BodyBytes(r.value) + r.rest
  {
    KeyInverts();
    InstrInverts();
    HeaderInverse(bs);
    var header := ParseHeader(bs);
    ManyInverse(ParseKey, KeyBytes, header.rest);
    var keys := ParseMany(ParseKey, header.rest);
    KeyInverse(keys.rest);
    var hash := ParseKey(keys.rest);
    ManyInverse(ParseInstr, InstrBytes, hash.rest);
    var instrs := ParseMany(ParseInstr, hash.rest);
    LookupsInverse(versioned, instrs.rest);
    var version := ParseLookups(versioned, instrs.rest);
    var m := Message(version.value, header.value, keys.value, hash.value, instrs.value);
    assert ParseBody(versioned, bs) == Got(m, version.rest);
    RegroupFive(HeaderBytes(header.value), ManyBytes(keys.value, KeyBytes), KeyBytes(hash.value),
                ManyBytes(instrs.value, InstrBytes), LookupsBytes(version.value), version.rest);
  }

  lemma {:induction false} MessageInverse(bs: Bytes)
    requires ParseMessage(bs).Got?
    ensures var r := ParseMessage(bs); WellFormed(r.value) && bs == MessageBytes(r.value) + r.rest
  {
    if bs[0] < 0x80 {
      BodyInverse(false, bs);
      assert [] + BodyBytes(ParseMessage(bs).value) == BodyBytes(ParseMessage(bs).value);
    } else {
      BodyInverse(true, bs[1..]);
      assert bs == [0x80] + bs[1..];
      Regroup([0x80], BodyBytes(ParseMessage(bs).value), [], ParseMessage(bs).rest);
    }
  }

  /** Every accepted byte string is the print of the transaction returned, so a transaction has one encoding. */
  lemma {:induction false} TxnInverse(bs: Bytes)
    requires ParseTxn(bs).Got?
    ensures var r := ParseTxn(bs); WellFormed(r.value.message) && bs == TxnBytes(r.value) + r.rest
  {
    SignatureInverts();
    ManyInverse(ParseSignature, SignatureBytes, bs);
    var signatures := ParseMany(ParseSignature, bs);
    MessageInverse(signatures.rest);
    var message := ParseMessage(signatures.rest);
    Regroup(ManyBytes(signatures.value, SignatureBytes), MessageBytes(message.value), [], message.rest);
  }
}
