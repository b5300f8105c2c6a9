/** Program-derived addresses: the search for a bump seed, and direct creation. */
module ProgramAddress {
  import opened Common
  import opened Curve

  const MAX_SEED_LEN := 32
  const MAX_SEEDS := 16

  /** The ASCII bytes of "ProgramDerivedAddress". */
  const MARKER: Bytes := [
    0x50, 0x72, 0x6f, 0x67, 0x72, 0x61, 0x6d, 0x44, 0x65, 0x72, 0x69,
    0x76, 0x65, 0x64, 0x41, 0x64, 0x64, 0x72, 0x65, 0x73, 0x73]

  datatype AddressError = DerivationFailed | MaxSeedLengthExceeded | InvalidInput

  /** SHA-256 as a function of everything appended to it. */
  type Hash = Bytes -> Key

  /** The hash state: what has been appended so far. */
  class Sha256 {
    var absorbed: Bytes

    constructor Init()
      ensures absorbed == []
    {
      absorbed := [];
    }

    /** A bitwise copy of another state. */
    constructor Copy(other: Sha256)
      ensures absorbed == other.absorbed
    {
      absorbed := other.absorbed;
    }

    method Append(bs: Bytes)
      modifies this
      ensures absorbed == old(absorbed) + bs
    {
      absorbed := absorbed + bs;
    }

    method Fini(hash: Hash) returns (digest: Key)
      ensures digest == hash(absorbed)
    {
      digest := hash(absorbed);
    }
  }

  predicate SeedsOk(seeds: seq<Bytes>)
  {
    |seeds| <= MAX_SEEDS && forall i :: 0 <= i < |seeds| ==> |seeds[i]| <= MAX_SEED_LEN
  }

  function Joined(seeds: seq<Bytes>): (r: Bytes)
  {
    if seeds == [] then [] else Joined(seeds[..|seeds| - 1]) + seeds[|seeds| - 1]
  }

  /** The address of a list of seeds, hashed from scratch. */
  function Address(hash: Hash, seeds: seq<Bytes>, program: Key): (r: Key)
  {
    hash(Joined(seeds) + program + MARKER)
  }

  /** The address tried for a bump: the bump is one more seed. */
  function Candidate(hash: Hash, seeds: seq<Bytes>, program: Key, bump: byte): (r: Key)
  {
    Address(hash, seeds + [[bump]], program)
  }

  // ---------- what is hashed, by position

  /** Where seed `i` starts: the lengths of the seeds before it. */
  function SeedStart(seeds: seq<Bytes>, i: nat): (r: nat)
    requires i <= |seeds|
  {
    if i == 0 then 0 else SeedStart(seeds, i - 1) + |seeds[i - 1]|
  }

  /** `part` stands in `bs` at `at`. */
  predicate StandsAt(bs: Bytes, at: nat, part: Bytes)
  {
    at + |part| <= |bs| && bs[at..at + |part|] == part
  }

  /** The last 21 bytes are the characters of the marker. */
  predicate EndsWithMarker(bs: Bytes, at: nat)
  {
    |bs| == at + 21 && forall j :: 0 <= j < 21 ==> bs[at + j] == "ProgramDerivedAddress"[j] as int
  }

  /** The bytes behind an address: the seeds one after another, the bump if any, the program and the marker. */
  predicate IsPreimage(bs: Bytes, seeds: seq<Bytes>, bump: Option<byte>, program: Key)
  {
    var end := SeedStart(seeds, |seeds|);
    var at := end + if bump.Some? then 1 else 0;
    && (forall i :: 0 <= i < |seeds| ==> StandsAt(bs, SeedStart(seeds, i), seeds[i]))
    && (bump.Some? ==> end < |bs| && bs[end] == bump.value)
    && StandsAt(bs, at, program) && EndsWithMarker(bs, at + 32)
  }

  ghost predicate HashOfPreimage(hash: Hash, address: Key, seeds: seq<Bytes>, bump: Option<byte>, program: Key)
  {
    exists bs :: IsPreimage(bs, seeds, bump, program) && address == hash(bs)
  }

  lemma {:induction false} StartOfPrefix(seeds: seq<Bytes>, n: nat, i: nat)
    requires i <= n <= |seeds|
    ensures SeedStart(seeds[..n], i) == SeedStart(seeds, i)
  {
    if i > 0 {
      StartOfPrefix(seeds, n, i - 1);
    }
  }

  lemma {:induction false} JoinedLayout(seeds: seq<Bytes>, i: nat)
    ensures |Joined(seeds)| == SeedStart(seeds, |seeds|)
    ensures i < |seeds| ==> StandsAt(Joined(seeds), SeedStart(seeds, i), seeds[i])
  {
    if seeds != [] {
      var n := |seeds| - 1;
      JoinedLayout(seeds[..n], i);
      StartOfPrefix(seeds, n, n);
      if i < n {
        StartOfPrefix(seeds, n, i);
      }
    }
  }

  lemma {:induction false} MarkerSpelled(a: Bytes)
    ensures EndsWithMarker(a + MARKER, |a|)
  {
    var bs := a + MARKER;
    forall j | 0 <= j < 21 ensures bs[|a| + j] == "ProgramDerivedAddress"[j] as int {
      assert bs[|a| + j] == MARKER[j];
    }
  }

  lemma {:induction false} SeedsStand(seeds: seq<Bytes>, rest: Bytes)
    ensures forall i :: 0 <= i < |seeds| ==> StandsAt(Joined(seeds) + rest, SeedStart(seeds, i), seeds[i])
  {
    forall i | 0 <= i < |seeds| ensures StandsAt(Joined(seeds) + rest, SeedStart(seeds, i), seeds[i]) {
      JoinedLayout(seeds, i);
      PartOfMore(Joined(seeds), rest, SeedStart(seeds, i), seeds[i]);
    }
  }

  lemma {:induction false} ProgramStands(a: Bytes, program: Key)
    ensures StandsAt(a + program + MARKER, |a|, program)
  {
  }

  lemma {:induction false} PreimageOf(seeds: seq<Bytes>, program: Key)
    ensures IsPreimage(Joined(seeds) + program + MARKER, seeds, None, program)
  {
    var a := Joined(seeds);
    assert a + program + MARKER == a + (program + MARKER);
    SeedsStand(seeds, program + MARKER);
    JoinedLayout(seeds, 0);
    ProgramStands(a, program);
    MarkerSpelled(a + program);
  }

  /** An address hashes the seeds, the program and the marker, each in its place. */
  lemma {:induction false} AddressLayout(hash: Hash, seeds: seq<Bytes>, program: Key)
    ensures HashOfPreimage(hash, Address(hash, seeds, program), seeds, None, program)
  {
    PreimageOf(seeds, program);
  }

  lemma {:induction false} PartOfMore(a: Bytes, b: Bytes, at: nat, part: Bytes)
    requires StandsAt(a, at, part)
    ensures StandsAt(a + b, at, part)
  {
    assert (a + b)[at..at + |part|] == a[at..at + |part|];
  }

  /** A candidate hashes the seeds, then the bump as one byte, then the program and the marker. */
  lemma {:induction false} CandidateLayout(hash: Hash, seeds: seq<Bytes>, program: Key, bump: byte)
    ensures HashOfPreimage(hash, Candidate(hash, seeds, program, bump), seeds, Some(bump), program)
  {
    var more, n := seeds + [[bump]], |seeds|;
    AddressLayout(hash, more, program);
    var bs :| IsPreimage(bs, more, None, program) && Candidate(hash, seeds, program, bump) == hash(bs);
    assert more[..n] == seeds;
    StartOfPrefix(more, n, n);
    forall i | 0 <= i < n ensures StandsAt(bs, SeedStart(seeds, i), seeds[i]) {
      assert StandsAt(bs, SeedStart(more, i), more[i]);
      StartOfPrefix(more, n, i);
    }
    assert StandsAt(bs, SeedStart(more, n), more[n]);
    BumpByte(bs, SeedStart(more, n), bump);
    assert IsPreimage(bs, seeds, Some(bump), program);
  }

  lemma {:induction false} BumpByte(bs: Bytes, at: nat, bump: byte)
    requires StandsAt(bs, at, [bump])
    ensures at < |bs| && bs[at] == bump
  {
    assert bs[at..at + 1][0] == bs[at];
  }

  // ---------- the search

  /** `bump` is the greatest in 1..255 whose candidate has no point on the curve. */
  ghost predicate IsFound(hash: Hash, seeds: seq<Bytes>, program: Key, address: Key, bump: byte)
  {
    && 1 <= bump && address == Candidate(hash, seeds, program, bump) && !HasPoint(address)
    && forall b: byte :: bump < b ==> HasPoint(Candidate(hash, seeds, program, b))
  }

  /** The seed checks both functions start with. */
  method CheckSeeds(seeds: seq<Bytes>) returns (ok: bool)
    ensures ok <==> SeedsOk(seeds)
  {
    if |seeds| > MAX_SEEDS {
      return false;
    }
    for i := 0 to |seeds|
      invariant forall j :: 0 <= j < i ==> |seeds[j]| <= MAX_SEED_LEN
    {
      if |seeds[i]| > MAX_SEED_LEN {
        return false;
      }
    }
    return true;
  }

  method AppendSeeds(sha: Sha256, seeds: seq<Bytes>)
    modifies sha
    ensures sha.absorbed == old(sha.absorbed) + Joined(seeds)
  {
    for i := 0 to |seeds|
      invariant sha.absorbed == old(sha.absorbed) + Joined(seeds[..i])
    {
      assert seeds[..i + 1][..i] == seeds[..i];
      sha.Append(seeds[i]);
    }
    assert seeds[..|seeds|] == seeds;
  }

  /** Finishing a copy of the state after the seeds gives the candidate that rehashing everything gives. */
  method TryBump(base: Sha256, hash: Hash, program: Key, bump: byte, ghost seeds: seq<Bytes>) returns (h: Key)
    requires base.absorbed == Joined(seeds)
    ensures h == Candidate(hash, seeds, program, bump)
  {
    var sha := new Sha256.Copy(base);
    sha.Append([bump]);
    sha.Append(program);
    sha.Append(MARKER);
    h := sha.Fini(hash);
    assert (seeds + [[bump]])[..|seeds|] == seeds;
  }

  /** The search is maximal: it returns the greatest bump in 1..255 that works, or fails when none does. */
  method FindProgramAddress(hash: Hash, sqrtRatio: (int, int) -> bool, seeds: seq<Bytes>, program: Key)
    returns (r: Result<(Key, byte), AddressError>)
    requires forall u, v :: sqrtRatio(u, v) <==> IsSquareRatio(u, v)
    ensures r == Err(MaxSeedLengthExceeded) <==> |seeds| > 16 || exists i :: 0 <= i < |seeds| && |seeds[i]| > 32
    ensures SeedsOk(seeds) && r.Ok? ==> IsFound(hash, seeds, program, r.value.0, r.value.1)
    ensures r.Ok? ==> HashOfPreimage(hash, r.value.0, seeds, Some(r.value.1), program)
    ensures SeedsOk(seeds) && r.Err? ==>
      r.error == DerivationFailed && forall b: byte :: 1 <= b ==> HasPoint(Candidate(hash, seeds, program, b))
  {
    var ok := CheckSeeds(seeds);
    if !ok {
      return Err(MaxSeedLengthExceeded);
    }
    var base := new Sha256.Init();
    AppendSeeds(base, seeds);
    var bump: byte := 0xff;
    for i := 0 to 0xff
      invariant bump == 0xff - i && base.absorbed == Joined(seeds)
      invariant forall b: byte :: bump < b ==> HasPoint(Candidate(hash, seeds, program, b))
    {
      var h := TryBump(base, hash, program, bump, seeds);
      var on := PointIsOnCurve(h, sqrtRatio);
      if !on {
        CandidateLayout(hash, seeds, program, bump);
        return Ok((h, bump));
      }
      bump := bump - 1;
    }
    return Err(DerivationFailed);
  }

  // ---------- direct creation

  /** What decompressing an encoding yields, and how a point is encoded: the library's two conversions. */
  datatype Conversions = Conversions(fromBytes: Key -> Option<(int, int)>, toBytes: ((int, int)) -> Key)

  /** A point with the encoded y, and with the parity that the sign bit asks for if any point has it. */
  ghost predicate Decompresses(bs: Key, x: int, y: int)
  {
    && 0 <= x < P && y == EncodedY(bs) % P && OnCurve(x, y)
    && (RootOfSign(y, SignBit(bs)) ==> x % 2 == SignBit(bs))
  }

  ghost predicate FromBytesOk(c: Conversions, bs: Key)
  {
    match c.fromBytes(bs)
    case None => !Canonical(bs)
    case Some(p) => Decompresses(bs, p.0, p.1)
  }

  /** The number that the encoding of a point spells. */
  function CodeOf(x: int, y: int): (r: nat)
    requires 0 <= x < P && 0 <= y < P
    ensures r < 2 * TWO_TO_255
  {
    y + (x % 2) * TWO_TO_255
  }

  ghost predicate ToBytesOk(c: Conversions, x: int, y: int)
  {
    0 <= x < P && 0 <= y < P ==> LittleEndian(c.toBytes((x, y))) == CodeOf(x, y)
  }

  /**
    Section 5.1.2 and 5.1.3 of RFC 8032: a point is encoded as its reduced y with the parity of x on top;
    decompression solves for x. Encodings that are not canonical may be decompressed or refused.
   */
  ghost predicate ConversionsOk(c: Conversions)
  {
    && (forall bs: Key :: FromBytesOk(c, bs))
    && (forall x: int, y: int :: ToBytesOk(c, x, y))
  }

  /** The bytes decompress and compress back to themselves. */
  predicate BytesAreCurvePoint(c: Conversions, bs: Key)
  {
    match c.fromBytes(bs)
    case None => false
    case Some(p) => c.toBytes(p) == bs
  }

  function Created(c: Conversions, hash: Hash, seeds: seq<Bytes>, program: Key): (r: Result<Key, AddressError>)
  {
    if !SeedsOk(seeds) then Err(MaxSeedLengthExceeded)
    else if BytesAreCurvePoint(c, Address(hash, seeds, program)) then Err(InvalidInput)
    else Ok(Address(hash, seeds, program))
  }

  /** What creation answers: the hash of the preimage, or why not. */
  ghost predicate CreationAnswers(
    c: Conversions, hash: Hash, seeds: seq<Bytes>, program: Key, r: Result<Key, AddressError>)
  {
    && (r == Err(MaxSeedLengthExceeded) <==> |seeds| > 16 || exists i :: 0 <= i < |seeds| && |seeds[i]| > 32)
    && (r.Ok? ==> HashOfPreimage(hash, r.value, seeds, None, program))
    && (ConversionsOk(c) ==> (r.Ok? <==> SeedsOk(seeds) && !Canonical(Address(hash, seeds, program))))
    && (r.Err? ==> r.error == MaxSeedLengthExceeded || r.error == InvalidInput)
  }

  lemma {:induction false} CreatedAnswers(c: Conversions, hash: Hash, seeds: seq<Bytes>, program: Key)
    ensures CreationAnswers(c, hash, seeds, program, Created(c, hash, seeds, program))
  {
    AddressLayout(hash, seeds, program);
    if ConversionsOk(c) {
      CurvePointIff(c, Address(hash, seeds, program));
    }
  }

  method CreateProgramAddress(c: Conversions, hash: Hash, seeds: seq<Bytes>, program: Key)
    returns (r: Result<Key, AddressError>)
    ensures r == Created(c, hash, seeds, program) && CreationAnswers(c, hash, seeds, program, r)
  {
    CreatedAnswers(c, hash, seeds, program);
    var ok := CheckSeeds(seeds);
    if !ok {
      return Err(MaxSeedLengthExceeded);
    }
    var sha := new Sha256.Init();
    AppendSeeds(sha, seeds);
    sha.Append(program);
    sha.Append(MARKER);
    assert sha.absorbed == Joined(seeds) + program + MARKER;
    var h := sha.Fini(hash);
    if BytesAreCurvePoint(c, h) {
      return Err(InvalidInput);
    }
    return Ok(h);
  }

  /** Decompressing and compressing gives the same bytes exactly for canonical encodings. */
  lemma {:induction false} CurvePointIff(c: Conversions, bs: Key)
    requires ConversionsOk(c)
    ensures BytesAreCurvePoint(c, bs) <==> Canonical(bs)
  {
    assert FromBytesOk(c, bs);
    if c.fromBytes(bs).Some? {
      var (x, y) := c.fromBytes(bs).value;
      assert ToBytesOk(c, x, y);
      if c.toBytes((x, y)) == bs {
        CodeParts(bs, x, y);
        assert PointWithSign(x, y, x % 2);
      } else if Canonical(bs) {
        SmallMod(EncodedY(bs));
        SameCode(bs, c.toBytes((x, y)), x, y);
      }
    }
  }

  lemma {:induction false} CodeParts(bs: Key, x: int, y: int)
    requires 0 <= x < P && 0 <= y < P && LittleEndian(bs) == CodeOf(x, y)
    ensures EncodedY(bs) == y && SignBit(bs) == x % 2
  {
  }

  lemma {:induction false} SameCode(bs: Key, encoded: Key, x: int, y: int)
    requires 0 <= x < P && y == EncodedY(bs) < P && x % 2 == SignBit(bs) && LittleEndian(encoded) == CodeOf(x, y)
    ensures encoded == bs
  {
    EncodingParts(bs);
    ValueDigits(encoded);
    ValueDigits(bs);
  }

  // ---------- search and creation compared

  /**
    A found address is created again from the seeds plus the bump if and only if there is room for one more
    seed; with a full seed list creation refuses what the search returned.
   */
  lemma {:induction false} FindThenCreate(
    c: Conversions, hash: Hash, seeds: seq<Bytes>, program: Key, address: Key, bump: byte)
    requires ConversionsOk(c) && SeedsOk(seeds) && IsFound(hash, seeds, program, address, bump)
    ensures Created(c, hash, seeds + [[bump]], program) ==
      if |seeds| < MAX_SEEDS then Ok(address) else Err(MaxSeedLengthExceeded)
  {
    MoreSeeds(seeds, bump);
    CurvePointIff(c, address);
    if Canonical(address) {
      CanonicalHasPoint(address);
    }
  }

  lemma {:induction false} MoreSeeds(seeds: seq<Bytes>, bump: byte)
    requires SeedsOk(seeds)
    ensures SeedsOk(seeds + [[bump]]) <==> |seeds| < MAX_SEEDS
  {
    var more := seeds + [[bump]];
    assert more[|seeds|] == [bump];
    assert forall i :: 0 <= i < |seeds| ==> more[i] == seeds[i];
  }

  /**
    Where the two curve tests differ: creation accepts a bump that the search skips exactly when its address
    is an encoding of a curve point that is not canonical. It never refuses one that the search takes.
   */
  lemma {:induction false} TestsDifferIff(c: Conversions, hash: Hash, seeds: seq<Bytes>, program: Key, bump: byte)
    requires ConversionsOk(c) && SeedsOk(seeds) && |seeds| < MAX_SEEDS
    ensures var address := Candidate(hash, seeds, program, bump);
      && (Created(c, hash, seeds + [[bump]], program) == if Canonical(address) then Err(InvalidInput) else Ok(address))
      && (Created(c, hash, seeds + [[bump]], program).Ok? != !HasPoint(address) <==>
          HasPoint(address) && !Canonical(address))
  {
    var address := Candidate(hash, seeds, program, bump);
    MoreSeeds(seeds, bump);
    CurvePointIff(c, address);
    if Canonical(address) {
      CanonicalHasPoint(address);
    }
  }

  /** They do differ: on a hash value with y = P + 1 every bump is skipped, and every bump is accepted. */
  lemma {:induction false} TestsDiffer(c: Conversions, seeds: seq<Bytes>, program: Key, bump: byte)
    requires ConversionsOk(c) && SeedsOk(seeds) && |seeds| < MAX_SEEDS
    ensures var hash: Hash := _ => UNREDUCED;
      && (forall b: byte :: HasPoint(Candidate(hash, seeds, program, b)))
      && Created(c, hash, seeds + [[bump]], program) == Ok(UNREDUCED)
  {
    UnreducedPoint();
    TestsDifferIff(c, _ => UNREDUCED, seeds, program, bump);
  }

  // ---------- conversions exist

  /** A point that a canonical encoding names, if there is any. */
  ghost function Decompressed(bs: Key): (r: Option<(int, int)>)
  {
    if Canonical(bs) then
      var x :| PointWithSign(x, EncodedY(bs), SignBit(bs));
      Some((x, EncodedY(bs)))
    else None
  }

  function Compressed(p: (int, int)): (r: Key)
  {
    if 0 <= p.0 < P && 0 <= p.1 < P then Digits(CodeOf(p.0, p.1), 32) else Zeros(32)
  }

  /** The contract of the conversions can be met. */
  lemma {:induction false} ConversionsExist() returns (c: Conversions)
    ensures ConversionsOk(c)
  {
    c := Conversions((bs: Key) => Decompressed(bs), p => Compressed(p));
    forall bs: Key ensures FromBytesOk(c, bs) {
      DecompressedOk(bs);
    }
    forall x: int, y: int ensures ToBytesOk(c, x, y) {
      if 0 <= x < P && 0 <= y < P {
        CompressedOk(x, y);
      }
    }
  }

  lemma {:induction false} DecompressedOk(bs: Key)
    ensures Decompressed(bs).None? ==> !Canonical(bs)
    ensures Decompressed(bs).Some? ==> Decompresses(bs, Decompressed(bs).value.0, Decompressed(bs).value.1)
  {
    if Canonical(bs) {
      SmallMod(EncodedY(bs));
    }
  }

  lemma {:induction false} CompressedOk(x: int, y: int)
    requires 0 <= x < P && 0 <= y < P
    ensures LittleEndian(Compressed((x, y))) == CodeOf(x, y)
  {
    DigitsOf32(CodeOf(x, y));
  }
}
