/** The curve test of the address search: field elements modulo the prime, overwritten in place. */
module Curve {
  import opened Common

  /** The prime of the field, two to the 255th minus 19. */
  const P: int := 0x7fffffffffffffffffffffffffffffffffffffffffffffffffffffffffffffed

  /** The curve constant d of section 5.1 of RFC 8032. */
  const D: int := 37095705934669439343138083508754565189542113879843219016388785533085940283555

  const TWO_TO_255: int := 0x8000000000000000000000000000000000000000000000000000000000000000

  function LittleEndian(bs: Bytes): (r: nat)
  {
    if bs == [] then 0 else bs[0] + 0x100 * LittleEndian(bs[1..])
  }

  /** The y coordinate an encoding names: the low 255 bits, as section 5.1.3 of RFC 8032 reads them. */
  function EncodedY(bs: Key): (r: nat)
  {
    LittleEndian(bs) % TWO_TO_255
  }

  /** The curve equation, -x^2 + y^2 = 1 + d x^2 y^2, modulo `m`. */
  ghost predicate Equation(x: int, y: int, m: int, d: int)
    requires m > 0
  {
    (-(x * x) + y * y - (1 + d * (x * x) * (y * y))) % m == 0
  }

  /** `e` is the difference between the two sides of the equation for the curve constant. */
  ghost predicate Residual(e: int, x: int, y: int)
  {
    e == -(x * x) + y * y - (1 + D * (x * x) * (y * y))
  }

  /** The two sides are equal modulo the prime. */
  ghost predicate OnCurve(x: int, y: int)
  {
    forall e :: Residual(e, x, y) ==> e % P == 0
  }

  lemma {:induction false} CurveEquation(x: int, y: int)
    ensures OnCurve(x, y) <==> Equation(x, y, P, D)
  {
    assert Residual(-(x * x) + y * y - (1 + D * (x * x) * (y * y)), x, y);
  }

  /** Some x completes the encoded y to a point of the curve. */
  ghost predicate HasPoint(bs: Key)
  {
    exists x :: OnCurve(x, EncodedY(bs))
  }

  /** The last bit of an encoding, which names one of the two roots by its parity. */
  function SignBit(bs: Key): (r: nat)
  {
    LittleEndian(bs) / TWO_TO_255
  }

  ghost predicate PointWithSign(x: int, y: int, sign: int)
  {
    0 <= x < P && OnCurve(x, y) && x % 2 == sign
  }

  ghost predicate RootOfSign(y: int, sign: int)
  {
    exists x :: PointWithSign(x, y, sign)
  }

  /** The encoding of a point: y is reduced, and there is a reduced x of the parity that the sign bit names. */
  ghost predicate Canonical(bs: Key)
  {
    EncodedY(bs) < P && RootOfSign(EncodedY(bs), SignBit(bs))
  }

  /** `v x^2 = u` has a solution: what `sqrt_ratio` decides. */
  ghost predicate IsSquareRatio(u: int, v: int)
  {
    exists x :: Solves(x, u, v)
  }

  ghost predicate Solves(x: int, u: int, v: int)
  {
    (v * (x * x) - u) % P == 0
  }

  /** A field element in a cell that the field operations overwrite. */
  class Fe {
    var v: int

    constructor (v: int)
      ensures this.v == v
    {
      this.v := v;
    }
  }

  method FromBytes(r: Fe, bs: Key)
    modifies r
    ensures r.v == EncodedY(bs) % P
  {
    r.v := EncodedY(bs) % P;
  }

  method Sqr(r: Fe, a: Fe)
    modifies r
    ensures r.v == old(a.v * a.v) % P
  {
    r.v := a.v * a.v % P;
  }

  method Mul(r: Fe, a: Fe, b: Fe)
    modifies r
    ensures r.v == old(a.v * b.v) % P
  {
    r.v := a.v * b.v % P;
  }

  method Add(r: Fe, a: Fe, b: Fe)
    modifies r
    ensures r.v == old(a.v + b.v) % P
  {
    r.v := (a.v + b.v) % P;
  }

  method Sub(r: Fe, a: Fe, b: Fe)
    modifies r
    ensures r.v == old(a.v - b.v) % P
  {
    r.v := (a.v - b.v) % P;
  }

  /** The test holds if and only if some x satisfies the curve equation. */
  method PointIsOnCurve(bs: Key, sqrtRatio: (int, int) -> bool) returns (on: bool)
    requires forall u, v :: sqrtRatio(u, v) <==> IsSquareRatio(u, v)
    ensures on <==> HasPoint(bs)
  {
    var y := new Fe(0);
    var u := new Fe(0);
    var v := new Fe(0);
    var d := new Fe(D);
    var one := new Fe(1);
    FromBytes(y, bs);
    Sqr(u, y);
    Mul(v, u, d);
    Sub(u, u, one);
    Add(v, v, one);
    on := sqrtRatio(u.v, v.v);
    TestMeansPoint(EncodedY(bs), u.v, v.v);
  }

  // ---------- the algebra

  /** `a` and `b` differ by a multiple of the modulus. */
  ghost predicate Congruent(a: int, b: int, m: int)
  {
    exists k: int :: Differ(a, b, k, m)
  }

  ghost predicate Differ(a: int, b: int, k: int, m: int)
  {
    a == b + k * m
  }

  lemma {:induction false} ModShift(a: int, k: int, m: int)
    requires m > 0
    ensures (a + k * m) % m == a % m
  {
    var q, r := a / m, a % m;
    assert a + k * m == (q + k) * m + r;
    DivUnique(a + k * m, q + k, r, m);
  }

  lemma {:induction false} DivUnique(a: int, q: int, r: int, m: int)
    requires m > 0 && a == q * m + r && 0 <= r < m
    ensures a % m == r
  {
    var q', r' := a / m, a % m;
    assert a == q' * m + r';
    assert (q - q') * m == q * m - q' * m == r' - r;
    SmallMultiple(q - q', m);
  }

  lemma {:induction false} SmallMultiple(t: int, m: int)
    requires m > 0 && -m < t * m < m
    ensures t == 0
  {
    if t >= 1 {
      MultipleGrows(t, m);
    } else if t <= -1 {
      MultipleGrows(-t, m);
    }
  }

  lemma {:induction false} MultipleGrows(t: int, m: int)
    requires t >= 1 && m > 0
    ensures t * m >= m
  {
    if t > 1 {
      MultipleGrows(t - 1, m);
      assert t * m == (t - 1) * m + m;
    }
  }

  lemma {:induction false} CongruentMod(a: int, b: int, m: int)
    requires m > 0 && Congruent(a, b, m)
    ensures a % m == b % m
  {
    var k: int :| Differ(a, b, k, m);
    ModShift(b, k, m);
  }

  lemma {:induction false} ModCongruent(a: int, m: int)
    requires m > 0
    ensures Congruent(a % m, a, m)
  {
    assert a % m == a + (-(a / m)) * m;
    assert Differ(a % m, a, -(a / m), m);
  }

  lemma {:induction false} CongruentTrans(a: int, b: int, c: int, m: int)
    requires Congruent(a, b, m) && Congruent(b, c, m)
    ensures Congruent(a, c, m)
  {
    var j: int :| Differ(a, b, j, m);
    var k: int :| Differ(b, c, k, m);
    assert a == c + (j + k) * m;
    assert Differ(a, c, j + k, m);
  }

  lemma {:induction false} CongruentAdd(a: int, b: int, c: int, m: int)
    requires Congruent(a, b, m)
    ensures Congruent(a + c, b + c, m)
  {
    var k: int :| Differ(a, b, k, m);
    assert Differ(a + c, b + c, k, m);
  }

  lemma {:induction false} CongruentMul(a: int, b: int, c: int, m: int)
    requires Congruent(a, b, m)
    ensures Congruent(a * c, b * c, m)
  {
    var k: int :| Differ(a, b, k, m);
    assert a * c == b * c + (k * c) * m;
    assert Differ(a * c, b * c, k * c, m);
  }

  lemma {:induction false} CongruentSum(a: int, b: int, c: int, d: int, m: int)
    requires Congruent(a, b, m) && Congruent(c, d, m)
    ensures Congruent(a - c, b - d, m)
  {
    var j: int :| Differ(a, b, j, m);
    var k: int :| Differ(c, d, k, m);
    assert a - c == b - d + (j - k) * m;
    assert Differ(a - c, b - d, j - k, m);
  }

  lemma {:induction false} NegatedZero(a: int, m: int)
    requires m > 0
    ensures a % m == 0 <==> (-a) % m == 0
  {
    if a % m == 0 {
      assert -a == 0 + (-(a / m)) * m;
      ModShift(0, -(a / m), m);
    }
    if (-a) % m == 0 {
      assert a == 0 + (-((-a) / m)) * m;
      ModShift(0, -((-a) / m), m);
    }
  }

  /** The values the straight-line code leaves in `u` and `v`, up to the modulus. */
  lemma {:induction false} Operands(y: int, u: int, v: int, m: int, d: int)
    requires m > 0
    requires var y2 := (y % m) * (y % m) % m; u == (y2 - 1) % m && v == (y2 * d % m + 1) % m
    ensures Congruent(u, y * y - 1, m) && Congruent(v, d * (y * y) + 1, m)
  {
    var y2 := (y % m) * (y % m) % m;
    ModCongruent(y, m);
    CongruentMul(y % m, y, y % m, m);
    CongruentMul(y % m, y, y, m);
    assert y * (y % m) == (y % m) * y;
    CongruentTrans((y % m) * (y % m), y * (y % m), y * y, m);
    ModCongruent((y % m) * (y % m), m);
    CongruentTrans(y2, (y % m) * (y % m), y * y, m);
    CongruentAdd(y2, y * y, -1, m);
    ModCongruent(y2 - 1, m);
    CongruentTrans(u, y2 - 1, y * y - 1, m);
    CongruentMul(y2, y * y, d, m);
    assert y * y * d == d * (y * y);
    ModCongruent(y2 * d, m);
    CongruentTrans(y2 * d % m, y2 * d, d * (y * y), m);
    CongruentAdd(y2 * d % m, d * (y * y), 1, m);
    ModCongruent(y2 * d % m + 1, m);
    CongruentTrans(v, y2 * d % m + 1, d * (y * y) + 1, m);
  }

  /** Solving `v x^2 = u` for those operands is solving the curve equation. */
  lemma {:induction false} SolvesCurve(x: int, y: int, u: int, v: int, m: int, d: int)
    requires m > 0 && Congruent(u, y * y - 1, m) && Congruent(v, d * (y * y) + 1, m)
    ensures (v * (x * x) - u) % m == 0 <==> (-(x * x) + y * y - (1 + d * (x * x) * (y * y))) % m == 0
  {
    var e := -(x * x) + y * y - (1 + d * (x * x) * (y * y));
    CongruentMul(v, d * (y * y) + 1, x * x, m);
    CongruentSum(v * (x * x), (d * (y * y) + 1) * (x * x), u, y * y - 1, m);
    assert (d * (y * y) + 1) * (x * x) - (y * y - 1) == -e by {
      Expand(d, x * x, y * y);
    }
    CongruentMod(v * (x * x) - u, -e, m);
    NegatedZero(e, m);
  }

  lemma {:induction false} Expand(d: int, a: int, b: int)
    ensures (d * b + 1) * a == d * a * b + a
  {
    assert (d * b + 1) * a == (d * b) * a + a;
    assert (d * b) * a == d * (b * a) == d * (a * b) == d * a * b;
  }

  lemma {:induction false} TestMeansPoint(y: int, u: int, v: int)
    requires var y2 := (y % P) * (y % P) % P; u == (y2 - 1) % P && v == (y2 * D % P + 1) % P
    ensures IsSquareRatio(u, v) <==> exists x :: OnCurve(x, y)
  {
    Operands(y, u, v, P, D);
    if IsSquareRatio(u, v) {
      var x :| Solves(x, u, v);
      SolvesCurve(x, y, u, v, P, D);
      CurveEquation(x, y);
      assert OnCurve(x, y);
    }
    if exists x :: OnCurve(x, y) {
      var x :| OnCurve(x, y);
      CurveEquation(x, y);
      SolvesCurve(x, y, u, v, P, D);
      assert Solves(x, u, v);
    }
  }

  // ---------- little-endian strings

  /** The `len` low bytes of a number. */
  function Digits(n: nat, len: nat): (r: Bytes)
    ensures |r| == len
    decreases len
  {
    if len == 0 then [] else [n % 0x100] + Digits(n / 0x100, len - 1)
  }

  function Pow256(len: nat): (r: nat)
    ensures r > 0
  {
    if len == 0 then 1 else 0x100 * Pow256(len - 1)
  }

  lemma {:induction false} DigitsValue(n: nat, len: nat)
    requires n < Pow256(len)
    ensures LittleEndian(Digits(n, len)) == n
    decreases len
  {
    if len > 0 {
      DigitsValue(n / 0x100, len - 1);
      assert Digits(n, len)[1..] == Digits(n / 0x100, len - 1);
    }
  }

  lemma {:induction false} ValueDigits(bs: Bytes)
    ensures Digits(LittleEndian(bs), |bs|) == bs
  {
    if bs != [] {
      ValueDigits(bs[1..]);
      var b: int := bs[0];
      var n := LittleEndian(bs);
      assert n % 0x100 == b && n / 0x100 == LittleEndian(bs[1..]);
      assert bs == [bs[0]] + bs[1..];
    }
  }

  lemma {:induction false} PowDouble(n: nat, len: nat)
    ensures Pow256(n + len) == Pow256(n) * Pow256(len)
    decreases n
  {
    if n > 0 {
      PowDouble(n - 1, len);
      MulAssoc(0x100, Pow256(n - 1), Pow256(len));
    }
  }

  lemma {:induction false} MulAssoc(a: int, b: int, c: int)
    ensures a * (b * c) == (a * b) * c
  {
  }

  lemma {:induction false} Pow256Of32()
    ensures Pow256(32) == 2 * TWO_TO_255
  {
    var n := 16;
    Pow256Of16();
    PowDouble(n, n);
    assert Pow256(n + n) == Pow256(32);
  }

  lemma {:induction false} Pow256Of16()
    ensures Pow256(16) == 0x1_0000_0000_0000_0000_0000_0000_0000_0000
  {
    PowDouble(4, 4);
    PowDouble(8, 8);
    assert Pow256(4) == 0x1_0000_0000;
  }

  lemma {:induction false} DigitsOf32(n: nat)
    requires n < 2 * TWO_TO_255
    ensures LittleEndian(Digits(n, 32)) == n
  {
    Pow256Of32();
    DigitsValue(n, 32);
  }

  lemma {:induction false} SmallMod(n: nat)
    requires n < P
    ensures n % P == n
  {
  }

  /** Thirty-two bytes with all but the first and the last the same. */
  function Framed(first: byte, middle: byte, last: byte): (r: Key)
  {
    [first] + seq(30, _ => middle) + [last]
  }

  lemma {:induction false} RepeatedValue(n: nat, b: byte, last: byte)
    ensures 0xff * LittleEndian(seq(n, _ => b) + [last]) == b * (Pow256(n) - 1) + 0xff * (last * Pow256(n))
  {
    var bs := seq(n, _ => b) + [last];
    if n == 0 {
      assert bs == [last] && bs[1..] == [];
    } else {
      RepeatedValue(n - 1, b, last);
      assert bs[1..] == seq(n - 1, _ => b) + [last];
      RepeatedStep(b, last, Pow256(n - 1), LittleEndian(bs[1..]));
    }
  }

  lemma {:induction false} RepeatedStep(b: int, last: int, p: int, v: int)
    requires 0xff * v == b * (p - 1) + 0xff * (last * p)
    ensures 0xff * (b + 0x100 * v) == b * (0x100 * p - 1) + 0xff * (last * (0x100 * p))
  {
    assert b * (p - 1) == b * p - b && b * (0x100 * p - 1) == 0x100 * (b * p) - b;
    assert last * (0x100 * p) == 0x100 * (last * p);
  }

  lemma {:induction false} FramedValue(first: byte, middle: byte, last: byte)
    ensures var p := Pow256(30);
      0xff * LittleEndian(Framed(first, middle, last)) ==
        0xff * first + 0x100 * (middle * (p - 1) + 0xff * (last * p))
  {
    var bs := Framed(first, middle, last);
    assert bs[1..] == seq(30, _ => middle) + [last];
    RepeatedValue(30, middle, last);
  }

  /** What thirty-two such bytes encode. */
  lemma {:induction false} FramedSpells(first: byte, middle: byte, last: byte, p: int, v: int)
    requires p * 0x8000 == TWO_TO_255 && 0xff * v == 0xff * first + 0x100 * (middle * (p - 1) + 0xff * (last * p))
    ensures EncodedY(Framed(first, middle, last)) == v % TWO_TO_255
    ensures SignBit(Framed(first, middle, last)) == v / TWO_TO_255
  {
    Pow256Of30();
    assert p == Pow256(30);
    FramedValue(first, middle, last);
  }

  lemma {:induction false} Pow256Of30()
    ensures Pow256(30) * 0x8000 == TWO_TO_255
  {
    Pow256Of32();
    var n := 30;
    assert Pow256(n + 2) == 0x100 * Pow256(n + 1) == 0x1_0000 * Pow256(n);
  }

  lemma {:induction false} EncodingParts(bs: Key)
    ensures LittleEndian(bs) == EncodedY(bs) + SignBit(bs) * TWO_TO_255
  {
  }

  // ---------- canonical encodings

  lemma {:induction false} CanonicalHasPoint(bs: Key)
    requires Canonical(bs)
    ensures HasPoint(bs)
  {
    var x :| PointWithSign(x, EncodedY(bs), SignBit(bs));
    assert OnCurve(x, EncodedY(bs));
  }

  /** Whether x completes y to a point depends on the square of x only. */
  lemma {:induction false} RootOfSquare(a: int, b: int, y: int, m: int, d: int)
    requires m > 0 && Congruent(a * a, b * b, m) && Equation(a, y, m, d)
    ensures Equation(b, y, m, d)
  {
    var k := -1 - d * (y * y);
    CongruentMul(a * a, b * b, k, m);
    CongruentAdd((a * a) * k, (b * b) * k, y * y - 1, m);
    CurveForm(a * a, y * y, d);
    CurveForm(b * b, y * y, d);
    CongruentMod((a * a) * k + (y * y - 1), (b * b) * k + (y * y - 1), m);
  }

  lemma {:induction false} CurveForm(a: int, b: int, d: int)
    ensures -a + b - (1 + d * a * b) == a * (-1 - d * b) + (b - 1)
  {
    Expand(d, a, b);
    assert a * (-1 - d * b) == -((d * b + 1) * a);
  }

  lemma {:induction false} ReducedRoot(x: int, y: int, m: int, d: int)
    requires m > 0 && Equation(x, y, m, d)
    ensures Equation(x % m, y, m, d)
  {
    ReducedSquare(x, m);
    RootOfSquare(x, x % m, y, m, d);
  }

  lemma {:induction false} ReducedSquare(x: int, m: int)
    requires m > 0
    ensures Congruent(x * x, (x % m) * (x % m), m)
  {
    var r := x % m;
    ModCongruent(x, m);
    CongruentMul(r, x, r, m);
    CongruentMul(r, x, x, m);
    assert x * r == r * x;
    CongruentTrans(r * r, x * r, x * x, m);
    var k: int :| Differ(r * r, x * x, k, m);
    assert Differ(x * x, r * r, -k, m);
  }

  lemma {:induction false} OtherRoot(x: int, y: int, m: int, d: int)
    requires m > 0 && Equation(x, y, m, d)
    ensures Equation(m - x, y, m, d)
  {
    OtherSquare(x, m);
    RootOfSquare(x, m - x, y, m, d);
  }

  lemma {:induction false} OtherSquare(x: int, m: int)
    ensures Congruent(x * x, (m - x) * (m - x), m)
  {
    SquareOfDifference(m, x);
    var k := m - 2 * x;
    assert (m - x) * (m - x) == x * x + k * m;
    assert (-k) * m == -(k * m);
    assert Differ(x * x, (m - x) * (m - x), -k, m);
  }

  lemma {:induction false} SquareOfDifference(p: int, x: int)
    ensures (p - x) * (p - x) == x * x + (p - 2 * x) * p
  {
  }

  /** A fact about the prime: no square is divisible by it unless the root is. */
  ghost predicate SquareFree()
  {
    forall x: int :: Nil(x) ==> x % P == 0
  }

  ghost predicate Nil(x: int)
  {
    (x * x) % P == 0
  }

  ghost predicate SquaresToOne(y: int)
  {
    (y * y - 1) % P == 0
  }

  /** Where y^2 = 1, the only root is zero. */
  lemma {:induction false} OnlyZero(x: int, y: int)
    requires SquareFree() && OnCurve(x, y) && SquaresToOne(y) && 0 <= x < P
    ensures x == 0
  {
    CurveEquation(x, y);
    var k := AtOne(x * x, y * y, P, D);
    UnitCancels(x * x, k);
    assert Nil(x);
  }

  /** What the curve equation says of the square of x where that of y is 1. */
  lemma {:induction false} AtOne(a: int, b: int, m: int, d: int) returns (k: int)
    requires m > 0 && (-a + b - (1 + d * a * b)) % m == 0 && (b - 1) % m == 0
    ensures a * (1 + d) == k * m
  {
    var e := -a + b - (1 + d * a * b);
    var q, r := e / m, (b - 1) / m;
    k := r - q - a * d * r;
    CurveForm(a, b, d);
    AtOneForm(a, b, e, q, r, m, d);
  }

  lemma {:induction false} AtOneForm(a: int, b: int, e: int, q: int, r: int, m: int, d: int)
    requires e == a * (-1 - d * b) + (b - 1) && e == q * m && b - 1 == r * m
    ensures a * (1 + d) == (r - q - a * d * r) * m
  {
    Spread(a, d, r, m);
    assert a * (-1 - d * b) == -(a * (1 + d)) - (a * d * r) * m;
    assert (r - q - a * d * r) * m == r * m - q * m - (a * d * r) * m;
  }

  /** One plus d is invertible, so it can be cancelled. */
  lemma {:induction false} UnitCancels(a: int, k: int)
    requires a * (1 + D) == k * P
    ensures a % P == 0
  {
    assert 121666 * (1 + D) == 1 + 77955 * P;
    assert 121666 * (a * (1 + D)) == a + (77955 * a) * P;
    assert a == 0 + (121666 * k - 77955 * a) * P;
    ModShift(0, 121666 * k - 77955 * a, P);
  }

  lemma {:induction false} Spread(a: int, d: int, r: int, p: int)
    ensures a * (-1 - d * (1 + r * p)) == -(a * (1 + d)) - (a * d * r) * p
  {
    assert d * (1 + r * p) == d + d * (r * p);
    assert a * (-1 - d - d * (r * p)) == -(a * (1 + d)) - a * (d * (r * p));
    assert a * (d * (r * p)) == (a * d * r) * p;
  }

  /** With a root other than zero there are two, one of each parity, if the modulus is odd. */
  lemma {:induction false} BothParities(x: int, y: int, m: int, d: int, sign: int) returns (z: int)
    requires m % 2 == 1 && 0 < x < m && 0 <= sign <= 1 && Equation(x, y, m, d)
    ensures 0 < z < m && z % 2 == sign && Equation(z, y, m, d)
  {
    z := x;
    if x % 2 != sign {
      OtherRoot(x, y, m, d);
      OppositeParity(x, m);
      z := m - x;
    }
  }

  lemma {:induction false} OppositeParity(x: int, m: int)
    requires m % 2 == 1
    ensures (m - x) % 2 == 1 - x % 2
  {
  }

  lemma {:induction false} NonzeroRoot(x: int, y: int)
    requires OnCurve(x, y) && !SquaresToOne(y)
    ensures x != 0
  {
    CurveEquation(0, y);
    CurveForm(0, y * y, D);
  }

  /**
    Which encodings with a point are not canonical: those with y not reduced, and those with the sign bit set
    where y squared is 1 and so x is 0.
   */
  lemma {:induction false} CanonicalIff(bs: Key)
    requires SquareFree() && HasPoint(bs)
    ensures Canonical(bs) <==> EncodedY(bs) < P && !(SquaresToOne(EncodedY(bs)) && SignBit(bs) == 1)
  {
    SignIsBit(bs);
    var x :| OnCurve(x, EncodedY(bs));
    RootsBySign(x, EncodedY(bs), SignBit(bs));
  }

  lemma {:induction false} RootsBySign(x0: int, y: int, sign: int)
    requires SquareFree() && OnCurve(x0, y) && 0 <= sign <= 1
    ensures RootOfSign(y, sign) <==> !(SquaresToOne(y) && sign == 1)
  {
    CurveEquation(x0, y);
    ReducedRoot(x0, y, P, D);
    var x := x0 % P;
    CurveEquation(x, y);
    if !SquaresToOne(y) {
      NonzeroRoot(x, y);
      var z := BothParities(x, y, P, D, sign);
      CurveEquation(z, y);
      assert PointWithSign(z, y, sign);
    } else {
      OnlyZero(x, y);
      if z :| PointWithSign(z, y, sign) {
        OnlyZero(z, y);
      }
      assert sign == 0 ==> PointWithSign(x, y, sign);
    }
  }

  lemma {:induction false} SignIsBit(bs: Key)
    ensures SignBit(bs) == 0 || SignBit(bs) == 1
  {
    Pow256Of32();
    ValueBound(bs);
  }

  lemma {:induction false} ValueBound(bs: Bytes)
    ensures LittleEndian(bs) < Pow256(|bs|)
  {
    if bs != [] {
      ValueBound(bs[1..]);
    }
  }

  /** The bytes ee ff .. ff 7f: y is P + 1, which reduces to 1. */
  const UNREDUCED: Key := Framed(0xee, 0xff, 0x7f)

  lemma {:induction false} UnreducedPoint()
    ensures EncodedY(UNREDUCED) == P + 1 && HasPoint(UNREDUCED) && !Canonical(UNREDUCED)
  {
    UnreducedEncoding();
    ZeroRoot(1);
    ZeroCompletes(UNREDUCED);
  }

  lemma {:induction false} UnreducedEncoding()
    ensures EncodedY(UNREDUCED) == P + 1
  {
    FramedSpells(0xee, 0xff, 0x7f, TWO_TO_255 / 0x8000, P + 1);
  }

  /** Zero is a root wherever y is 1 up to the modulus. */
  lemma {:induction false} ZeroRoot(k: int)
    ensures SquaresToOne(1 + k * P)
  {
    assert (1 + k * P) * (1 + k * P) - 1 == 0 + (2 * k + k * k * P) * P by {
      SquareAround(k, P);
    }
    ModShift(0, 2 * k + k * k * P, P);
  }

  lemma {:induction false} SquareAround(k: int, p: int)
    ensures (1 + k * p) * (1 + k * p) - 1 == (2 * k + k * k * p) * p
  {
    assert (k * p) * (k * p) == (k * k * p) * p;
  }

  lemma {:induction false} ZeroCompletes(bs: Key)
    requires SquaresToOne(EncodedY(bs))
    ensures HasPoint(bs)
  {
    var y := EncodedY(bs);
    CurveForm(0, y * y, D);
    CurveEquation(0, y);
    assert OnCurve(0, y);
  }

  /** The bytes 01 00 .. 00 80: y is 1, and the sign bit asks for an odd root. */
  const SIGNED_ONE: Key := Framed(0x01, 0x00, 0x80)

  lemma {:induction false} SignedOnePoint()
    requires SquareFree()
    ensures EncodedY(SIGNED_ONE) == 1 && HasPoint(SIGNED_ONE) && !Canonical(SIGNED_ONE)
  {
    SignedOneEncoding();
    ZeroRoot(0);
    ZeroCompletes(SIGNED_ONE);
    CanonicalIff(SIGNED_ONE);
  }

  lemma {:induction false} SignedOneEncoding()
    ensures EncodedY(SIGNED_ONE) == 1 && SignBit(SIGNED_ONE) == 1
  {
    FramedSpells(0x01, 0x00, 0x80, TWO_TO_255 / 0x8000, 1 + TWO_TO_255);
  }

  // ---------- the constants are those of the curve

  /** Section 5.1 of RFC 8032: the prime is 2^255 - 19, and d is -121665/121666. */
  lemma {:induction false} CurveConstants()
    ensures 2 * TWO_TO_255 == Pow256(32) && P == TWO_TO_255 - 19
    ensures 0 <= D < P && (121666 * D + 121665) % P == 0
  {
    Pow256Of32();
    assert 121666 * D + 121665 == 77955 * P;
  }

  /** The base point of the curve, and its encoding 58 66 .. 66. */
  const BASE_X: int := 15112221349535400772501151409588531511454012693041857206046113283949847762202
  const BASE_Y: int := 46316835694926478169428394003475163141307993866256225615783033603165251855960
  const BASE: Key := Framed(0x58, 0x66, 0x66)

  /** The base point is on the curve, its y is 4/5, and its published encoding is canonical. */
  lemma {:induction false} BasePoint()
    ensures 5 * BASE_Y % P == 4 && OnCurve(BASE_X, BASE_Y)
    ensures EncodedY(BASE) == BASE_Y && SignBit(BASE) == 0 && HasPoint(BASE) && Canonical(BASE)
  {
    BaseOnCurve();
    BaseEncoding();
    PointEncoded(BASE, BASE_X);
  }

  lemma {:induction false} PointEncoded(bs: Key, x: int)
    requires 0 <= x < P && EncodedY(bs) < P && OnCurve(x, EncodedY(bs)) && x % 2 == SignBit(bs)
    ensures HasPoint(bs) && Canonical(bs)
  {
    assert PointWithSign(x, EncodedY(bs), SignBit(bs));
  }

  lemma {:induction false} BaseEncoding()
    ensures EncodedY(BASE) == BASE_Y && SignBit(BASE) == 0
  {
    FramedSpells(0x58, 0x66, 0x66, TWO_TO_255 / 0x8000, BASE_Y);
  }

  lemma {:induction false} BaseOnCurve()
    ensures OnCurve(BASE_X, BASE_Y)
  {
    CurveEquation(BASE_X, BASE_Y);
  }
}
