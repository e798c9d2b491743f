// What the ladder computes: the multiple of the base point, in any system of points whose
// x-coordinates double and add as those of the curve y^2 = x^3 + 486662 x^2 + x do.

module X25519Laws {
  import opened DivMod
  import opened Modular
  import opened Radix
  import opened FieldSpec
  import opened X25519Spec
  import opened X25519Ladder
  import Bits

  // Says of n and x / z that this is the x-coordinate of n times the base point.
  type Multiples = (nat, int, int) -> bool

  // Only residues count, nothing times the point is at infinity, and there are the formulas for
  // twice a point and for the sum of two neighbours.
  ghost predicate Lawful(holds: Multiples, u: int)
  {
    && (forall n, x, z, x', z' :: holds(n, x, z) && Cong(x, x', P) && Cong(z, z', P) ==> holds(n, x', z'))
    && holds(0, 1, 0) && holds(1, u, 1)
    && (forall n: nat, x, z :: holds(n, x, z) ==> holds(2 * n, Double(x, z).0, Double(x, z).1))
    && forall n: nat, x, z, x', z' :: holds(n, x, z) && holds(n + 1, x', z') ==>
         holds(2 * n + 1, Sum(u, x, z, x', z').0, Sum(u, x, z, x', z').1)
  }

  function Double(x: int, z: int): (int, int)
  {
    ((x * x - z * z) * (x * x - z * z), 4 * (x * z) * (x * x + 486662 * (x * z) + z * z))
  }

  function Sum(u: int, x: int, z: int, x': int, z': int): (int, int)
  {
    (4 * ((x * x' - z * z') * (x * x' - z * z')), u * (4 * ((x * z' - z * x') * (x * z' - z * x'))))
  }

  // ----- the formulas -----

  lemma MulCong(a: int, b: int, c: int, d: int)
    requires Cong(a, c, P) && Cong(b, d, P)
    ensures Cong(FMul(a, b), c * d, P)
  {
    CongMul(a, c, b, d, P);
    CongMod(a * b, P);
  }

  lemma AddCong(a: int, b: int, c: int, d: int)
    requires Cong(a, c, P) && Cong(b, d, P)
    ensures Cong(FAdd(a, b), c + d, P) && Cong(FSub(a, b), c - d, P)
  {
    CongAdd(a, c, b, d, P);
    CongMod(a + b, P);
    CongMod(a - b, P);
  }

  lemma Products(x: int, z: int)
    ensures (x + z) * (x + z) == x * x + 2 * (x * z) + z * z && (x - z) * (x - z) == x * x - 2 * (x * z) + z * z
    ensures (x + z) * (x - z) == x * x - z * z
  {
  }

  lemma Squares(a: int, b: int)
    ensures (a * a) * (b * b) == (a * b) * (a * b)
  {
    MulAssoc(a * a, b, b);
    MulAssoc(a, a, b);
    MulAssoc(a, b, a * b);
    assert a * (a * b) == (a * b) * a;
    MulAssoc(a * b, a, b);
  }

  // The doubling half, in exact integers: a24 is 121665.
  lemma DoubleFormula(x: int, z: int)
    ensures var aa, bb := (x + z) * (x + z), (x - z) * (x - z);
            && aa * bb == Double(x, z).0 && (aa - bb) * (aa + 121665 * (aa - bb)) == Double(x, z).1
  {
    Products(x, z);
    Squares(x + z, x - z);
    var p := x * z;
    assert (x + z) * (x + z) - (x - z) * (x - z) == 4 * p;
    assert (x + z) * (x + z) + 121665 * (4 * p) == x * x + 486662 * p + z * z;
  }

  lemma CrossSum(x: int, z: int, x': int, z': int)
    ensures (x' - z') * (x + z) + (x' + z') * (x - z) == 2 * (x * x' - z * z')
    ensures (x' - z') * (x + z) - (x' + z') * (x - z) == -2 * (x * z' - z * x')
  {
    Distrib(x' - z', x, z);
    Distrib(x' + z', x, -z);
    Distrib(x, x', z');
    Distrib(z, x', z');
  }

  lemma DoubledSquare(y: int)
    ensures (2 * y) * (2 * y) == 4 * (y * y) && (-2 * y) * (-2 * y) == 4 * (y * y)
  {
  }

  // ----- the ladder -----

  // The n-th multiple and the next one.
  ghost predicate Neighbours(holds: Multiples, n: nat, s: Points) { holds(n, s.x2, s.z2) && holds(n + 1, s.x3, s.z3) }

  lemma SumSwaps(u: int, x: int, z: int, x': int, z': int)
    ensures Sum(u, x', z', x, z) == Sum(u, x, z, x', z')
  {
    var d := x * z' - z * x';
    assert x' * z - z' * x == -d;
    assert (-d) * (-d) == d * d;
  }

  // A step takes the first point to its double.
  lemma StepDoubles(holds: Multiples, u: int, n: nat, s: Points)
    requires Lawful(holds, u) && holds(n, s.x2, s.z2)
    ensures holds(2 * n, Advance(u, s).x2, Advance(u, s).z2)
  {
    var x, z := s.x2, s.z2;
    AddCong(x, z, x, z);
    var a, b := FAdd(x, z), FSub(x, z);
    var p, q := (x + z) * (x + z), (x - z) * (x - z);
    MulCong(a, a, x + z, x + z);
    MulCong(b, b, x - z, x - z);
    var aa, bb := FMul(a, a), FMul(b, b);
    MulCong(aa, bb, p, q);
    AddCong(aa, bb, p, q);
    var e := FSub(aa, bb);
    MulCong(121665, e, 121665, p - q);
    AddCong(aa, FMul(121665, e), p, 121665 * (p - q));
    MulCong(e, FAdd(aa, FMul(121665, e)), p - q, p + 121665 * (p - q));
    DoubleFormula(x, z);
    TakesMultiple(holds, u, 2 * n, Double(x, z), FMul(aa, bb), FMul(e, FAdd(aa, FMul(121665, e))));
  }

  // And the second one to the sum of both.
  lemma StepAdds(holds: Multiples, u: int, n: nat, s: Points)
    requires Lawful(holds, u) && holds(n, Sum(u, s.x2, s.z2, s.x3, s.z3).0, Sum(u, s.x2, s.z2, s.x3, s.z3).1)
    ensures holds(n, Advance(u, s).x3, Advance(u, s).z3)
  {
    var x, z, x', z' := s.x2, s.z2, s.x3, s.z3;
    AddCong(x, z, x, z);
    AddCong(x', z', x', z');
    var p, q := (x' - z') * (x + z), (x' + z') * (x - z);
    MulCong(FSub(x', z'), FAdd(x, z), x' - z', x + z);
    MulCong(FAdd(x', z'), FSub(x, z), x' + z', x - z);
    var da, cb := FMul(FSub(x', z'), FAdd(x, z)), FMul(FAdd(x', z'), FSub(x, z));
    CrossSum(x, z, x', z');
    var m, d := x * x' - z * z', x * z' - z * x';
    AddCong(da, cb, p, q);
    var sum, diff := FAdd(da, cb), FSub(da, cb);
    MulCong(sum, sum, 2 * m, 2 * m);
    MulCong(diff, diff, -2 * d, -2 * d);
    DoubledSquare(m);
    DoubledSquare(d);
    MulCong(u, FMul(diff, diff), u, 4 * (d * d));
    TakesMultiple(holds, u, n, Sum(u, x, z, x', z'), FMul(sum, sum), FMul(u, FMul(diff, diff)));
  }

  lemma Stepped(holds: Multiples, u: int, n: nat, s: Points, bit: int)
    requires Lawful(holds, u) && Neighbours(holds, n, s) && (bit == 0 || bit == 1)
    ensures Neighbours(holds, 2 * n + bit, CSwap(bit, Advance(u, CSwap(bit, s))))
  {
    var t := CSwap(bit, s);
    SumSwaps(u, s.x2, s.z2, s.x3, s.z3);
    StepDoubles(holds, u, n + bit, t);
    StepAdds(holds, u, 2 * n + 1, t);
  }

  lemma TakesMultiple(holds: Multiples, u: int, n: nat, p: (int, int), x: int, z: int)
    requires Lawful(holds, u) && holds(n, p.0, p.1) && Cong(x, p.0, P) && Cong(z, p.1, P)
    ensures holds(n, x, z)
  {
    assert Cong(p.0, x, P) && Cong(p.1, z, P);
  }

  // The number the top n bits of k spell.
  function Lead(k: nat, n: nat): nat
    requires n <= 255
  {
    if n == 0 then 0 else 2 * Lead(k, n - 1) + ScalarBit(k, 255 - n)
  }

  lemma HalfOf(k: int, p: int, q: int)
    requires p > 0 && q == 2 * p
    ensures k / p == 2 * (k / q) + k / p % 2
  {
    DivDiv(k, p, 2);
  }

  lemma {:induction false} LeadIs(k: nat, n: nat, rest: nat)
    requires n + rest == 255 && k < Bits.Pow2(n + rest)
    ensures Lead(k, n) == k / Bits.Pow2(rest)
  {
    if n == 0 {
      QuotRem(k, 0, k, Bits.Pow2(rest));
    } else {
      LeadIs(k, n - 1, rest + 1);
      HalfOf(k, Bits.Pow2(rest), Bits.Pow2(rest + 1));
    }
  }

  lemma OneBit(holds: Multiples, k: nat, u: int, n: nat, m: nat)
    requires Lawful(holds, u) && n < 255 && Neighbours(holds, m, Unswapped(k, u, n))
    ensures Neighbours(holds, 2 * m + ScalarBit(k, 254 - n), Unswapped(k, u, n + 1))
  {
    SwapStepSwap(k, u, n);
    Stepped(holds, u, m, Unswapped(k, u, n), ScalarBit(k, 254 - n));
  }

  lemma LadderStarts(holds: Multiples, k: nat, u: int)
    requires Lawful(holds, u)
    ensures Neighbours(holds, 0, Unswapped(k, u, 0))
  {
  }

  // After n bits the ladder is at the multiple those bits spell.
  lemma {:induction false} LadderAt(holds: Multiples, k: nat, u: int, n: nat)
    requires Lawful(holds, u) && n <= 255
    ensures Neighbours(holds, Lead(k, n), Unswapped(k, u, n))
  {
    if n == 0 {
      LadderStarts(holds, k, u);
    } else {
      LadderAt(holds, k, u, n - 1);
      OneBit(holds, k, u, n - 1, Lead(k, n - 1));
    }
  }

  // X25519 is the x-coordinate of k times the point, made affine by Fermat's inverse.
  lemma LadderMultiplies(holds: Multiples, k: nat, u: int) returns (x: int, z: int)
    requires Lawful(holds, u) && k < Bits.Pow2(255)
    ensures holds(k, x, z) && X25519(k, u) == (x * Power(z, P - 2)) % P
  {
    var n := 255;
    LadderAt(holds, k, u, n);
    LeadIs(k, n, 0);
    x, z := Unswapped(k, u, n).x2, Unswapped(k, u, n).z2;
  }

  // ----- what goes in -----

  // Clamping clears the three lowest bits and the two highest, sets the one below those, and
  // leaves all others.
  lemma ClampedBytes(n: seq<int>)
    requires |n| == 32 && Digits(0x100, n)
    ensures Clamped(n)[0] == n[0] / 8 * 8 && Clamped(n)[31] == 64 + n[31] % 64
    ensures |Clamped(n)| == 32 && forall k :: 0 < k < 31 ==> Clamped(n)[k] == n[k]
  {
    ClampLow(n[0]);
    ClampHigh(n[31]);
  }

  // The top bit of a u-coordinate is ignored.
  lemma DecodedU(n: seq<int>)
    requires |n| == 32 && Digits(0x100, n)
    ensures DecodeU(n) == Val(0x100, n[31 := n[31] % 128])
  {
    var m := n[31 := n[31] % 128];
    ValUpdate(0x100, n, 31, n[31] % 128);
    BelowTop(m);
    TopBit();
    UTop(Val(0x100, n), Val(0x100, m), Pow(0x100, 31), n[31]);
  }

  lemma UTop(v: int, w: int, p: int, x: int)
    requires w == v + p * (x % 128 - x) && 0 <= w < p * 128 && p > 0 && 128 * p == P + 19
    ensures v % (P + 19) == w
  {
    assert x - x % 128 == 128 * (x / 128);
    MulAssoc(p, 128, x / 128);
    QuotRem(v, x / 128, w, P + 19);
  }

  lemma BelowTop(m: seq<int>)
    requires |m| == 32 && Digits(0x100, m) && m[31] < 128
    ensures 0 <= Val(0x100, m) < Pow(0x100, 31) * 128
  {
    assert m == m[..31] + [m[31]];
    ValSnoc(0x100, m[..31], m[31]);
    ValRange(0x100, m[..31]);
    BelowBy(Val(0x100, m[..31]), Pow(0x100, 31), m[31]);
  }

  lemma BelowBy(v: int, p: int, x: int)
    requires 0 <= v < p && 0 <= x < 128
    ensures 0 <= v + p * x < p * 128
  {
    MulLe(0, x, p);
    MulLe(x, 127, p);
  }

  lemma TopBit()
    ensures Pow(0x100, 31) > 0 && 128 * Pow(0x100, 31) == P + 19
  {
    assert Pow(0x100, 2) == 0x1_0000;
    PowAdd(0x100, 2, 1);
    PowAdd(0x100, 2, 2);
    PowAdd(0x100, 4, 4);
    PowAdd(0x100, 8, 8);
    PowAdd(0x100, 4, 3);
    PowAdd(0x100, 8, 7);
    PowAdd(0x100, 16, 15);
  }
}
