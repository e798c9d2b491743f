// The X25519 function of section 5 of RFC 7748, and src/crypto.rs's ladder for it.

module X25519Spec {
  import opened Modular
  import opened Radix
  import opened FieldSpec
  import Bits

  function FAdd(a: int, b: int): int { (a + b) % P }
  function FSub(a: int, b: int): int { (a - b) % P }
  function FMul(a: int, b: int): int { (a * b) % P }

  datatype Points = Points(x2: int, z2: int, x3: int, z3: int)
  datatype Ladder = Ladder(points: Points, swap: int)

  function CSwap(swap: int, s: Points): Points
  {
    if swap == 1 then Points(s.x3, s.z3, s.x2, s.z2) else s
  }

  // One differential addition and doubling.
  function Advance(u: int, s: Points): Points
  {
    var a := FAdd(s.x2, s.z2);
    var aa := FMul(a, a);
    var b := FSub(s.x2, s.z2);
    var bb := FMul(b, b);
    var e := FSub(aa, bb);
    var c := FAdd(s.x3, s.z3);
    var d := FSub(s.x3, s.z3);
    var da := FMul(d, a);
    var cb := FMul(c, b);
    var sum := FAdd(da, cb);
    var diff := FSub(da, cb);
    Points(FMul(aa, bb), FMul(e, FAdd(aa, FMul(121665, e))), FMul(sum, sum), FMul(u, FMul(diff, diff)))
  }

  function ScalarBit(k: nat, t: nat): int { (k / Bits.Pow2(t)) % 2 }

  // The RFC's loop with its delayed swaps, after the top n of the 255 bits.
  function Run(k: nat, u: int, n: nat): Ladder
    requires n <= 255
  {
    if n == 0 then Ladder(Points(1, 0, u, 1), 0)
    else
      var s := Run(k, u, n - 1);
      var bit := ScalarBit(k, 255 - n);
      Ladder(Advance(u, CSwap(if s.swap == bit then 0 else 1, s.points)), bit)
  }

  function X25519(k: nat, u: int): int
  {
    var last := Run(k, u, 255);
    var s := CSwap(last.swap, last.points);
    FMul(s.x2, Power(s.z2, P - 2))
  }

  // Section 5: clear the three low bits and the top bit, set bit 254.
  function Clamped(n: seq<int>): seq<int>
    requires |n| == 32
  {
    n[0 := Bits.And(n[0], 248)][31 := Bits.Or(Bits.And(n[31], 127), 64)]
  }

  function DecodeScalar(n: seq<int>): int
    requires |n| == 32
  {
    Val(0x100, Clamped(n))
  }

  function DecodeU(n: seq<int>): int { Val(0x100, n) % (P + 19) }
}

module X25519Ladder {
  import opened ByteStrings
  import opened ExponentBits
  import opened MachineInts
  import opened DivMod
  import opened Modular
  import opened Radix
  import opened FieldSpec
  import opened Fe25519
  import opened FieldOps
  import opened X25519Spec
  import Bits

  // ----- scalars -----

  lemma And31(x: int)
    ensures Bits.And(x, 31) == x % 32
  {
    assert Bits.Pow2(5) == 32;
    Bits.AndMaskAt(x, 5, 32);
  }

  lemma And127(x: int)
    ensures Bits.And(x, 127) == x % 128
  {
    assert Bits.Pow2(7) == 128;
    Bits.AndMaskAt(x, 7, 128);
  }

  lemma And248(x: int)
    ensures Bits.And(x, 248) == (x / 8 % 32) * 8
  {
    assert Bits.Pow2(3) == 8;
    Bits.AndHighAt(x, 31, 3, 8);
    And31(x / 8);
  }

  lemma ByteParts(x: int)
    requires 0 <= x < 0x100
    ensures (x / 8 % 32) * 8 == x - x % 8
    ensures x % 128 == (x % 128 / 64) * 64 + x % 64 && 0 <= x % 128 / 64 <= 1
  {
  }

  lemma ClampLow(x: int)
    requires 0 <= x < 0x100
    ensures Bits.And(x, 248) == x - x % 8
  {
    And248(x);
    ByteParts(x);
  }

  lemma And63(x: int)
    ensures Bits.And(x, 63) == x % 64
  {
    assert Bits.Pow2(6) == 64;
    Bits.AndMaskAt(x, 6, 64);
  }

  lemma Above64(h: int, l: int)
    requires 0 <= l < 64
    ensures Bits.And(h * 64 + l, -2 * 64 + 63) == Bits.And(l, 63) + 64 * Bits.And(h, -2)
  {
    assert Bits.Pow2(6) == 64;
    Bits.AndFieldsAt(h, l, -2, 63, 6, 64);
  }

  lemma ClearBit64(y: int, b: int)
    requires 0 <= y < 64 && (b == 0 || b == 1)
    ensures Bits.And((-1 - b) * 64 + (63 - y), -2 * 64 + 63) == 63 - y - 128
  {
    Above64(-1 - b, 63 - y);
    And63(63 - y);
    KeepsTwo(-1 - b);
  }

  lemma KeepsTwo(h: int)
    requires h == -1 || h == -2
    ensures Bits.And(h, -2) == -2
  {
    assert Bits.And(-1, -1) == -1;
  }

  lemma SetBit64(y: int, b: int)
    requires 0 <= y < 64 && (b == 0 || b == 1)
    ensures Bits.Or(b * 64 + y, 64) == 64 + y
  {
    ClearBit64(y, b);
    var u, w := Bits.Not(b * 64 + y), Bits.Not(64);
    assert u == (-1 - b) * 64 + (63 - y) && w == -2 * 64 + 63;
  }

  lemma ClampHigh(x: int)
    requires 0 <= x < 0x100
    ensures Bits.Or(Bits.And(x, 127), 64) == 64 + x % 64
  {
    And127(x);
    ByteParts(x);
    SetBit64(x % 64, x % 128 / 64);
  }

  // The decoded scalar is a multiple of the cofactor with its top bit in place 254.
  lemma DecodedScalar(n: seq<int>)
    requires |n| == 32 && Digits(0x100, n)
    ensures Digits(0x100, Clamped(n))
    ensures DecodeScalar(n) % 8 == 0
    ensures Bits.Pow2(254) <= DecodeScalar(n) < Bits.Pow2(255)
  {
    ClampedBytes(n);
    ByteRange(Clamped(n));
  }

  lemma ByteRange(z: seq<int>)
    requires |z| == 32 && Digits(0x100, z) && z[0] % 8 == 0 && 64 <= z[31] < 128
    ensures Val(0x100, z) % 8 == 0 && Bits.Pow2(254) <= Val(0x100, z) < Bits.Pow2(255)
  {
    LowByte(z);
    TopByte(z);
    Pow31();
  }

  lemma ClampedBytes(n: seq<int>)
    requires |n| == 32 && Digits(0x100, n)
    ensures var z := Clamped(n);
            |z| == 32 && Digits(0x100, z) && z[0] % 8 == 0 && 64 <= z[31] < 128
  {
    ClampLow(n[0]);
    ClampHigh(n[31]);
    Eights(n[0]);
  }

  lemma Eights(x: int)
    ensures (x - x % 8) % 8 == 0
  {
  }

  lemma LowByte(z: seq<int>)
    requires |z| == 32 && z[0] % 8 == 0
    ensures Val(0x100, z) % 8 == 0
  {
    var v := Val(0x100, z[1..]);
    assert Val(0x100, z) == z[0] + 0x100 * v;
  }

  lemma TopByte(z: seq<int>)
    requires |z| == 32 && Digits(0x100, z) && 64 <= z[31] < 128
    ensures 64 * Pow(0x100, 31) <= Val(0x100, z) < 128 * Pow(0x100, 31)
  {
    assert z[..31] + [z[31]] == z;
    ValSnoc(0x100, z[..31], z[31]);
    ValRange(0x100, z[..31]);
    var p := Pow(0x100, 31);
    MulLe(64, z[31], p);
    MulLe(z[31], 127, p);
  }

  lemma Pow31()
    ensures Pow(0x100, 31) * 64 == Bits.Pow2(254) && Pow(0x100, 31) * 128 == Bits.Pow2(255)
  {
    BytePow(31);
    Bits.Pow2Add(248, 6);
    Bits.Pow2Add(248, 7);
    assert Bits.Pow2(6) == 64 && Bits.Pow2(7) == 128;
  }

  // Dropping whole bytes from a number.
  lemma {:induction false} DropBytes(z: seq<int>, j: nat)
    requires Digits(0x100, z) && j <= |z|
    ensures Val(0x100, z) >= 0 && Val(0x100, z) / Bits.Pow2(8 * j) == Val(0x100, z[j..])
  {
    var lo, hi := z[..j], z[j..];
    assert z == lo + hi;
    ValConcat(0x100, lo, hi);
    ValRange(0x100, lo);
    ValRange(0x100, z);
    BytePow(j);
    SplitAt(Val(0x100, z), Val(0x100, lo), Val(0x100, hi), Pow(0x100, j));
  }

  lemma SplitAt(v: int, lo: int, hi: int, p: int)
    requires 0 <= lo < p && v == lo + p * hi
    ensures v / p == hi
  {
    QuotRem(v, hi, lo, p);
  }

  lemma ByteBit(x: int, rest: int, r: nat)
    requires 0 <= x < 0x100 && r < 8
    ensures ((x + 0x100 * rest) / Bits.Pow2(r)) % 2 == (x / Bits.Pow2(r)) % 2
  {
    Bits.Pow2Add(r + 1, 7 - r);
    assert Bits.Pow2(8) == 0x100;
    MulAssoc(Bits.Pow2(r + 1), Bits.Pow2(7 - r), rest);
    Bits.BitBelow(x, Bits.Pow2(7 - r) * rest, r);
  }

  // The code's bit extraction reads bit i of the decoded number.
  lemma BitOfBytes(z: seq<int>, i: nat)
    requires |z| == 32 && Digits(0x100, z) && i < 255
    ensures Val(0x100, z) >= 0
    ensures Bits.And(Bits.Shr(z[i / 8], i % 8), 1) == ScalarBit(Val(0x100, z), i)
  {
    var j, r := i / 8, i % 8;
    DropBytes(z, j);
    assert z[j..][0] == z[j] && z[j..][1..] == z[j + 1..];
    ByteBit(z[j], Val(0x100, z[j + 1..]), r);
    Bits.Pow2Add(8 * j, r);
    DivDiv(Val(0x100, z), Bits.Pow2(8 * j), Bits.Pow2(r));
    assert Bits.Pow2(1) == 2;
    Bits.AndMask(Bits.Shr(z[j], r), 1);
  }

  method ClampScalar(n: array<byte>) returns (z: array<byte>)
    requires n.Length == 32
    ensures fresh(z) && z.Length == 32 && z[..] == Clamped(n[..])
  {
    z := new byte[32](_ => 0);
    for i := 0 to 31
      modifies z
      invariant forall k :: 0 <= k < i ==> z[k] == n[k]
    {
      z[i] := n[i];
    }
    ClampLow(n[0]);
    ClampHigh(n[31]);
    z[31] := Bits.Or(Bits.And(n[31], 127), 64);
    z[0] := Bits.And(z[0], 248);
    assert z[..] == Clamped(n[..]);
  }

  // ----- one step -----

  lemma FOps(a: int, x: int, b: int, y: int)
    requires Cong(a, x, P) && Cong(b, y, P)
    ensures Cong(a + b, FAdd(x, y), P) && Cong(a - b, FSub(x, y), P) && Cong(a * b, FMul(x, y), P)
  {
    CongAdd(a, b - b + x, b, y, P) by { assert b - b + x == x; }
    CongMul(a, x, b, y, P);
    CongMod(x + y, P);
    CongMod(x - y, P);
    CongMod(x * y, P);
  }

  // The field-level step on any representatives: the same formulas, with DA - CB negated.
  lemma StepValues(u: int, s: Points, a: int, b: int, c: int, d: int, x: int,
                   d1: int, f: int, a2: int, c2: int, b2: int, a4: int, c4: int, a6: int, d2: int, b3: int)
    requires Cong(a, s.x2, P) && Cong(c, s.z2, P) && Cong(b, s.x3, P) && Cong(d, s.z3, P) && Cong(x, u, P)
    requires Cong(d1, (a + c) * (a + c), P) && Cong(f, (a - c) * (a - c), P)
    requires Cong(a2, (b + d) * (a - c), P) && Cong(c2, (b - d) * (a + c), P)
    requires Cong(b2, (a2 - c2) * (a2 - c2), P) && Cong(a4, (d1 - f) * 121665, P)
    requires Cong(c4, (d1 - f) * (a4 + d1), P) && Cong(a6, d1 * f, P)
    requires Cong(d2, b2 * x, P) && Cong(b3, (a2 + c2) * (a2 + c2), P)
    ensures var t := Advance(u, s);
            Cong(a6, t.x2, P) && Cong(c4, t.z2, P) && Cong(b3, t.x3, P) && Cong(d2, t.z3, P)
  {
    FOps(a, s.x2, c, s.z2);
    FOps(b, s.x3, d, s.z3);
    var fa, fb, fc, fd := FAdd(s.x2, s.z2), FSub(s.x2, s.z2), FAdd(s.x3, s.z3), FSub(s.x3, s.z3);
    FOps(a + c, fa, a + c, fa);
    FOps(a - c, fb, a - c, fb);
    FOps(b + d, fc, a - c, fb);
    FOps(b - d, fd, a + c, fa);
    var aa, bb, da, cb := FMul(fa, fa), FMul(fb, fb), FMul(fd, fa), FMul(fc, fb);
    FOps(d1, aa, f, bb);
    FOps(c2, da, a2, cb);
    assert c2 + a2 == a2 + c2;
    SquareOfDifference(a2, c2);
    FOps(c2 - a2, FSub(da, cb), c2 - a2, FSub(da, cb));
    FOps(a2 + c2, FAdd(da, cb), a2 + c2, FAdd(da, cb));
    var e := FSub(aa, bb);
    FOps(121665, 121665, d1 - f, e);
    assert 121665 * (d1 - f) == (d1 - f) * 121665;
    FOps(d1, aa, a4, FMul(121665, e));
    assert d1 + a4 == a4 + d1;
    FOps(d1 - f, e, a4 + d1, FAdd(aa, FMul(121665, e)));
    FOps(x, u, b2, FMul(FSub(da, cb), FSub(da, cb)));
    assert x * b2 == b2 * x;
  }

  lemma SquareOfDifference(a: int, c: int)
    ensures (a - c) * (a - c) == (c - a) * (c - a)
  {
  }

  ghost predicate Represents(a: array<i64>, b: array<i64>, c: array<i64>, d: array<i64>, s: Points)
    reads a, b, c, d
  {
    && a.Length == 16 && b.Length == 16 && c.Length == 16 && d.Length == 16
    && Tight(a[..]) && Tight(b[..]) && Tight(c[..]) && Tight(d[..])
    && Cong(Val(B, a[..]), s.x2, P) && Cong(Val(B, b[..]), s.x3, P)
    && Cong(Val(B, c[..]), s.z2, P) && Cong(Val(B, d[..]), s.z3, P)
  }

  // First half of the loop body: the two squares and the two cross products.
  method Products(a0: array<i64>, b0: array<i64>, c0: array<i64>, d0: array<i64>)
    returns (a: array<i64>, c: array<i64>, d: array<i64>, f: array<i64>)
    requires a0.Length == 16 && b0.Length == 16 && c0.Length == 16 && d0.Length == 16
    requires Tight(a0[..]) && Tight(b0[..]) && Tight(c0[..]) && Tight(d0[..])
    ensures fresh(a) && fresh(c) && fresh(d) && fresh(f)
    ensures a.Length == 16 && c.Length == 16 && d.Length == 16 && f.Length == 16
    ensures Tight(a[..]) && Tight(c[..]) && Tight(d[..]) && Tight(f[..])
    ensures var va, vb, vc, vd := Val(B, a0[..]), Val(B, b0[..]), Val(B, c0[..]), Val(B, d0[..]);
            && Cong(Val(B, d[..]), (va + vc) * (va + vc), P) && Cong(Val(B, f[..]), (va - vc) * (va - vc), P)
            && Cong(Val(B, a[..]), (vb + vd) * (va - vc), P) && Cong(Val(B, c[..]), (vb - vd) * (va + vc), P)
  {
    var e := GfAdd(a0, c0);
    a := GfSub(a0, c0);
    c := GfAdd(b0, d0);
    var b := GfSub(b0, d0);
    d := GfSq(e);
    f := GfSq(a);
    a := GfMul(c, a);
    c := GfMul(b, e);
  }

  // Second part: from the products to e, the squared difference and the new z.
  method Combine(a0: array<i64>, c0: array<i64>, d: array<i64>, f: array<i64>)
    returns (e: array<i64>, b: array<i64>, c: array<i64>, ghost a4: int)
    requires a0.Length == 16 && c0.Length == 16 && d.Length == 16 && f.Length == 16
    requires Tight(a0[..]) && Tight(c0[..]) && Tight(d[..]) && Tight(f[..])
    ensures fresh(e) && fresh(b) && fresh(c) && b != c
    ensures e.Length == 16 && Loose(e[..]) && Val(B, e[..]) == Val(B, a0[..]) + Val(B, c0[..])
    ensures b.Length == 16 && Tight(b[..]) && c.Length == 16 && Tight(c[..])
    ensures var va, vc, vd, vf := Val(B, a0[..]), Val(B, c0[..]), Val(B, d[..]), Val(B, f[..]);
            && Cong(Val(B, b[..]), (va - vc) * (va - vc), P)
            && Cong(a4, (vd - vf) * 121665, P) && Cong(Val(B, c[..]), (vd - vf) * (a4 + vd), P)
  {
    e := GfAdd(a0, c0);
    var a := GfSub(a0, c0);
    b := GfSq(a);
    c := GfSub(d, f);
    a := GfMul121665(c);
    a4 := Val(B, a[..]);
    a := GfAdd(a, d);
    c := GfMul(c, a);
  }

  // The loop body between the swaps, with its reuse of a, b, c, d and e.
  method Step(a0: array<i64>, b0: array<i64>, c0: array<i64>, d0: array<i64>, x: array<i64>, ghost u: int,
              ghost s: Points)
    returns (a: array<i64>, b: array<i64>, c: array<i64>, d: array<i64>)
    requires Represents(a0, b0, c0, d0, s)
    requires x.Length == 16 && Tight(x[..]) && Cong(Val(B, x[..]), u, P)
    ensures Represents(a, b, c, d, Advance(u, s))
    ensures fresh(a) && fresh(b) && fresh(c) && fresh(d) && Apart(a, b, c, d)
  {
    var f, e;
    a, c, d, f := Products(a0, b0, c0, d0);
    ghost var a2, c2, d1, a4 := Val(B, a[..]), Val(B, c[..]), Val(B, d[..]), 0;
    e, b, c, a4 := Combine(a, c, d, f);
    ghost var b2 := Val(B, b[..]);
    a := GfMul(d, f);
    d := GfMul(b, x);
    b := GfSq(e);
    StepValues(u, s, Val(B, a0[..]), Val(B, b0[..]), Val(B, c0[..]), Val(B, d0[..]), Val(B, x[..]),
               d1, Val(B, f[..]), a2, c2, b2, a4, Val(B, c[..]), Val(B, a[..]), Val(B, d[..]), Val(B, b[..]));
  }

  ghost predicate Apart(a: array<i64>, b: array<i64>, c: array<i64>, d: array<i64>)
  {
    a != b && a != c && a != d && b != c && b != d && c != d
  }

  method SwapBoth(a: array<i64>, b: array<i64>, c: array<i64>, d: array<i64>, r: i64, ghost s: Points)
    requires Represents(a, b, c, d, s) && (r == 0 || r == 1)
    requires Apart(a, b, c, d)
    modifies a, b, c, d
    ensures Represents(a, b, c, d, CSwap(r, s))
  {
    Sel25519(a, b, r);
    Sel25519(c, d, r);
  }

  // What the swap-step-swap loop holds after the RFC's loop has done n bits.
  ghost function Unswapped(k: nat, u: int, n: nat): Points
    requires n <= 255
  {
    var s := Run(k, u, n);
    CSwap(s.swap, s.points)
  }

  lemma SwapStepSwap(k: nat, u: int, n: nat)
    requires n < 255
    ensures var r := ScalarBit(k, 254 - n);
            Unswapped(k, u, n + 1) == CSwap(r, Advance(u, CSwap(r, Unswapped(k, u, n))))
  {
    RunSwap(k, u, n);
  }

  lemma {:induction false} RunSwap(k: nat, u: int, n: nat)
    requires n <= 255
    ensures Run(k, u, n).swap in {0, 1}
  {
  }

  method Round(a0: array<i64>, b0: array<i64>, c0: array<i64>, d0: array<i64>, x: array<i64>, r: i64, ghost u: int,
               ghost s: Points)
    returns (a: array<i64>, b: array<i64>, c: array<i64>, d: array<i64>)
    requires Represents(a0, b0, c0, d0, s) && (r == 0 || r == 1)
    requires Apart(a0, b0, c0, d0) && x !in {a0, b0, c0, d0}
    requires x.Length == 16 && Tight(x[..]) && Cong(Val(B, x[..]), u, P)
    modifies a0, b0, c0, d0
    ensures Represents(a, b, c, d, CSwap(r, Advance(u, CSwap(r, s))))
    ensures fresh(a) && fresh(b) && fresh(c) && fresh(d) && Apart(a, b, c, d)
  {
    SwapBoth(a0, b0, c0, d0, r, s);
    a, b, c, d := Step(a0, b0, c0, d0, x, u, CSwap(r, s));
    SwapBoth(a, b, c, d, r, Advance(u, CSwap(r, s)));
  }

  method FirstPoints(x: array<i64>, ghost u: int) returns (a: array<i64>, b: array<i64>, c: array<i64>, d: array<i64>)
    requires x.Length == 16 && Tight(x[..]) && Val(B, x[..]) == u
    ensures Represents(a, b, c, d, Points(1, 0, u, 1))
    ensures fresh(a) && fresh(b) && fresh(c) && fresh(d) && Apart(a, b, c, d)
  {
    a := Gf1();
    b := Copy(x);
    c := Gf0();
    d := Gf1();
  }

  method LadderLoop(z: array<byte>, x: array<i64>, ghost k: nat, ghost u: int) returns (a: array<i64>, c: array<i64>)
    requires z.Length == 32 && Val(0x100, z[..]) == k
    requires x.Length == 16 && Tight(x[..]) && Val(B, x[..]) == u
    ensures fresh(a) && fresh(c) && a.Length == 16 && c.Length == 16 && Tight(a[..]) && Tight(c[..])
    ensures Cong(Val(B, a[..]), Unswapped(k, u, 255).x2, P) && Cong(Val(B, c[..]), Unswapped(k, u, 255).z2, P)
  {
    var b, d;
    a, b, c, d := FirstPoints(x, u);
    assert Unswapped(k, u, 0) == Points(1, 0, u, 1);
    for i := 255 downto 0
      invariant Represents(a, b, c, d, Unswapped(k, u, 255 - i))
      invariant fresh(a) && fresh(b) && fresh(c) && fresh(d) && Apart(a, b, c, d)
    {
      BitOfBytes(z[..], i);
      var r := Bits.And(Bits.Shr(z[i / 8], i % 8), 1);
      SwapStepSwap(k, u, 254 - i);
      a, b, c, d := Round(a, b, c, d, x, r, u, Unswapped(k, u, 254 - i));
    }
  }

  method Affine(a: array<i64>, c: array<i64>, ghost k: nat, ghost u: int) returns (out: array<byte>)
    requires a.Length == 16 && c.Length == 16 && Tight(a[..]) && Tight(c[..])
    requires Cong(Val(B, a[..]), Unswapped(k, u, 255).x2, P) && Cong(Val(B, c[..]), Unswapped(k, u, 255).z2, P)
    ensures fresh(out) && out.Length == 32 && Digits(0x100, out[..]) && Val(0x100, out[..]) == X25519(k, u)
  {
    var recip := Inv25519(c);
    var result := GfMul(a, recip);
    FinalValue(k, u, Val(B, a[..]), Val(B, c[..]), Val(B, recip[..]), Val(B, result[..]));
    out := new byte[32](_ => 0);
    Pack25519(out, result);
  }

  method LoadU(p: array<byte>) returns (x: array<i64>)
    requires p.Length == 32
    ensures fresh(x) && x.Length == 16 && Tight(x[..]) && Val(B, x[..]) == DecodeU(p[..])
  {
    x := new i64[16](_ => 0);
    Unpack25519(x, p);
  }

  method X25519ScalarMult(n: array<byte>, p: array<byte>) returns (out: array<byte>)
    requires n.Length == 32 && p.Length == 32
    ensures fresh(out) && out.Length == 32 && Digits(0x100, out[..])
    ensures DecodeScalar(n[..]) >= 0
    ensures Val(0x100, out[..]) == X25519(DecodeScalar(n[..]), DecodeU(p[..]))
  {
    var z := ClampScalar(n);
    ghost var k, u := DecodeScalar(n[..]), DecodeU(p[..]);
    DecodedScalar(n[..]);
    var x := LoadU(p);
    var a, c := LadderLoop(z, x, k, u);
    out := Affine(a, c, k, u);
  }

  lemma FinalValue(k: nat, u: int, a: int, c: int, recip: int, result: int)
    requires Cong(a, Unswapped(k, u, 255).x2, P) && Cong(c, Unswapped(k, u, 255).z2, P)
    requires Cong(recip, Power(c, INV_EXP), P) && Cong(result, a * recip, P)
    ensures result % P == X25519(k, u)
  {
    var s := Unswapped(k, u, 255);
    PowerCong(c, s.z2, INV_EXP, P);
    FOps(a, s.x2, recip, Power(s.z2, INV_EXP));
    CongMod(s.x2 * Power(s.z2, INV_EXP), P);
  }

  // ----- neq25519 -----

  method CtEq32(a: array<byte>, b: array<byte>) returns (r: bool)
    requires a.Length == 32 && b.Length == 32
    ensures r <==> a[..] == b[..]
  {
    var diff := 0;
    for i := 0 to 32
      invariant diff == 0 <==> a[..i] == b[..i]
    {
      Bits.XorZero(a[i], b[i]);
      Bits.OrZero(diff, Bits.Xor(a[i], b[i]));
      assert a[..i + 1] == a[..i] + [a[i]] && b[..i + 1] == b[..i] + [b[i]];
      diff := Bits.Or(diff, Bits.Xor(a[i], b[i]));
    }
    r := diff == 0;
    assert a[..32] == a[..] && b[..32] == b[..];
  }

  // Elements differ exactly when their limb vectors are incongruent modulo P.
  method Neq25519(a: array<i64>, b: array<i64>) returns (r: bool)
    requires a.Length == 16 && b.Length == 16 && Bounded(a[..], TWO62) && Bounded(b[..], TWO62)
    ensures r <==> !Cong(Val(B, a[..]), Val(B, b[..]), P)
  {
    var c, d := new byte[32](_ => 0), new byte[32](_ => 0);
    Pack25519(c, a);
    Pack25519(d, b);
    var same := CtEq32(c, d);
    if Val(0x100, c[..]) == Val(0x100, d[..]) {
      ValInjective(0x100, c[..], d[..]);
    }
    r := !same;
  }
}
