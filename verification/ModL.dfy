// Reduction modulo the Ed25519 group order (section 5.1 of RFC 8032), src/crypto.rs mod_l.

module ModLSpec {
  import opened Radix

  const L: int := 0x10000000_00000000_00000000_00000000_14def9de_a2f79cd6_5812631a_5cf5d3ed
  const C: int := 0x14def9de_a2f79cd6_5812631a_5cf5d3ed    // L - 2^252
  const W31: int := 0x1000000_00000000_00000000_00000000_00000000_00000000_00000000_00000000  // 256^31
  const M21: int := 0x20_0000

  function LByte(j: int): int
  {
    if j == 0 then 0xed else if j == 1 then 0xd3 else if j == 2 then 0xf5 else if j == 3 then 0x5c
    else if j == 4 then 0x1a else if j == 5 then 0x63 else if j == 6 then 0x12 else if j == 7 then 0x58
    else if j == 8 then 0xd6 else if j == 9 then 0x9c else if j == 10 then 0xf7 else if j == 11 then 0xa2
    else if j == 12 then 0xde else if j == 13 then 0xf9 else if j == 14 then 0xde else if j == 15 then 0x14
    else if j == 31 then 0x10 else 0
  }

  function LBytes(n: nat): (s: seq<int>)
    ensures |s| == n && forall k :: 0 <= k < n ==> s[k] == LByte(k)
  {
    seq(n, k => LByte(k))
  }

  lemma Snoc(s: seq<int>, i: nat)
    requires i < |s|
    ensures Val(0x100, s[..i + 1]) == Val(0x100, s[..i]) + Pow(0x100, i) * s[i]
  {
    assert s[..i + 1] == s[..i] + [s[i]];
    ValSnoc(0x100, s[..i], s[i]);
  }

  lemma Byte8(s: seq<int>)
    requires |s| == 8
    ensures Val(0x100, s)
         == s[0] + 0x100 * (s[1] + 0x100 * (s[2] + 0x100 * (s[3]
              + 0x100 * (s[4] + 0x100 * (s[5] + 0x100 * (s[6] + 0x100 * s[7]))))))
  {
    var t1 := s[1..];
    var t2 := t1[1..];
    var t3 := t2[1..];
    var t4 := t3[1..];
    var t5 := t4[1..];
    var t6 := t5[1..];
    var t7 := t6[1..];
    assert t7[1..] == [] && Val(0x100, t7) == t7[0];
    assert Val(0x100, t6) == t6[0] + 0x100 * Val(0x100, t7);
    assert Val(0x100, t5) == t5[0] + 0x100 * Val(0x100, t6);
    assert Val(0x100, t4) == t4[0] + 0x100 * Val(0x100, t5);
    assert Val(0x100, t3) == t3[0] + 0x100 * Val(0x100, t4);
    assert Val(0x100, t2) == t2[0] + 0x100 * Val(0x100, t3);
    assert Val(0x100, t1) == t1[0] + 0x100 * Val(0x100, t2);
  }

  lemma Powers()
    ensures Pow(0x100, 8) == 0x1_00000000_00000000
    ensures Pow(0x100, 16) == 0x1_00000000_00000000_00000000_00000000
    ensures Pow(0x100, 31) == W31 && Pow(0x100, 32) == 0x100 * W31 && L == 16 * W31 + C
  {
    assert Pow(0x100, 2) == 0x1_0000 && Pow(0x100, 1) == 0x100;
    PowerOfSum(2, 0x1_0000, 2, 0x1_0000);
    PowerOfSum(4, 0x1_0000_0000, 4, 0x1_0000_0000);
    PowerOfSum(8, 0x1_00000000_00000000, 8, 0x1_00000000_00000000);
    PowerOfSum(4, 0x1_0000_0000, 2, 0x1_0000);
    PowerOfSum(6, 0x1_0000_00000000, 1, 0x100);
    PowerOfSum(8, 0x1_00000000_00000000, 7, 0x1_000000_00000000);
    PowerOfSum(16, 0x1_00000000_00000000_00000000_00000000, 15, 0x1_000000_00000000_00000000_00000000);
    PowerOfSum(31, W31, 1, 0x100);
  }

  lemma PowerOfSum(a: nat, p: int, b: nat, q: int)
    requires Pow(0x100, a) == p && Pow(0x100, b) == q
    ensures Pow(0x100, a + b) == p * q
  {
    PowAdd(0x100, a, b);
  }

  lemma HalfTable()
    ensures Val(0x100, LBytes(16)) == C
  {
    var a, b := LBytes(8), LBytes(16)[8..];
    Powers();
    Byte8(a);
    Byte8(b);
    assert LBytes(16) == a + b;
    ValConcat(0x100, a, b);
  }

  lemma ShortTable(n: nat)
    requires 16 <= n <= 31
    ensures Val(0x100, LBytes(n)) == C
  {
    var s := LBytes(n);
    forall k | 16 <= k < n ensures s[k] == 0 { assert LByte(k) == 0; }
    ZeroTail(s, 16);
    assert s[..16] == LBytes(16);
    HalfTable();
  }

  lemma TableTop(n: nat, b: int)
    requires b == LByte(n)
    ensures Val(0x100, LBytes(n + 1)) == Val(0x100, LBytes(n)) + Pow(0x100, n) * b
  {
    assert LBytes(n + 1) == LBytes(n) + [b];
    ValSnoc(0x100, LBytes(n), b);
  }

  // The table L spells the order.
  lemma TableValue()
    ensures Val(0x100, LBytes(32)) == L
  {
    ShortTable(31);
    TableTop(31, LByte(31));
    Powers();
  }

  lemma ZeroTail(s: seq<int>, n: nat)
    requires n <= |s| && forall k :: n <= k < |s| ==> s[k] == 0
    ensures Val(0x100, s) == Val(0x100, s[..n])
  {
    assert s == s[..n] + s[n..];
    ValConcat(0x100, s[..n], s[n..]);
    ValZeros(0x100, s[n..]);
  }

  // ----- bounds -----

  ghost predicate Within(x: seq<int>, m: int)
  {
    forall k :: 0 <= k < |x| ==> -m <= x[k] <= m
  }

  // Before position i is eliminated: what is above is gone, a window of twenty is reduced,
  // and the positions between the window and i are nearly so.
  ghost predicate Pending(x: seq<int>, i: int)
  {
    && |x| == 64 && 31 <= i < 64
    && (forall k :: i < k < 64 ==> x[k] == 0)
    && Within(x, 2 * M21)
    && (forall k :: 0 <= k <= i - 32 ==> -M21 <= x[k] <= M21)
    && (i == 63 ==> Within(x, M21))
    && (i < 63 ==> forall k :: 0 <= k && i - 32 < k <= i - 12 ==> -128 <= x[k] < 128)
    && (forall k :: i - 12 < k <= i && k <= 50 ==> -130 <= x[k] <= 130)
  }
}

module ModL {
  import opened MachineInts
  import opened DivMod
  import opened Modular
  import opened Radix
  import opened ModLSpec
  import Bits

  // ----- the signed-carry windows -----

  // How large a carry can be n positions into a window.
  function CarryCap(i: int, n: int): int
  {
    if n <= 16 then 0x800_0000
    else if n == 17 then 0x10_0000
    else if i == 63 then 0x4000
    else if n == 18 then 0x1001 else if n == 19 then 0x12 else 2
  }

  // One window entry: a signed byte and what it passes on.
  method Entry(entry: i64, carry: i64, xi: i64, ghost i: int, n: int) returns (low: i64, next: i64)
    requires 32 <= i <= 63 && 0 <= n < 20 && -2 * M21 <= xi <= 2 * M21
    requires -CarryCap(i, n) <= carry <= CarryCap(i, n)
    requires -M21 <= entry <= M21 && (i < 63 && n >= 1 ==> -128 <= entry < 128)
    ensures low + 0x100 * next == entry + carry - 16 * xi * LByte(n)
    ensures -128 <= low < 128 && -CarryCap(i, n + 1) <= next <= CarryCap(i, n + 1)
  {
    TimesByte(xi, LByte(n));
    assert n >= 16 ==> LByte(n) == 0;
    var m: i64 := 16 * xi * LByte(n);
    var y: i64 := entry + (carry - m);
    next := (y + 128) / 0x100;
    low := y - next * 0x100;
  }

  lemma TimesByte(x: int, b: int)
    requires -2 * M21 <= x <= 2 * M21 && 0 <= b <= 255
    ensures -2 * M21 * 255 <= x * b <= 2 * M21 * 255
  {
    MulLe(-2 * M21, x, b);
    MulLe(x, 2 * M21, b);
  }

  lemma WindowStep(p: int, low: int, was: int, c0: int, c1: int, m: int)
    requires low + 0x100 * c1 == was + c0 - m
    ensures p * (low - was) + (0x100 * p) * c1 == p * c0 - p * m
  {
    Distrib(p, c0, m);
    MulAssoc(p, 0x100, c1);
    Distrib(p, c0 - m, 0x100 * c1);
  }

  // The part of x[i] * 16L * 256^(i-32) subtracted after n window entries.
  function Taken(i: int, xi: int, n: nat): int
    requires 32 <= i
  {
    Pow(0x100, i - 32) * (16 * xi * Val(0x100, LBytes(n)))
  }

  lemma WindowValue(before: seq<int>, i: int, n: nat, xi: int, low: int, c0: int, c1: int)
    requires |before| == 64 && 32 <= i < 64 && n < 20
    requires low + 0x100 * c1 == before[i - 32 + n] + c0 - 16 * xi * LByte(n)
    ensures Val(0x100, before[i - 32 + n := low]) + Pow(0x100, i - 32 + n + 1) * c1 + Taken(i, xi, n + 1)
         == Val(0x100, before) + Pow(0x100, i - 32 + n) * c0 + Taken(i, xi, n)
  {
    ValUpdate(0x100, before, i - 32 + n, low);
    TakenNext(i, xi, n);
    WindowSum(Val(0x100, before), Val(0x100, before[i - 32 + n := low]), Pow(0x100, i - 32 + n), low,
              before[i - 32 + n], c0, c1, 16 * xi * LByte(n), Taken(i, xi, n), Taken(i, xi, n + 1));
  }

  lemma WindowSum(v: int, v': int, p: int, low: int, was: int, c0: int, c1: int, m: int, t: int, t': int)
    requires low + 0x100 * c1 == was + c0 - m
    requires v' == v + p * (low - was) && t' == t + p * m
    ensures v' + (0x100 * p) * c1 + t' == v + p * c0 + t
  {
    WindowStep(p, low, was, c0, c1, m);
  }

  lemma TakenNext(i: int, xi: int, n: nat)
    requires 32 <= i
    ensures Taken(i, xi, n + 1) == Taken(i, xi, n) + Pow(0x100, i - 32 + n) * (16 * xi * LByte(n))
  {
    PowAdd(0x100, i - 32, n);
    TableTop(n, LByte(n));
    TableStep(Pow(0x100, i - 32), Pow(0x100, n), xi, Val(0x100, LBytes(n)), LByte(n));
  }

  lemma TakenEnds(i: int, xi: int)
    requires 32 <= i
    ensures Taken(i, xi, 0) == 0 && Taken(i, xi, 20) == Pow(0x100, i - 32) * (16 * xi * C)
  {
    assert Val(0x100, LBytes(0)) == 0;
    ShortTable(20);
    TimesZero(Pow(0x100, i - 32), 16 * xi);
  }

  lemma TimesZero(w: int, y: int)
    ensures w * (y * 0) == 0
  {
  }

  // Where the window stands before entry j.
  ghost predicate Windowed(s: seq<int>, x: seq<int>, i: int, j: int, carry: int)
  {
    && |x| == |s| == 64 && 32 <= i < 64 && i - 32 <= j <= i - 12
    && (forall k :: 0 <= k < i - 32 || j <= k < 64 ==> x[k] == s[k])
    && (forall k :: i - 32 <= k < j ==> -128 <= x[k] < 128)
    && -CarryCap(i, j - (i - 32)) <= carry <= CarryCap(i, j - (i - 32))
    && Val(0x100, x) + Pow(0x100, j) * carry + Taken(i, s[i], j - (i - 32)) == Val(0x100, s)
  }

  lemma WindowTurned(s: seq<int>, x: seq<int>, i: int, j: int, c0: int, low: int, c1: int)
    requires Windowed(s, x, i, j, c0) && j < i - 12 && -128 <= low < 128
    requires low + 0x100 * c1 == x[j] + c0 - 16 * s[i] * LByte(j - (i - 32))
    requires -CarryCap(i, j - (i - 32) + 1) <= c1 <= CarryCap(i, j - (i - 32) + 1)
    ensures Windowed(s, x[j := low], i, j + 1, c1)
  {
    WindowValue(x, i, j - (i - 32), s[i], low, c0, c1);
  }

  // Subtracts 16 * x[i] * L * 256^(i-32) except for its top term, which cancels x[i] itself.
  method Window(x: array<i64>, i: int) returns (carry: i64)
    requires x.Length == 64 && 32 <= i < 64 && Pending(x[..], i)
    modifies x
    ensures forall k :: 0 <= k < i - 32 || i - 12 <= k < 64 ==> x[k] == old(x[k])
    ensures forall k :: i - 32 <= k < i - 12 ==> -128 <= x[k] < 128
    ensures -CarryCap(i, 20) <= carry <= CarryCap(i, 20)
    ensures Val(0x100, x[..]) + Pow(0x100, i - 12) * carry == old(Val(0x100, x[..])) - Taken(i, old(x[i]), 20)
  {
    ghost var s := x[..];
    var j := i - 32;
    carry := 0;
    TakenEnds(i, x[i]);
    while j < i - 12
      invariant Windowed(s, x[..], i, j, carry)
    {
      ghost var before, c0 := x[..], carry;
      assert x[j] == before[j] == s[j] && x[i] == before[i] == s[i];
      x[j], carry := Entry(x[j], carry, x[i], i, j - (i - 32));
      assert x[..] == before[j := x[j]];
      WindowTurned(s, before, i, j, c0, x[j], carry);
      j := j + 1;
    }
  }

  lemma TableStep(w: int, p: int, x: int, t: int, b: int)
    ensures (w * p) * (16 * x * b) == w * (16 * x * (t + p * b)) - w * (16 * x * t)
  {
    var y := 16 * x;
    Distrib(y, t, p * b);
    Distrib(w, y * t, y * (p * b));
    assert (w * p) * (y * b) == w * (y * (p * b));
  }

  lemma PendingNext(s: seq<int>, t: seq<int>, i: int, carry: int)
    requires 32 <= i < 64 && Pending(s, i) && |t| == 64
    requires -CarryCap(i, 20) <= carry <= CarryCap(i, 20)
    requires forall k :: 0 <= k < i - 32 || (i - 12 < k < 64 && k != i) ==> t[k] == s[k]
    requires forall k :: i - 32 <= k < i - 12 ==> -128 <= t[k] < 128
    requires t[i - 12] == s[i - 12] + carry && t[i] == 0
    ensures Pending(t, i - 1)
  {
  }

  lemma EliminateValue(s0: seq<int>, s1: seq<int>, s3: seq<int>, i: int, carry: int)
    requires 32 <= i < 64 && |s0| == 64 && |s1| == 64
    requires Val(0x100, s1) + Pow(0x100, i - 12) * carry == Val(0x100, s0) - Taken(i, s0[i], 20)
    requires s1[i] == s0[i] && s3 == s1[i - 12 := s1[i - 12] + carry][i := 0]
    ensures Cong(Val(0x100, s3), Val(0x100, s0), L)
  {
    ValUpdate(0x100, s1, i - 12, s1[i - 12] + carry);
    ValUpdate(0x100, s1[i - 12 := s1[i - 12] + carry], i, 0);
    TakenEnds(i, s0[i]);
    PowAdd(0x100, i - 32, 32);
    Powers();
    DropsMultiple(Val(0x100, s0), Val(0x100, s3), Pow(0x100, i - 32), Pow(0x100, 32), Pow(0x100, i), s0[i]);
  }

  // The window, its last carry, and dropping x[i]: a multiple of L in all.
  method Eliminate(x: array<i64>, i: int)
    requires x.Length == 64 && 32 <= i < 64 && Pending(x[..], i)
    modifies x
    ensures Pending(x[..], i - 1)
    ensures Cong(Val(0x100, x[..]), old(Val(0x100, x[..])), L)
  {
    ghost var s0 := x[..];
    var carry := Window(x, i);
    ghost var s1 := x[..];
    x[i - 12] := x[i - 12] + carry;
    x[i] := 0;
    assert x[..] == s1[i - 12 := s1[i - 12] + carry][i := 0];
    PendingNext(s0, x[..], i, carry);
    EliminateValue(s0, s1, x[..], i, carry);
  }

  lemma DropsMultiple(before: int, after: int, w: int, p: int, q: int, x: int)
    requires p == 0x100 * W31 && q == w * p && after == before - w * (16 * x * C) + q * (0 - x)
    ensures Cong(after, before, L)
  {
    var y := w * x;
    assert q * (0 - x) == -(p * y) by { MulAssoc(p, w, x); }
    assert w * (16 * x * C) == 16 * C * y by { MulAssoc(w, x, 16 * C); }
    assert 16 * C * y + p * y == (16 * y) * L;
    FromMultiple(after, before, -(16 * y), L);
  }

  // ----- the last passes -----

  // 255 |v| <= m (256^n - 1) for n limbs of magnitude at most m.
  lemma {:induction false} SmallLimbs(s: seq<int>, m: int)
    requires Within(s, m) && m >= 0
    ensures 255 * Val(0x100, s) <= m * (Pow(0x100, |s|) - 1)
    ensures 255 * Val(0x100, s) >= -(m * (Pow(0x100, |s|) - 1))
  {
    if s == [] {
      assert m * 0 == 0;
    } else {
      SmallLimbs(s[1..], m);
      var p := Pow(0x100, |s| - 1);
      assert m * (0x100 * p - 1) == 0x100 * (m * (p - 1)) + 255 * m;
    }
  }

  // What the window phase leaves is within one L of its top limb's last four bits.
  lemma TopEstimate(s: seq<int>, v: int)
    requires |s| == 32 && Within(s, 130) && v == Val(0x100, s) - (s[31] / 16) * L
    ensures -L < v < L
  {
    assert s[..32] == s;
    Snoc(s, 31);
    SmallLimbs(s[..31], 130);
    Powers();
    var q, top := s[31] / 16, s[31];
    assert top == 16 * q + top % 16;
    assert -9 <= q <= 8;
    Estimate(q, top % 16, Val(0x100, s[..31]), v);
  }

  lemma Estimate(q: int, low: int, rest: int, v: int)
    requires -9 <= q <= 8 && 0 <= low < 16 && -130 * W31 <= 255 * rest <= 130 * W31
    requires v == rest + W31 * (16 * q + low) - q * L
    ensures -L < v < L
  {
    assert q * L == 16 * (W31 * q) + q * C;
    MulLe(-9, q, C);
    MulLe(q, 8, C);
    MulLe(0, low, W31);
    MulLe(low, 15, W31);
  }

  // Folding t[..n] into bytes: digits so far plus the pending carry.
  method SubtractTop(x: array<i64>) returns (carry: i64)
    requires x.Length == 64 && Within(x[..32], 130)
    requires forall k :: 32 <= k < 64 ==> x[k] == 0
    modifies x
    ensures Digits(0x100, x[..32]) && (forall k :: 32 <= k < 64 ==> x[k] == 0)
    ensures -0x1_0000 <= carry <= 0x1_0000
    ensures Val(0x100, x[..32]) + Pow(0x100, 32) * carry == old(Val(0x100, x[..32])) - (old(x[31]) / 16) * L
  {
    ghost var s := x[..];
    ghost var q := s[31] / 16;
    carry := 0;
    assert s[..32][31] == s[31];
    for j := 0 to 32
      invariant forall k :: j <= k < 64 ==> x[k] == s[k]
      invariant forall k :: 0 <= k < j ==> 0 <= x[k] < 0x100
      invariant -0x1_0000 <= carry <= 0x1_0000
      invariant Val(0x100, x[..j]) + Pow(0x100, j) * carry == Val(0x100, s[..j]) - q * Val(0x100, LBytes(j))
    {
      assert s[..32][j] == s[j];
      ghost var c0, before := carry, x[..j];
      x[j], carry := TopEntry(x[j], carry, x[31], j);
      assert x[..j] == before;
      assert x[..j + 1] == before + [x[j]];
      TopValue(before, s, j, c0, q, x[j], carry);
    }
    TableValue();
  }

  lemma TopValue(before: seq<int>, s: seq<int>, j: nat, c0: int, q: int, low: int, c1: int)
    requires |before| == j < 32 && |s| == 64 && low + 0x100 * c1 == s[j] + c0 - q * LByte(j)
    requires Val(0x100, before) + Pow(0x100, j) * c0 == Val(0x100, s[..j]) - q * Val(0x100, LBytes(j))
    ensures Val(0x100, before + [low]) + Pow(0x100, j + 1) * c1
         == Val(0x100, s[..j + 1]) - q * Val(0x100, LBytes(j + 1))
  {
    ValSnoc(0x100, before, low);
    Snoc(s, j);
    TableTop(j, LByte(j));
    TopSum(Pow(0x100, j), Val(0x100, before), Val(0x100, s[..j]), Val(0x100, LBytes(j)), s[j], c0, q, LByte(j), low,
           c1);
  }

  lemma TopSum(p: int, v: int, u: int, t: int, x: int, c0: int, q: int, b: int, low: int, c1: int)
    requires low + 0x100 * c1 == x + c0 - q * b && v + p * c0 == u - q * t
    ensures (v + p * low) + (0x100 * p) * c1 == (u + p * x) - q * (t + p * b)
  {
    TopStep(p, x, c0, q, b, low, c1);
    Distrib(q, t, p * b);
  }

  lemma TopStep(p: int, x: int, c0: int, q: int, b: int, low: int, c1: int)
    requires low + 0x100 * c1 == x + c0 - q * b
    ensures p * low + (0x100 * p) * c1 == p * x + p * c0 - q * (p * b)
  {
    MulAssoc(p, 0x100, c1);
    Distrib(p, low, 0x100 * c1);
    Distrib(p, x + c0, q * b);
    Distrib(p, x, c0);
    assert p * (q * b) == q * (p * b);
  }

  method TopEntry(x: i64, carry: i64, top: i64, j: int) returns (low: i64, next: i64)
    requires -130 <= x <= 130 && -130 <= top <= 130 && -0x1_0000 <= carry <= 0x1_0000
    ensures 0 <= low < 0x100 && -0x1_0000 <= next <= 0x1_0000
    ensures low + 0x100 * next == x + carry - (top / 16) * LByte(j)
  {
    MulLe(-9, top / 16, LByte(j));
    MulLe(top / 16, 9, LByte(j));
    var y: i64 := x + (carry - (top / 16) * LByte(j));
    var b;
    b, next := SplitByte(y);
    low := b;
  }

  lemma ByteMask(y: int)
    ensures Bits.And(y, 255) == y % 0x100
  {
    assert Bits.Pow2(8) == 0x100;
    Bits.AndMaskAt(y, 8, 0x100);
  }

  method AddBack(x: array<i64>, carry: i64)
    requires x.Length == 64 && Digits(0x100, x[..32]) && -0x1_0000 <= carry <= 0x1_0000
    requires forall k :: 32 <= k < 64 ==> x[k] == 0
    modifies x
    ensures forall k :: 32 <= k < 64 ==> x[k] == 0
    ensures forall k :: 0 <= k < 32 ==> -0x200_0000 <= x[k] <= 0x200_0000
    ensures Val(0x100, x[..32]) == old(Val(0x100, x[..32])) - carry * L
  {
    ghost var s, table := x[..32], LBytes(32);
    for j := 0 to 32
      invariant forall k :: j <= k < 32 ==> x[k] == s[k]
      invariant forall k :: 32 <= k < 64 ==> x[k] == 0
      invariant forall k :: 0 <= k < j ==> x[k] == s[k] - carry * table[k] && -0x200_0000 <= x[k] <= 0x200_0000
    {
      x[j] := Back(x[j], carry, j);
      assert table[j] == LByte(j);
    }
    Scaled(s, table, carry, x[..32]);
    TableValue();
  }

  method Back(x: i64, carry: i64, j: int) returns (y: i64)
    requires 0 <= x < 0x100 && -0x1_0000 <= carry <= 0x1_0000
    ensures y == x - carry * LByte(j) && -0x200_0000 <= y <= 0x200_0000
  {
    MulLe(-0x1_0000, carry, LByte(j));
    MulLe(carry, 0x1_0000, LByte(j));
    y := x - carry * LByte(j);
  }

  lemma {:induction false} Scaled(s: seq<int>, t: seq<int>, c: int, u: seq<int>)
    requires |s| == |t| == |u| && forall k :: 0 <= k < |s| ==> u[k] == s[k] - c * t[k]
    ensures Val(0x100, u) == Val(0x100, s) - c * Val(0x100, t)
  {
    if s != [] {
      Scaled(s[1..], t[1..], c, u[1..]);
      var v, w := Val(0x100, s[1..]), Val(0x100, t[1..]);
      Distrib(c, t[0], 0x100 * w);
      assert c * (0x100 * w) == 0x100 * (c * w);
    }
  }

  // Carries upward, keeping the low byte of each limb; the carry out of limb 31 is dropped.
  method Emit(x: array<i64>, r: array<byte>) returns (ghost over: int)
    requires x.Length == 64 && r.Length == 64
    requires forall k :: 0 <= k < 32 ==> -0x200_0000 <= x[k] <= 0x200_0000
    requires x[32] == 0
    modifies x, r
    ensures Val(0x100, r[..32]) + Pow(0x100, 32) * over == old(Val(0x100, x[..32]))
    ensures forall k :: 32 <= k < 64 ==> r[k] == old(r[k])
  {
    ghost var s := x[..];
    over := 0;
    for i := 0 to 32
      invariant forall k :: i < k <= 32 ==> x[k] == s[k]
      invariant x[i] == s[i] + over && -0x4_0000 <= over <= 0x4_0000
      invariant Val(0x100, r[..i]) + Pow(0x100, i) * over == Val(0x100, s[..i])
      invariant forall k :: 32 <= k < 64 ==> r[k] == old(r[k])
    {
      ghost var before, c0 := r[..i], over;
      var low, up := SplitByte(x[i]);
      over := up;
      x[i + 1] := x[i + 1] + up;
      r[i] := low;
      assert r[..i] == before;
      assert r[..i + 1] == before + [r[i]];
      ValSnoc(0x100, before, r[i]);
      Snoc(s, i);
      EmitStep(Pow(0x100, i), s[i], c0, r[i], over);
    }
    assert s[..32] == old(x[..32]);
  }

  // `x[i] >> 8` and `(x[i] & 255) as u8`.
  method SplitByte(x: i64) returns (low: byte, up: i64)
    ensures x == low + 0x100 * up
  {
    ByteMask(x);
    up := x / 0x100;
    low := Bits.And(x, 255) % 0x100;
  }

  lemma EmitStep(p: int, x: int, c0: int, low: int, c1: int)
    requires low + 0x100 * c1 == x + c0
    ensures p * low + (0x100 * p) * c1 == p * x + p * c0
  {
    MulAssoc(p, 0x100, c1);
    Distrib(p, low, 0x100 * c1);
    Distrib(p, x, c0);
  }

  // The three passes together give the canonical residue of what the windows leave; m is the
  // modulus and p the range of the digits.
  lemma Residue(m: int, p: int, v: int, q: int, digits: int, carry: int, back: int, bytes: int, over: int)
    requires 0 < m < p && 0 <= digits < p && 0 <= bytes < p
    requires -m < v - q * m < m && digits + p * carry == v - q * m
    requires back == digits - carry * m && bytes + p * over == back
    ensures bytes == v % m
  {
    var w := v - q * m;
    if w >= 0 {
      QuotRem(w, 0, w, p);
      QuotRem(w, carry, digits, p);
      QuotRem(back, 0, w, p);
      QuotRem(back, over, bytes, p);
      QuotRem(v, q, w, m);
    } else {
      QuotRem(w, -1, w + p, p);
      QuotRem(w, carry, digits, p);
      QuotRem(back, 1, w + m, p);
      QuotRem(back, over, bytes, p);
      assert v == (q - 1) * m + (w + m) by { assert (q - 1) * m == q * m - m; }
      QuotRem(v, q - 1, w + m, m);
    }
  }

  lemma AfterWindows(x: seq<int>)
    requires Pending(x, 31)
    ensures Within(x[..32], 130) && Val(0x100, x) == Val(0x100, x[..32])
  {
    ZeroTail(x, 32);
  }

  // The canonical 32-byte residue modulo L of a 64-limb number.
  method ModL(r: array<byte>, x: array<i64>)
    requires r.Length == 64 && x.Length == 64 && Within(x[..], M21)
    modifies r, x
    ensures Val(0x100, r[..32]) == old(Val(0x100, x[..])) % L
    ensures forall k :: 32 <= k < 64 ==> r[k] == old(r[k])
  {
    ghost var v0 := Val(0x100, x[..]);
    for i := 64 downto 32
      invariant Pending(x[..], i - 1)
      invariant Cong(Val(0x100, x[..]), v0, L)
      invariant r[..] == old(r[..])
    {
      Eliminate(x, i);
    }
    AfterWindows(x[..]);
    LastSteps(r, x);
  }

  // Take off the estimated multiple of the order, add it back if that was one too many, and
  // write the bytes.
  method LastSteps(r: array<byte>, x: array<i64>)
    requires r.Length == 64 && x.Length == 64 && Within(x[..32], 130) && forall k :: 32 <= k < 64 ==> x[k] == 0
    modifies r, x
    ensures Val(0x100, r[..32]) == old(Val(0x100, x[..32])) % L
    ensures forall k :: 32 <= k < 64 ==> r[k] == old(r[k])
  {
    ghost var v := Val(0x100, x[..32]);
    ghost var q := x[31] / 16;
    TopEstimate(x[..32], v - q * L);
    var carry := SubtractTop(x);
    ghost var digits := Val(0x100, x[..32]);
    ValRange(0x100, x[..32]);
    AddBack(x, carry);
    ghost var back := Val(0x100, x[..32]);
    ghost var over := Emit(x, r);
    Powers();
    ValRange(0x100, r[..32]);
    Residue(L, Pow(0x100, 32), v, q, digits, carry, back, Val(0x100, r[..32]), over);
  }

  // ----- what signing and verifying pass in -----

  method Reduce(r: array<byte>)
    requires r.Length == 64
    modifies r
    ensures Val(0x100, r[..32]) == old(Val(0x100, r[..])) % L
    ensures forall k :: 32 <= k < 64 ==> r[k] == 0
  {
    var x := new i64[64](i requires 0 <= i < 64 reads r => r[i]);
    ghost var s := r[..];
    assert x[..] == s;
    for i := 0 to 64
      invariant forall k :: 0 <= k < i ==> r[k] == 0
      invariant x[..] == s
    {
      r[i] := 0;
    }
    label Cleared:
    ModL(r, x);
    assert forall k :: 32 <= k < 64 ==> r[k] == old@Cleared(r[k]);
  }

  lemma ByteProduct(a: int, b: int)
    requires 0 <= a < 0x100 && 0 <= b < 0x100
    ensures 0 <= a * b <= 65025
  {
    MulLe(0, a, b);
    MulLe(a, 255, b);
  }

  // x += a * 256^i * b for one byte a of the first factor.
  method AddRow(x: array<i64>, a: byte, b: seq<byte>, i: nat)
    requires x.Length == 64 && |b| == 32 && i < 32
    requires forall k :: 0 <= k < 64 ==> 0 <= x[k] <= 255 + i * 65025
    modifies x
    ensures forall k :: 0 <= k < 64 ==> 0 <= x[k] <= 255 + (i + 1) * 65025
    ensures Val(0x100, x[..]) == old(Val(0x100, x[..])) + Pow(0x100, i) * (a * Val(0x100, b))
  {
    ghost var v0 := Val(0x100, x[..]);
    assert b[..0] == [];
    for j := 0 to 32
      invariant forall k :: 0 <= k < i + j ==> 0 <= x[k] <= 255 + (i + 1) * 65025
      invariant forall k :: i + j <= k < 64 ==> 0 <= x[k] <= 255 + i * 65025
      invariant Val(0x100, x[..]) == v0 + Pow(0x100, i) * (a * Val(0x100, b[..j]))
    {
      ByteProduct(a, b[j]);
      ghost var before := x[..];
      x[i + j] := x[i + j] + (a as int) * b[j];
      assert x[..] == before[i + j := before[i + j] + (a as int) * b[j]];
      ValUpdate(0x100, before, i + j, before[i + j] + (a as int) * b[j]);
      Snoc(b, j);
      PowAdd(0x100, i, j);
      RowStep(Pow(0x100, i), Pow(0x100, j), a, b[j], Val(0x100, b[..j]), Val(0x100, b[..j + 1]));
    }
    assert b[..32] == b;
  }

  lemma ColumnStep(r: int, h: int, p: int, x: int, v: int)
    ensures r + (h + p * x) * v == r + h * v + p * (x * v)
  {
    Distrib(v, h, p * x);
    MulAssoc(p, x, v);
  }

  // The signature's scalar half: (r + h * a) mod L.
  method SignScalar(r: seq<byte>, h: seq<byte>, a: seq<byte>) returns (s: array<byte>)
    requires |r| == 32 && |h| == 32 && |a| == 32
    ensures fresh(s) && s.Length == 64
    ensures Val(0x100, s[..32]) == (Val(0x100, r) + Val(0x100, h) * Val(0x100, a)) % L
  {
    var x := new i64[64](i requires 0 <= i < 64 => if i < 32 then r[i] else 0);
    ZeroTail(x[..], 32);
    assert x[..][..32] == r && h[..0] == [];
    for i := 0 to 32
      modifies x
      invariant forall k :: 0 <= k < 64 ==> 0 <= x[k] <= 255 + i * 65025
      invariant Val(0x100, x[..]) == Val(0x100, r) + Val(0x100, h[..i]) * Val(0x100, a)
    {
      AddRow(x, h[i], a, i);
      Snoc(h, i);
      ColumnStep(Val(0x100, r), Val(0x100, h[..i]), Pow(0x100, i), h[i], Val(0x100, a));
    }
    assert h[..32] == h;
    s := new byte[64](_ => 0);
    ModL(s, x);
  }
}
