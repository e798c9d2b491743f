// src/crypto.rs, poly1305_mac: u32 limbs, u64 products, wrapping additions that never wrap.

module Poly1305 {
  import opened MachineInts
  import opened DivMod
  import opened Modular
  import opened Radix
  import opened PolySpec
  import opened PolyLimbs
  import Bits

  // u32::wrapping_add and wrapping_sub.
  function WrapAdd(x: int, y: int): int { (x + y) % TWO32 }
  function WrapSub(x: int, y: int): int { (x - y) % TWO32 }

  // Between blocks only limb 1 may stick out, by fewer than 2^6.
  ghost predicate Carried(h: seq<int>)
  {
    && |h| == 5 && (forall k :: 0 <= k < 5 ==> 0 <= h[k] < TWO26 + 0x40)
    && h[0] < TWO26 && h[2] < TWO26 && h[3] < TWO26 && h[4] < TWO26
  }

  ghost predicate Clamped(r: seq<int>)
  {
    |r| == 5 && forall k :: 0 <= k < 5 ==> 0 <= r[k] <= Masks()[k]
  }

  ghost predicate Bytes(s: seq<int>) { Digits(0x100, s) }

  // ----- key -----

  function Key17(key: seq<int>): seq<int>
    requires |key| == 32
  {
    key[..16] + [0]
  }

  // Byte 3 i of the key, shifted to the bit where limb i starts.
  function KeyWord(key: seq<int>, k: nat): int
    requires |key| >= 16 && k < 5
  {
    if k == 0 then Le32(key, 0)
    else if k == 1 then Le32(key, 3) / 4
    else if k == 2 then Le32(key, 6) / 0x10
    else if k == 3 then Le32(key, 9) / 0x40
    else Le32(key, 12) / 0x100
  }

  lemma CutIs0(a: int, b: int, c: int, d: int)
    requires 0 <= a < 0x100 && 0 <= b < 0x100 && 0 <= c < 0x100
    ensures Word(a, b, c, d) % TWO26 == Cut0(a, b, c, d)
  {
    QuotRem(Word(a, b, c, d), d / 4, a + 0x100 * b + 0x1_0000 * c + 0x100_0000 * (d % 4), TWO26);
  }

  lemma CutIs1(a: int, b: int, c: int, d: int)
    requires 0 <= a < 0x100 && 0 <= b < 0x100 && 0 <= c < 0x100
    ensures (Word(a, b, c, d) / 4) % TWO26 == Cut1(a, b, c, d)
  {
    QuotRem(Word(a, b, c, d), a / 4 + 0x40 * b + 0x4000 * c + 0x40_0000 * d, a % 4, 4);
    QuotRem(Word(a, b, c, d) / 4, d / 0x10, a / 4 + 0x40 * b + 0x4000 * c + 0x40_0000 * (d % 0x10), TWO26);
  }

  lemma CutIs2(a: int, b: int, c: int, d: int)
    requires 0 <= a < 0x100 && 0 <= b < 0x100 && 0 <= c < 0x100
    ensures (Word(a, b, c, d) / 0x10) % TWO26 == Cut2(a, b, c, d)
  {
    QuotRem(Word(a, b, c, d), a / 0x10 + 0x10 * b + 0x1000 * c + 0x10_0000 * d, a % 0x10, 0x10);
    QuotRem(Word(a, b, c, d) / 0x10, d / 0x40, a / 0x10 + 0x10 * b + 0x1000 * c + 0x10_0000 * (d % 0x40), TWO26);
  }

  lemma CutIs3(a: int, b: int, c: int, d: int)
    requires 0 <= a < 0x100 && 0 <= b < 0x100 && 0 <= c < 0x100 && 0 <= d < 0x100
    ensures (Word(a, b, c, d) / 0x40) % TWO26 == Cut3(a, b, c, d)
  {
    QuotRem(Word(a, b, c, d), a / 0x40 + 4 * b + 0x400 * c + 0x4_0000 * d, a % 0x40, 0x40);
  }

  lemma CutIs4(a: int, b: int, c: int, d: int)
    requires 0 <= a < 0x100 && 0 <= b < 0x100 && 0 <= c < 0x100 && 0 <= d < 0x100
    ensures (Word(a, b, c, d) / 0x100) % TWO26 == Word(b, c, d, 0)
  {
    QuotRem(Word(a, b, c, d), b + 0x100 * c + 0x1_0000 * d, a, 0x100);
  }

  lemma KeyLimb(key: seq<int>, k: nat)
    requires |key| == 32 && Bytes(key) && k < 5
    ensures KeyWord(key, k) % TWO26 == Limbs(Key17(key))[k]
  {
    if k == 0 { CutIs0(key[0], key[1], key[2], key[3]); }
    else if k == 1 { CutIs1(key[3], key[4], key[5], key[6]); }
    else if k == 2 { CutIs2(key[6], key[7], key[8], key[9]); }
    else if k == 3 { CutIs3(key[9], key[10], key[11], key[12]); }
    else { CutIs4(key[12], key[13], key[14], key[15]); }
  }

  lemma MasksSmall(k: nat)
    requires k < 5
    ensures 0 <= Masks()[k] < TWO26
  {
  }

  function MaskedWord(key: seq<int>, k: nat): int
    requires |key| >= 16 && k < 5
  {
    Bits.And(KeyWord(key, k), Masks()[k])
  }

  lemma ClampWord(key: seq<int>, k: nat)
    requires |key| == 32 && Bytes(key) && k < 5
    ensures MaskedWord(key, k) == AndEach(Limbs(Key17(key)), Masks())[k]
    ensures 0 <= AndEach(Limbs(Key17(key)), Masks())[k] <= Masks()[k]
  {
    KeyLimb(key, k);
    MasksSmall(k);
    LowMask(KeyWord(key, k), Masks()[k]);
    ClampRange(Limbs(Key17(key))[k], Masks()[k]);
  }

  method ClampKey(key: seq<byte>) returns (r: seq<int>)
    requires |key| == 32
    ensures Clamped(r) && Value(r) == R(key)
  {
    r := [];
    for k := 0 to 5
      invariant |r| == k
      invariant forall j :: 0 <= j < k ==> r[j] == AndEach(Limbs(Key17(key)), Masks())[j] && 0 <= r[j] <= Masks()[j]
    {
      ClampWord(key, k);
      r := r + [MaskedWord(key, k)];
    }
    assert r == AndEach(Limbs(Key17(key)), Masks());
    ClampedNumber(key);
  }

  lemma ClampedNumber(key: seq<int>)
    requires |key| == 32 && Bytes(key)
    ensures Value(AndEach(Limbs(Key17(key)), Masks())) == R(key)
  {
    var b := Key17(key);
    LimbsSmall(b);
    ClampLimbs(Limbs(b));
    LimbsValue(b);
    KeyNumber(key);
  }

  lemma KeyNumber(key: seq<int>)
    requires |key| == 32
    ensures Val(0x100, Key17(key)) == Val(0x100, key[..16])
  {
    ValSnoc(0x100, key[..16], 0);
  }

  // ----- one block -----

  // What the code ors together for each limb.
  function BlockLimb(b: seq<int>, k: nat): int
    requires |b| == 17 && k < 5
  {
    if k == 0 then Bits.Or(Bits.Or(Bits.Or(b[0], b[1] * 0x100), b[2] * 0x1_0000), Bits.And(b[3], 3) * 0x100_0000)
    else if k == 1 then Bits.Or(Bits.Or(Bits.Or(b[3] / 4, b[4] * 0x40), b[5] * 0x4000), Bits.And(b[6], 0xf) * 0x40_0000)
    else if k == 2 then
      Bits.Or(Bits.Or(Bits.Or(b[6] / 0x10, b[7] * 0x10), b[8] * 0x1000), Bits.And(b[9], 0x3f) * 0x10_0000)
    else if k == 3 then Bits.Or(Bits.Or(Bits.Or(b[9] / 0x40, b[10] * 4), b[11] * 0x400), b[12] * 0x4_0000)
    else Bits.Or(Bits.Or(Bits.Or(b[13], b[14] * 0x100), b[15] * 0x1_0000), b[16] * 0x100_0000)
  }

  lemma FieldBits0(b: seq<int>)
    requires |b| == 17 && Bytes(b)
    ensures BlockLimb(b, 0) == Limbs(b)[0]
  {
    Powers();
    SmallMasks(b[3]);
    Or4(b[0], b[1], b[2], b[3] % 4, 8, 0x100, 16, 0x1_0000, 24, 0x100_0000);
  }

  lemma FieldBits1(b: seq<int>)
    requires |b| == 17 && Bytes(b)
    ensures BlockLimb(b, 1) == Limbs(b)[1]
  {
    Powers();
    SmallMasks(b[6]);
    Or4(b[3] / 4, b[4], b[5], b[6] % 0x10, 6, 0x40, 14, 0x4000, 22, 0x40_0000);
  }

  lemma FieldBits2(b: seq<int>)
    requires |b| == 17 && Bytes(b)
    ensures BlockLimb(b, 2) == Limbs(b)[2]
  {
    Powers();
    SmallMasks(b[9]);
    Or4(b[6] / 0x10, b[7], b[8], b[9] % 0x40, 4, 0x10, 12, 0x1000, 20, 0x10_0000);
  }

  lemma FieldBits34(b: seq<int>)
    requires |b| == 17 && Bytes(b)
    ensures BlockLimb(b, 3) == Limbs(b)[3] && BlockLimb(b, 4) == Limbs(b)[4]
  {
    Powers();
    Or4(b[9] / 0x40, b[10], b[11], b[12], 2, 4, 10, 0x400, 18, 0x4_0000);
    Or4(b[13], b[14], b[15], b[16], 8, 0x100, 16, 0x1_0000, 24, 0x100_0000);
  }

  lemma FieldBits(b: seq<int>, k: nat)
    requires |b| == 17 && Bytes(b) && k < 5
    ensures BlockLimb(b, k) == Limbs(b)[k]
  {
    if k == 0 { FieldBits0(b); }
    else if k == 1 { FieldBits1(b); }
    else if k == 2 { FieldBits2(b); }
    else { FieldBits34(b); }
  }

  lemma NoWrap(x: int, y: int)
    requires 0 <= x + y < TWO32
    ensures WrapAdd(x, y) == x + y
  {
  }

  // Adds the seventeen bytes of a block to the accumulator limbs.
  method AddBlock(h: array<u32>, b: seq<byte>)
    requires h.Length == 5 && Carried(h[..]) && |b| == 17 && b[16] <= 1
    modifies h
    ensures forall k :: 0 <= k < 5 ==> h[k] < 2 * TWO26 + 0x40
    ensures Value(h[..]) == old(Value(h[..])) + Val(0x100, b)
  {
    ghost var l := Limbs(b);
    LimbsSmall(b);
    for k := 0 to 5
      invariant forall j :: 0 <= j < k ==> h[j] == old(h[j]) + l[j] < 2 * TWO26 + 0x40
      invariant forall j :: k <= j < 5 ==> h[j] == old(h[j]) < TWO26 + 0x40
    {
      FieldBits(b, k);
      NoWrap(h[k], l[k]);
      h[k] := WrapAdd(h[k], BlockLimb(b, k));
    }
    LimbsValue(b);
    SumOfLimbs(old(h[..]), l, h[..]);
  }

  lemma SumOfLimbs(x: seq<int>, y: seq<int>, z: seq<int>)
    requires |x| == 5 && |y| == 5 && |z| == 5 && forall k :: 0 <= k < 5 ==> z[k] == x[k] + y[k]
    ensures Value(z) == Value(x) + Value(y)
  {
    ValueIsV5(x);
    ValueIsV5(y);
    ValueIsV5(z);
  }

  // ----- multiplication modulo 2^130 - 5 -----

  function D0(h: seq<int>, r: seq<int>): int requires |h| == 5 && |r| == 5
  { h[0] * r[0] + h[1] * (r[4] * 5) + h[2] * (r[3] * 5) + h[3] * (r[2] * 5) + h[4] * (r[1] * 5) }

  function D1(h: seq<int>, r: seq<int>): int requires |h| == 5 && |r| == 5
  { h[0] * r[1] + h[1] * r[0] + h[2] * (r[4] * 5) + h[3] * (r[3] * 5) + h[4] * (r[2] * 5) }

  function D2(h: seq<int>, r: seq<int>): int requires |h| == 5 && |r| == 5
  { h[0] * r[2] + h[1] * r[1] + h[2] * r[0] + h[3] * (r[4] * 5) + h[4] * (r[3] * 5) }

  function D3(h: seq<int>, r: seq<int>): int requires |h| == 5 && |r| == 5
  { h[0] * r[3] + h[1] * r[2] + h[2] * r[1] + h[3] * r[0] + h[4] * (r[4] * 5) }

  function D4(h: seq<int>, r: seq<int>): int requires |h| == 5 && |r| == 5
  { h[0] * r[4] + h[1] * r[3] + h[2] * r[2] + h[3] * r[1] + h[4] * r[0] }

  lemma Row(x: int, r: seq<int>)
    requires |r| == 5
    ensures x * Value(r) == V5(x * r[0], x * r[1], x * r[2], x * r[3], x * r[4])
  {
    ValueIsV5(r);
    Distrib(x, r[0], Value(r) - r[0]);
    var t := 0x400_0000 * r[1] + 0x10_0000_0000_0000 * r[2] + 0x4000_0000_0000_0000_0000 * r[3];
    Distrib(x, t, 0x100_0000_0000_0000_0000_0000_0000 * r[4]);
    Distrib(x, 0x400_0000 * r[1] + 0x10_0000_0000_0000 * r[2], 0x4000_0000_0000_0000_0000 * r[3]);
    Distrib(x, 0x400_0000 * r[1], 0x10_0000_0000_0000 * r[2]);
  }

  lemma Rows(h: seq<int>, v: int)
    requires |h| == 5
    ensures Value(h) * v == V5(h[0] * v, h[1] * v, h[2] * v, h[3] * v, h[4] * v)
  {
    Row(v, h);
  }

  // The schoolbook product with 2^130 replaced by 5.
  lemma ProductFolds(h: seq<int>, r: seq<int>)
    requires |h| == 5 && |r| == 5
    ensures Cong(V5(D0(h, r), D1(h, r), D2(h, r), D3(h, r), D4(h, r)), Value(h) * Value(r), PP)
  {
    Rows(h, Value(r));
    Row(h[0], r);
    Row(h[1], r);
    Row(h[2], r);
    Row(h[3], r);
    Row(h[4], r);
    var k := V5(h[1] * r[4] + h[2] * r[3] + h[3] * r[2] + h[4] * r[1],
                h[2] * r[4] + h[3] * r[3] + h[4] * r[2], h[3] * r[4] + h[4] * r[3], h[4] * r[4], 0);
    FromMultiple(V5(D0(h, r), D1(h, r), D2(h, r), D3(h, r), D4(h, r)), Value(h) * Value(r), -k, PP);
  }

  lemma ProductCarried(s: seq<int>, r: seq<int>, h: seq<int>, d0: int, d1: int, d2: int, d3: int, d4: int)
    requires |s| == 5 && |r| == 5 && |h| == 5
    requires d0 == D0(s, r) && d1 == D1(s, r) && d2 == D2(s, r) && d3 == D3(s, r) && d4 == D4(s, r)
    requires Cong(V5(h[0], h[1], h[2], h[3], h[4]), V5(d0, d1, d2, d3, d4), PP)
    ensures Cong(Value(h), Value(s) * Value(r), PP)
  {
    ProductFolds(s, r);
    ValueIsV5(h);
  }

  lemma Prod(x: int, y: int, a: int, b: int)
    requires 0 <= x <= a && 0 <= y <= b
    ensures 0 <= x * y <= a * b
  {
    MulLe(0, x, y);
    MulLe(x, a, y);
    MulLe(y, b, a);
  }

  // No u64 sum overflows, and five times the last carry still fits a u32.
  lemma Bounds(h: seq<int>, r: seq<int>)
    requires |h| == 5 && (forall k :: 0 <= k < 5 ==> 0 <= h[k] < 2 * TWO26 + 0x40) && Clamped(r)
    ensures 0 <= D0(h, r) < 0x800_0000_0000_0000 && 0 <= D1(h, r) < 0x800_0000_0000_0000
    ensures 0 <= D2(h, r) < 0x800_0000_0000_0000 && 0 <= D3(h, r) < 0x800_0000_0000_0000
    ensures 0 <= D4(h, r) < 0x84_0000_0000_0000
  {
    forall i, j | 0 <= i < 5 && 0 <= j < 5
      ensures 0 <= h[i] * r[j] <= (2 * TWO26 + 0x40) * Masks()[j]
    {
      Prod(h[i], r[j], 2 * TWO26 + 0x40, Masks()[j]);
    }
    Fives(h, r);
  }

  lemma Fives(h: seq<int>, r: seq<int>)
    requires |h| == 5 && |r| == 5
    ensures D0(h, r) == h[0] * r[0] + 5 * (h[1] * r[4] + h[2] * r[3] + h[3] * r[2] + h[4] * r[1])
    ensures D1(h, r) == h[0] * r[1] + h[1] * r[0] + 5 * (h[2] * r[4] + h[3] * r[3] + h[4] * r[2])
    ensures D2(h, r) == h[0] * r[2] + h[1] * r[1] + h[2] * r[0] + 5 * (h[3] * r[4] + h[4] * r[3])
    ensures D3(h, r) == h[0] * r[3] + h[1] * r[2] + h[2] * r[1] + h[3] * r[0] + 5 * (h[4] * r[4])
  {
  }

  lemma ModMod(d: int)
    ensures (d % TWO32) % TWO26 == d % TWO26
  {
    assert d == (d / TWO32) * TWO32 + d % TWO32;
    QuotRem(d, (d / TWO32) * 0x40 + (d % TWO32) / TWO26, (d % TWO32) % TWO26, TWO26);
  }

  // `d as u32 & 0x3ffffff`.
  method Low26(d: u64) returns (r: u32)
    ensures r == d % TWO26
  {
    Mask26(d % TWO32);
    ModMod(d);
    r := Bits.And(d % TWO32, 0x3ff_ffff);
  }

  // Carrying once around the limbs: the carry out of the top comes back times 5.
  lemma ChainValue(x0: int, x1: int, x2: int, x3: int, x4: int, l0: int, l1: int, l2: int, l3: int, l4: int,
                   c0: int, c1: int, c2: int, c3: int, c4: int, m: int, c5: int)
    requires x0 == l0 + TWO26 * c0 && x1 + c0 == l1 + TWO26 * c1 && x2 + c1 == l2 + TWO26 * c2
    requires x3 + c2 == l3 + TWO26 * c3 && x4 + c3 == l4 + TWO26 * c4 && l0 + 5 * c4 == m + TWO26 * c5
    ensures Cong(V5(m, l1 + c5, l2, l3, l4), V5(x0, x1, x2, x3, x4), PP)
  {
    FromMultiple(V5(m, l1 + c5, l2, l3, l4), V5(x0, x1, x2, x3, x4), -c4, PP);
  }

  method Columns(h: array<u32>, r: seq<int>) returns (d0: u64, d1: u64, d2: u64, d3: u64, d4: u64)
    requires h.Length == 5 && Clamped(r)
    requires forall k :: 0 <= k < 5 ==> h[k] < 2 * TWO26 + 0x40
    ensures d0 == D0(h[..], r) && d1 == D1(h[..], r) && d2 == D2(h[..], r) && d3 == D3(h[..], r) && d4 == D4(h[..], r)
    ensures d0 < 0x800_0000_0000_0000 && d1 < 0x800_0000_0000_0000
    ensures d2 < 0x800_0000_0000_0000 && d3 < 0x800_0000_0000_0000 && d4 < 0x84_0000_0000_0000
  {
    Bounds(h[..], r);
    var r0, r1, r2, r3, r4 := r[0], r[1], r[2], r[3], r[4];
    var s1: u64, s2: u64, s3: u64, s4: u64 := r1 * 5, r2 * 5, r3 * 5, r4 * 5;
    var h0, h1, h2, h3, h4 := h[0] as int, h[1] as int, h[2] as int, h[3] as int, h[4] as int;
    d0 := h0 * r0 + h1 * s4 + h2 * s3 + h3 * s2 + h4 * s1;
    d1 := h0 * r1 + h1 * r0 + h2 * s4 + h3 * s3 + h4 * s2;
    d2 := h0 * r2 + h1 * r1 + h2 * r0 + h3 * s4 + h4 * s3;
    d3 := h0 * r3 + h1 * r2 + h2 * r1 + h3 * r0 + h4 * s4;
    d4 := h0 * r4 + h1 * r3 + h2 * r2 + h3 * r1 + h4 * r0;
  }

  // h becomes h * r, carried once around.
  method MulReduce(h: array<u32>, r: seq<int>)
    requires h.Length == 5 && Clamped(r)
    requires forall k :: 0 <= k < 5 ==> h[k] < 2 * TWO26 + 0x40
    modifies h
    ensures Carried(h[..])
    ensures Cong(Value(h[..]), old(Value(h[..])) * Value(r), PP)
  {
    ghost var s := h[..];
    var d0, d1, d2, d3, d4 := Columns(h, r);
    var l0, l1, l2, l3, l4 := Carries(d0, d1, d2, d3, d4);
    ProductCarried(s, r, [l0, l1, l2, l3, l4], d0, d1, d2, d3, d4);
    h[0], h[1], h[2], h[3], h[4] := l0, l1, l2, l3, l4;
    assert h[..] == [l0, l1, l2, l3, l4];
  }

  method Split26(d: u64) returns (low: u32, c: u64)
    ensures d == low + TWO26 * c && low < TWO26
  {
    c := d / TWO26;
    low := Low26(d);
  }

  // `h[0].wrapping_add((c * 5) as u32)` and the other wrapping additions of carries.
  method AddCarry(x: u32, c: int) returns (r: u32)
    requires 0 <= c && x + c < TWO32
    ensures r == x + c
  {
    SmallMod(c);
    NoWrap(x, c);
    r := WrapAdd(x, c % TWO32);
  }

  // `c = d >> 26; h = d & 0x3ffffff; next += c` along the limbs, and around the top.
  method Carries(x0: u64, x1: u64, x2: u64, x3: u64, x4: u64) returns (l0: u32, l1: u32, l2: u32, l3: u32, l4: u32)
    requires x0 < 0x800_0000_0000_0000 && x1 < 0x800_0000_0000_0000
    requires x2 < 0x800_0000_0000_0000 && x3 < 0x800_0000_0000_0000 && x4 < 0x84_0000_0000_0000
    ensures Carried([l0, l1, l2, l3, l4])
    ensures Cong(V5(l0, l1, l2, l3, l4), V5(x0, x1, x2, x3, x4), PP)
  {
    var c0, c1, c2, c3, c4, c5, b0, b1;
    b0, c0 := Split26(x0);
    b1, c1 := Split26(x1 + c0);
    l2, c2 := Split26(x2 + c1);
    l3, c3 := Split26(x3 + c2);
    l4, c4 := Split26(x4 + c3);
    l0 := AddCarry(b0, (c4 as int) * 5);
    l0, c5 := Split26(l0);
    l1 := AddCarry(b1, c5);
    ChainValue(x0, x1, x2, x3, x4, b0, b1, l2, l3, l4, c0, c1, c2, c3, c4, l0, c5);
  }

  lemma SmallMod(x: int)
    requires 0 <= x < TWO32
    ensures x % TWO32 == x
  {
  }

  // ----- the canonical residue -----

  ghost predicate Small(h: seq<int>)
  {
    |h| == 5 && forall k :: 0 <= k < 5 ==> 0 <= h[k] < TWO26
  }

  method FinalCarries(x0: u32, x1: u32, x2: u32, x3: u32, x4: u32)
    returns (l0: u32, l1: u32, l2: u32, l3: u32, l4: u32, ghost c: int)
    requires Carried([x0, x1, x2, x3, x4])
    ensures l0 < TWO26 && l1 < TWO26 && l2 < TWO26 && l3 < TWO26 && l4 < TWO26
    ensures V5(l0, l1, l2, l3, l4) == V5(x0, x1, x2, x3, x4) - c * PP
  {
    assert x1 == [x0, x1, x2, x3, x4][1] < TWO26 + 0x40;
    var c1, c2, c3, c4, c0;
    l1, c1 := Split26(x1);
    l2 := AddCarry(x2, c1);
    l2, c2 := Split26(l2);
    assert c2 <= c1 <= 1;
    l3 := AddCarry(x3, c2);
    l3, c3 := Split26(l3);
    assert c3 <= c2;
    l4 := AddCarry(x4, c3);
    l4, c4 := Split26(l4);
    assert c4 <= c3;
    l0 := AddCarry(x0, (c4 as int) * 5);
    l0, c0 := Split26(l0);
    assert c0 <= c4;
    assert c1 == 1 ==> l1 < 0x40;
    l1 := AddCarry(l1, c0);
    c := c4;
  }

  // The last carries: afterwards every limb is below 2^26.
  method FinalCarry(h: array<u32>)
    requires h.Length == 5 && Carried(h[..])
    modifies h
    ensures Small(h[..])
    ensures Cong(Value(h[..]), old(Value(h[..])), PP)
  {
    var x0, x1, x2, x3, x4 := h[0], h[1], h[2], h[3], h[4];
    assert h[..] == [x0, x1, x2, x3, x4];
    ghost var c;
    var l0, l1, l2, l3, l4;
    l0, l1, l2, l3, l4, c := FinalCarries(x0, x1, x2, x3, x4);
    FinalCarryValue([x0, x1, x2, x3, x4], [l0, l1, l2, l3, l4], c);
    h[0], h[1], h[2], h[3], h[4] := l0, l1, l2, l3, l4;
    assert h[..] == [l0, l1, l2, l3, l4];
  }

  lemma FinalCarryValue(x: seq<int>, l: seq<int>, c: int)
    requires |x| == 5 && |l| == 5
    requires V5(l[0], l[1], l[2], l[3], l[4]) == V5(x[0], x[1], x[2], x[3], x[4]) - c * PP
    ensures Cong(Value(l), Value(x), PP)
  {
    ValueIsV5(x);
    ValueIsV5(l);
    FromMultiple(Value(l), Value(x), -c, PP);
  }

  // `(h & !mask) | (g & mask)` for an all-zero or all-one mask.
  lemma SelectLimb(h: int, g: int, mask: int)
    requires 0 <= h < TWO32 && 0 <= g < TWO32 && (mask == 0 || mask == 0xffff_ffff)
    ensures Bits.Or(Bits.And(h, 0xffff_ffff - mask), Bits.And(g, mask)) == if mask == 0 then h else g
  {
    Mask32(h);
    Mask32(g);
    SmallMod(h);
    SmallMod(g);
    OrNothing(h);
    OrNothing(g);
    assert Bits.And(h, 0) == 0 && Bits.And(g, 0) == 0;
  }

  lemma OrNothing(x: int)
    ensures Bits.Or(x, 0) == x && Bits.Or(0, x) == x
  {
  }

  method Select(h: u32, g: u32, mask: u32) returns (r: u32)
    requires mask == 0 || mask == 0xffff_ffff
    ensures r == if mask == 0 then h else g
  {
    SelectLimb(h, g, mask);
    r := Bits.Or(Bits.And(h, 0xffff_ffff - mask), Bits.And(g, mask));
  }

  lemma SignMask(h: int, c: int)
    requires 0 <= h < TWO26 && 0 <= c <= 1
    ensures var g := WrapSub(h + c, TWO26); var mask := WrapSub(g / 0x8000_0000, 1);
            mask == (if h + c < TWO26 then 0 else 0xffff_ffff) && (h + c >= TWO26 ==> g == h + c - TWO26)
  {
    var g := WrapSub(h + c, TWO26);
    if h + c < TWO26 {
      assert g == h + c - TWO26 + TWO32;
    } else {
      assert g == h + c - TWO26;
    }
  }

  method TopLimb(h: u32, c: u64) returns (g: u32, mask: u32)
    requires h < TWO26 && c <= 1
    ensures mask == if h + c < TWO26 then 0 else 0xffff_ffff
    ensures h + c >= TWO26 ==> g == h + c - TWO26
  {
    SignMask(h, c);
    SmallMod(h + c);
    g := WrapSub(WrapAdd(h, c), TWO26);
    mask := WrapSub((g as int) / 0x8000_0000, 1);
  }

  // g = h + 5 - 2^130 is h - P; it is taken exactly when it is not negative.
  lemma Residue(h: seq<int>, g: seq<int>, c: int)
    requires Small(h) && |g| == 5
    requires 0 <= c <= 1
    requires V5(g[0], g[1], g[2], g[3], 0) + 0x100_0000_0000_0000_0000_0000_0000 * (h[4] + c) == Value(h) + 5
    requires (forall k :: 0 <= k < 4 ==> 0 <= g[k] < TWO26) && (h[4] + c >= TWO26 ==> g[4] == h[4] + c - TWO26)
    ensures h[4] + c >= TWO26 ==> Value(g) == Value(h) % PP && Small(g)
    ensures h[4] + c < TWO26 ==> Value(h) == Value(h) % PP
  {
    ValueIsV5(h);
    ValueIsV5(g);
    if h[4] + c >= TWO26 {
      QuotRem(Value(h), 1, Value(g), PP);
    } else {
      QuotRem(Value(h), 0, Value(h), PP);
    }
  }

  method SubtractModulus(h: array<u32>)
    requires h.Length == 5 && Small(h[..])
    modifies h
    ensures Small(h[..]) && Value(h[..]) == old(Value(h[..])) % PP
  {
    ghost var s := h[..];
    var g0, g1, g2, g3, g4, c0, c1, c2, c3, mask;
    g0 := AddCarry(h[0], 5);
    g0, c0 := Split26(g0);
    g1 := AddCarry(h[1], c0);
    g1, c1 := Split26(g1);
    g2 := AddCarry(h[2], c1);
    g2, c2 := Split26(g2);
    g3 := AddCarry(h[3], c2);
    g3, c3 := Split26(g3);
    g4, mask := TopLimb(h[4], c3);
    ValueIsV5(s);
    Residue(s, [g0, g1, g2, g3, g4], c3);
    h[0] := Select(h[0], g0, mask);
    h[1] := Select(h[1], g1, mask);
    h[2] := Select(h[2], g2, mask);
    h[3] := Select(h[3], g3, mask);
    h[4] := Select(h[4], g4, mask);
    assert h[..] == if mask == 0 then s else [g0, g1, g2, g3, g4];
  }

  // ----- the tag -----

  // A low field and the bits shifted above it.
  method Join(lo: u64, hi: u64, k: nat, p: int) returns (r: u64)
    requires p == Bits.Pow2(k) && lo < p && (lo as int) + (hi as int) * p < 0x1_0000_0000_0000_0000
    ensures r == (lo as int) + (hi as int) * p
  {
    Or2(lo, hi, k, p);
    r := Bits.Or(lo, (hi as int) * p);
  }

  // `& 0xffffffff`, with the discarded part named.
  method Split32(x: u64) returns (low: u32, high: u64)
    ensures x == low + TWO32 * high
  {
    Mask32(x);
    low := Bits.And(x, 0xffff_ffff);
    high := x / TWO32;
  }

  function Le4(x: int): seq<int>
  {
    [x % 0x100, (x / 0x100) % 0x100, (x / 0x1_0000) % 0x100, (x / 0x100_0000) % 0x100]
  }

  lemma Le4Word(x: int)
    requires 0 <= x < TWO32
    ensures Bytes(Le4(x)) && Le32(Le4(x), 0) == x
  {
    Digit(x);
    Digit(x / 0x100);
    Digit(x / 0x100 / 0x100);
    Shifted(x);
  }

  lemma Digit(x: int)
    ensures x == 0x100 * (x / 0x100) + x % 0x100 && 0 <= x % 0x100 < 0x100
  {
  }

  lemma Shifted(x: int)
    ensures x / 0x1_0000 == x / 0x100 / 0x100 && x / 0x100_0000 == x / 0x100 / 0x100 / 0x100
  {
    DivDiv(x, 0x100, 0x100);
    DivDiv(x, 0x1_0000, 0x100);
  }

  function FromWords(w: seq<int>): int
    requires |w| == 4
  {
    w[0] + TWO32 * (w[1] + TWO32 * (w[2] + TWO32 * w[3]))
  }

  lemma MacBytes(w: seq<int>)
    requires |w| == 4 && forall k :: 0 <= k < 4 ==> 0 <= w[k] < TWO32
    ensures Bytes(Le4(w[0]) + Le4(w[1]) + Le4(w[2]) + Le4(w[3]))
    ensures Val(0x100, Le4(w[0]) + Le4(w[1]) + Le4(w[2]) + Le4(w[3])) == FromWords(w)
  {
    var b := Le4(w[0]) + Le4(w[1]) + Le4(w[2]) + Le4(w[3]);
    forall k | 0 <= k < 4 ensures Bytes(Le4(w[k])) && Le32(Le4(w[k]), 0) == w[k] { Le4Word(w[k]); }
    assert Le32(b, 0) == Le32(Le4(w[0]), 0) && Le32(b, 4) == Le32(Le4(w[1]), 0);
    assert Le32(b, 8) == Le32(Le4(w[2]), 0) && Le32(b, 12) == Le32(Le4(w[3]), 0);
    ValWords(b, []);
    assert b + [] == b;
    assert Val(0x100, []) == 0;
  }

  // The 32-bit words of the accumulator, dropping what lies above bit 128.
  method Words(h: array<u32>) returns (w: seq<u32>, ghost over: int)
    requires h.Length == 5 && Small(h[..])
    ensures |w| == 4 && Value(h[..]) == FromWords(w) + TWO128 * over
  {
    Powers();
    var a1, a2, a3 := h[1] / 0x40, h[2] / 0x1000, h[3] / 0x4_0000;
    var hh0 := Join(h[0], h[1], 26, TWO26);
    var hh1 := Join(a1, h[2], 20, 0x10_0000);
    var hh2 := Join(a2, h[3], 14, 0x4000);
    var hh3 := Join(a3, h[4], 8, 0x100);
    var w0, w1, w2, w3, u0, u1, u2, u3;
    w0, u0 := Split32(hh0);
    w1, u1 := Split32(hh1);
    w2, u2 := Split32(hh2);
    w3, u3 := Split32(hh3);
    w := [w0, w1, w2, w3];
    over := u3;
    Overlap(h[0], TWO26, h[1], 0x40, w0, u0, a1);
    Overlap(a1, 0x10_0000, h[2], 0x1000, w1, u1, a2);
    Overlap(a2, 0x4000, h[3], 0x4_0000, w2, u2, a3);
    ValueIsV5(h[..]);
  }

  // What a word drops is what the next word starts with.
  lemma Overlap(lo: int, p: int, x: int, q: int, w: int, u: int, next: int)
    requires p > 0 && q > 0 && p * q == TWO32 && 0 <= lo < p && 0 <= w < TWO32
    requires lo + x * p == w + TWO32 * u && next == x / q
    ensures u == next
  {
    var r := x % q;
    assert x == q * next + r;
    Distrib(p, q * next, r);
    MulAssoc(p, q, next);
    RangeStep(p, lo, r, q);
    QuotRem(lo + x * p, next, lo + p * r, TWO32);
    QuotRem(lo + x * p, u, w, TWO32);
  }

  // Adds s word by word, dropping the final carry.
  method AddWords(w: seq<u32>, s0: u32, s1: u32, s2: u32, s3: u32) returns (o: seq<u32>, ghost over: int)
    requires |w| == 4
    ensures |o| == 4 && FromWords(w) + FromWords([s0, s1, s2, s3]) == FromWords(o) + TWO128 * over
  {
    var o0, o1, o2, o3, f;
    o0, f := Split32((w[0] as int) + s0);
    o1, f := Split32((w[1] as int) + s1 + f);
    o2, f := Split32((w[2] as int) + s2 + f);
    o3, f := Split32((w[3] as int) + s3 + f);
    o := [o0, o1, o2, o3];
    over := f;
  }

  // ----- the whole message -----

  method FillBlock(msg: seq<byte>, i: nat, n: nat) returns (buf: seq<byte>)
    requires n <= 16 && i + n <= |msg|
    ensures |buf| == 17 && buf[16] <= 1
    ensures Val(0x100, buf) == Block(msg[i..i + n])
  {
    var b := new byte[17](_ => 0);
    for k := 0 to n
      invariant forall j :: 0 <= j < k ==> b[j] == msg[i + j]
      invariant forall j :: k <= j < 17 ==> b[j] == 0
    {
      b[k] := msg[i + k];
    }
    b[n] := 1;
    buf := b[..];
    PaddedBlock(msg[i..i + n], buf);
  }

  // One trip of the loop is one step of the RFC's accumulator.
  lemma AbsorbStep(acc: int, r: int, rest: seq<int>, added: int, after: int)
    requires rest != [] && Cong(after, added * r, PP)
    requires Cong(added, acc + Block(rest[..Min16(|rest|)]), PP)
    ensures Absorb(acc, r, rest) == Absorb(after % PP, r, rest[Min16(|rest|)..])
  {
    var m := Block(rest[..Min16(|rest|)]);
    CongMul(added, acc + m, r, r, PP);
  }

  // One block of the message.
  method AbsorbOne(h: array<u32>, r: seq<int>, msg: seq<byte>, i: nat) returns (n: nat)
    requires h.Length == 5 && Clamped(r) && i < |msg| && Carried(h[..])
    modifies h
    ensures 0 < n && i + n <= |msg| && Carried(h[..])
    ensures Absorb(old(Value(h[..])) % PP, Value(r), msg[i..]) == Absorb(Value(h[..]) % PP, Value(r), msg[i + n..])
  {
    n := Min16(|msg| - i);
    var buf := FillBlock(msg, i, n);
    ghost var rest, v := msg[i..], Value(h[..]);
    assert rest[..n] == msg[i..i + n] && rest[n..] == msg[i + n..];
    AddBlock(h, buf);
    ghost var added := Value(h[..]);
    MulReduce(h, r);
    CongMod(v, PP);
    CongAdd(v, v % PP, Block(rest[..n]), Block(rest[..n]), PP);
    AbsorbStep(v % PP, Value(r), rest, added, Value(h[..]));
  }

  method AbsorbAll(h: array<u32>, r: seq<int>, msg: seq<byte>)
    requires h.Length == 5 && Clamped(r)
    requires forall k :: 0 <= k < 5 ==> h[k] == 0
    modifies h
    ensures Carried(h[..]) && Value(h[..]) % PP == Absorb(0, Value(r), msg)
  {
    var i := 0;
    ValZeros(TWO26, h[..]);
    assert msg[0..] == msg;
    while i < |msg|
      invariant i <= |msg| && Carried(h[..])
      invariant Absorb(Value(h[..]) % PP, Value(r), msg[i..]) == Absorb(0, Value(r), msg)
    {
      var n := AbsorbOne(h, r, msg, i);
      i := i + n;
    }
    assert msg[i..] == [];
  }

  method TagBytes(key: seq<byte>, h: array<u32>) returns (mac: seq<byte>)
    requires |key| == 32 && h.Length == 5 && Small(h[..])
    ensures |mac| == 16 && Val(0x100, mac) == (Value(h[..]) + S(key)) % TWO128
  {
    ghost var over1, over2;
    var w, o;
    w, over1 := Words(h);
    WordRange(key);
    o, over2 := AddWords(w, Le32(key, 16), Le32(key, 20), Le32(key, 24), Le32(key, 28));
    KeyTail(key);
    MacBytes(o);
    mac := Le4(o[0]) + Le4(o[1]) + Le4(o[2]) + Le4(o[3]);
    WordsBelow(o);
    QuotRem(Value(h[..]) + S(key), over1 + over2, FromWords(o), TWO128);
  }

  lemma WordRange(key: seq<byte>)
    ensures forall i :: 0 <= i <= |key| - 4 ==> 0 <= Le32(key, i) < TWO32
  {
  }

  lemma WordsBelow(w: seq<int>)
    requires |w| == 4 && forall k :: 0 <= k < 4 ==> 0 <= w[k] < TWO32
    ensures 0 <= FromWords(w) < TWO128
  {
  }

  lemma KeyTail(key: seq<int>)
    requires |key| == 32
    ensures FromWords([Le32(key, 16), Le32(key, 20), Le32(key, 24), Le32(key, 28)]) == S(key)
  {
    var t := key[16..];
    ValWords(t, []);
    assert t + [] == t;
    assert Val(0x100, []) == 0;
  }

  // The authenticator of RFC 8439 for every key and every message.
  method Poly1305Mac(key: seq<byte>, msg: seq<byte>) returns (mac: seq<byte>)
    requires |key| == 32
    ensures |mac| == 16 && Val(0x100, mac) == Tag(key, msg)
  {
    var r := ClampKey(key);
    var h := new u32[5](_ => 0);
    AbsorbAll(h, r, msg);
    FinalCarry(h);
    SubtractModulus(h);
    mac := TagBytes(key, h);
  }
}
