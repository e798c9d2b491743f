// The one-time authenticator of section 2.5 of RFC 8439, and src/crypto.rs's 26-bit-limb version.

module PolySpec {
  import opened DivMod
  import opened Modular
  import opened Radix
  import Bits

  const PP: int := 0x3_FFFFFFFF_FFFFFFFF_FFFFFFFF_FFFFFFFB   // 2^130 - 5
  const TWO128: int := 0x1_00000000_00000000_00000000_00000000
  const CLAMP: int := 0x0FFFFFFC_0FFFFFFC_0FFFFFFC_0FFFFFFF

  // A chunk of at most sixteen bytes, with a one bit above its last byte.
  function Block(chunk: seq<int>): int { Val(0x100, chunk + [1]) }

  function Min16(n: nat): nat { if n < 16 then n else 16 }

  // The RFC's accumulator after the rest of the message.
  function Absorb(acc: int, r: int, msg: seq<int>): int
    decreases |msg|
  {
    if msg == [] then acc
    else Absorb(((acc + Block(msg[..Min16(|msg|)])) * r) % PP, r, msg[Min16(|msg|)..])
  }

  function R(key: seq<int>): int
    requires |key| == 32
  {
    Bits.And(Val(0x100, key[..16]), CLAMP)
  }

  function S(key: seq<int>): int
    requires |key| == 32
  {
    Val(0x100, key[16..])
  }

  function Tag(key: seq<int>, msg: seq<int>): int
    requires |key| == 32
  {
    (Absorb(0, R(key), msg) + S(key)) % TWO128
  }

  // ----- the polynomial the accumulator evaluates -----

  function Blocks(msg: seq<int>): seq<int>
    decreases |msg|
  {
    if msg == [] then [] else [Block(msg[..Min16(|msg|)])] + Blocks(msg[Min16(|msg|)..])
  }

  // The sum of blocks[i] * r^(q - i) over the q blocks.
  function Polynomial(r: int, blocks: seq<int>): int
  {
    if blocks == [] then 0 else blocks[0] * Power(r, |blocks|) + Polynomial(r, blocks[1..])
  }

  lemma {:induction false} AbsorbIsPolynomial(acc: int, r: int, msg: seq<int>)
    ensures Cong(Absorb(acc, r, msg), acc * Power(r, |Blocks(msg)|) + Polynomial(r, Blocks(msg)), PP)
    decreases |msg|
  {
    if msg != [] {
      var m, rest := Block(msg[..Min16(|msg|)]), msg[Min16(|msg|)..];
      var q := |Blocks(rest)|;
      assert Blocks(msg)[1..] == Blocks(rest);
      AbsorbIsPolynomial(((acc + m) * r) % PP, r, rest);
      CongMod((acc + m) * r, PP);
      CongMul(((acc + m) * r) % PP, (acc + m) * r, Power(r, q), Power(r, q), PP);
      var t := Polynomial(r, Blocks(rest));
      CongAdd((((acc + m) * r) % PP) * Power(r, q), ((acc + m) * r) * Power(r, q), t, t, PP);
      HornerStep(acc, m, r, Power(r, q));
    }
  }

  lemma HornerStep(acc: int, m: int, r: int, p: int)
    ensures ((acc + m) * r) * p == acc * (r * p) + m * (r * p)
  {
    MulAssoc(acc + m, r, p);
    Distrib(r * p, acc, m);
  }

  // The tag is ((sum of blocks times powers of r) mod 2^130 - 5, plus s) mod 2^128.
  lemma TagIsPolynomial(key: seq<int>, msg: seq<int>)
    requires |key| == 32
    ensures Tag(key, msg) == (Polynomial(R(key), Blocks(msg)) % PP + S(key)) % TWO128
  {
    AbsorbIsPolynomial(0, R(key), msg);
    AbsorbResidue(0, R(key), msg);
    QuotRem(Absorb(0, R(key), msg), 0, Absorb(0, R(key), msg), PP);
  }

  lemma {:induction false} AbsorbResidue(acc: int, r: int, msg: seq<int>)
    requires 0 <= acc < PP
    ensures 0 <= Absorb(acc, r, msg) < PP
    decreases |msg|
  {
    if msg != [] {
      AbsorbResidue(((acc + Block(msg[..Min16(|msg|)])) * r) % PP, r, msg[Min16(|msg|)..]);
    }
  }

  // A chunk's bytes, the marker and zero filling have the chunk's block value.
  lemma PaddedBlock(chunk: seq<int>, buf: seq<int>)
    requires |chunk| <= 16 && |buf| == 17
    requires buf[..|chunk|] == chunk && buf[|chunk|] == 1
    requires forall k :: |chunk| < k < 17 ==> buf[k] == 0
    ensures Val(0x100, buf) == Block(chunk)
  {
    var n := |chunk|;
    assert buf == (chunk + [1]) + buf[n + 1..];
    ValConcat(0x100, chunk + [1], buf[n + 1..]);
    ValZeros(0x100, buf[n + 1..]);
  }
}

// Five 26-bit limbs, and how sixteen or seventeen bytes are cut into them.
module PolyLimbs {
  import opened MachineInts
  import opened Radix
  import opened PolySpec
  import Bits

  const TWO26: int := 0x400_0000

  function V5(a: int, b: int, c: int, d: int, e: int): int
  {
    a + 0x400_0000 * b + 0x10_0000_0000_0000 * c + 0x4000_0000_0000_0000_0000 * d
    + 0x100_0000_0000_0000_0000_0000_0000 * e
  }

  function Value(h: seq<int>): int
    requires |h| == 5
  {
    Val(TWO26, h)
  }

  lemma ValueIsV5(h: seq<int>)
    requires |h| == 5
    ensures Value(h) == V5(h[0], h[1], h[2], h[3], h[4])
  {
    assert h[1..][0] == h[1] && h[1..][1] == h[2] && h[1..][2] == h[3] && h[1..][3] == h[4];
    Val4(TWO26, h[1..]);
  }

  function Word(a: int, b: int, c: int, d: int): int { a + 0x100 * b + 0x1_0000 * c + 0x100_0000 * d }

  // A little-endian 32-bit word.
  function Le32(s: seq<int>, i: nat): int
    requires i + 4 <= |s|
  {
    Word(s[i], s[i + 1], s[i + 2], s[i + 3])
  }

  lemma Val4(b: int, s: seq<int>)
    requires |s| == 4
    ensures Val(b, s) == s[0] + b * (s[1] + b * (s[2] + b * s[3]))
  {
    var t := s[1..];
    var u := t[1..];
    var w := u[1..];
    assert w[1..] == [] && Val(b, w) == w[0];
    assert Val(b, u) == u[0] + b * Val(b, w);
    assert Val(b, t) == t[0] + b * Val(b, u);
  }

  lemma ValWord(s: seq<int>, t: seq<int>)
    requires |s| == 4
    ensures Val(0x100, s + t) == Le32(s, 0) + TWO32 * Val(0x100, t)
  {
    ValConcat(0x100, s, t);
    assert Pow(0x100, 4) == TWO32 by { PowAdd(0x100, 2, 2); assert Pow(0x100, 2) == 0x1_0000; }
    Val4(0x100, s);
  }

  lemma ValWords(b: seq<int>, t: seq<int>)
    requires |b| == 16
    ensures Val(0x100, b + t)
         == Le32(b, 0) + TWO32 * (Le32(b, 4) + TWO32 * (Le32(b, 8) + TWO32 * (Le32(b, 12) + TWO32 * Val(0x100, t))))
  {
    assert b + t == b[..4] + (b[4..8] + (b[8..12] + (b[12..] + t)));
    ValWord(b[..4], b[4..8] + (b[8..12] + (b[12..] + t)));
    ValWord(b[4..8], b[8..12] + (b[12..] + t));
    ValWord(b[8..12], b[12..] + t);
    ValWord(b[12..], t);
  }

  // Four consecutive bytes shared between neighbouring limbs.
  function Cut0(a: int, b: int, c: int, d: int): int { a + 0x100 * b + 0x1_0000 * c + 0x100_0000 * (d % 4) }
  function Cut1(a: int, b: int, c: int, d: int): int { a / 4 + 0x40 * b + 0x4000 * c + 0x40_0000 * (d % 0x10) }
  function Cut2(a: int, b: int, c: int, d: int): int { a / 0x10 + 0x10 * b + 0x1000 * c + 0x10_0000 * (d % 0x40) }
  function Cut3(a: int, b: int, c: int, d: int): int { a / 0x40 + 4 * b + 0x400 * c + 0x4_0000 * d }

  // The limbs of seventeen bytes.
  function Limbs(b: seq<int>): (l: seq<int>)
    requires |b| == 17
    ensures |l| == 5
  {
    [Cut0(b[0], b[1], b[2], b[3]), Cut1(b[3], b[4], b[5], b[6]), Cut2(b[6], b[7], b[8], b[9]),
     Cut3(b[9], b[10], b[11], b[12]), Word(b[13], b[14], b[15], b[16])]
  }

  lemma LimbsValue(b: seq<int>)
    requires |b| == 17 && Digits(0x100, b)
    ensures Value(Limbs(b)) == Val(0x100, b)
  {
    assert b == b[..16] + [b[16]];
    ValWords(b[..16], [b[16]]);
    assert Val(0x100, [b[16]]) == b[16] by { assert [b[16]][1..] == []; }
    ValueIsV5(Limbs(b));
  }

  lemma LimbsSmall(b: seq<int>)
    requires |b| == 17 && Digits(0x100, b) && b[16] <= 1
    ensures forall k :: 0 <= k < 5 ==> 0 <= Limbs(b)[k] < TWO26
  {
  }

  // ----- the bit operations that cut and clamp -----

  lemma Or2(x: int, y: int, k: nat, p: int)
    requires p == Bits.Pow2(k) && 0 <= x < p
    ensures Bits.Or(x, y * p) == x + y * p
  {
    Bits.OrFields(x, y, k);
  }

  lemma Or4(f0: int, f1: int, f2: int, f3: int, k1: nat, p1: int, k2: nat, p2: int, k3: nat, p3: int)
    requires p1 == Bits.Pow2(k1) && p2 == Bits.Pow2(k2) && p3 == Bits.Pow2(k3)
    requires 0 <= f0 < p1 && 0 <= f0 + f1 * p1 < p2 && 0 <= f0 + f1 * p1 + f2 * p2 < p3
    ensures Bits.Or(Bits.Or(Bits.Or(f0, f1 * p1), f2 * p2), f3 * p3) == f0 + f1 * p1 + f2 * p2 + f3 * p3
  {
    Or2(f0, f1, k1, p1);
    Or2(f0 + f1 * p1, f2, k2, p2);
    Or2(f0 + f1 * p1 + f2 * p2, f3, k3, p3);
  }

  lemma Powers()
    ensures Bits.Pow2(2) == 4 && Bits.Pow2(4) == 0x10 && Bits.Pow2(6) == 0x40 && Bits.Pow2(8) == 0x100
    ensures Bits.Pow2(10) == 0x400 && Bits.Pow2(12) == 0x1000 && Bits.Pow2(14) == 0x4000
    ensures Bits.Pow2(16) == 0x1_0000 && Bits.Pow2(18) == 0x4_0000 && Bits.Pow2(20) == 0x10_0000
    ensures Bits.Pow2(22) == 0x40_0000 && Bits.Pow2(24) == 0x100_0000 && Bits.Pow2(26) == TWO26
    ensures Bits.Pow2(32) == TWO32
  {
    assert Bits.Pow2(2) == 4 && Bits.Pow2(4) == 0x10 && Bits.Pow2(6) == 0x40 && Bits.Pow2(8) == 0x100;
    Bits.Pow2Add(8, 2);
    Bits.Pow2Add(8, 4);
    Bits.Pow2Add(8, 6);
    Bits.Pow2Add(8, 8);
    Bits.Pow2Add(16, 2);
    Bits.Pow2Add(16, 4);
    Bits.Pow2Add(16, 6);
    Bits.Pow2Add(16, 8);
    Bits.Pow2Add(16, 10);
    Bits.Pow2Add(16, 16);
  }

  lemma MaskAt(x: int, k: nat, p: int)
    requires p == Bits.Pow2(k)
    ensures Bits.And(x, p - 1) == x % p
  {
    Bits.AndMask(x, k);
  }

  lemma Mask26(x: int)
    ensures Bits.And(x, 0x3ff_ffff) == x % TWO26
  {
    Powers();
    MaskAt(x, 26, TWO26);
  }

  lemma Mask32(x: int)
    ensures Bits.And(x, 0xffff_ffff) == x % TWO32
  {
    Powers();
    MaskAt(x, 32, TWO32);
  }

  // The three masks used inside a block's bytes.
  lemma SmallMasks(x: int)
    ensures Bits.And(x, 3) == x % 4 && Bits.And(x, 0xf) == x % 0x10 && Bits.And(x, 0x3f) == x % 0x40
  {
    Powers();
    MaskAt(x, 2, 4);
    MaskAt(x, 4, 0x10);
    MaskAt(x, 6, 0x40);
  }

  // A mask below bit 26 only sees the low 26 bits.
  lemma LowMask(x: int, m: int)
    requires 0 <= m < TWO26
    ensures Bits.And(x, m) == Bits.And(x % TWO26, m)
  {
    Powers();
    var h, l := x / TWO26, x % TWO26;
    Bits.AndFieldsAt(h, l, 0, m, 26, TWO26);
    assert x == h * TWO26 + l && m == 0 * TWO26 + m;
    assert Bits.And(h, 0) == 0;
  }

  lemma AndAt26(xh: int, xl: int, yh: int, yl: int)
    requires 0 <= xl < TWO26 && 0 <= yl < TWO26
    ensures Bits.And(xl + TWO26 * xh, yl + TWO26 * yh) == Bits.And(xl, yl) + TWO26 * Bits.And(xh, yh)
  {
    Powers();
    Bits.AndFieldsAt(xh, xl, yh, yl, 26, TWO26);
  }

  function Masks(): (m: seq<int>)
    ensures |m| == 5
  {
    [0x3ff_ffff, 0x3ff_ff03, 0x3ff_c0ff, 0x3f0_3fff, 0x00f_ffff]
  }

  function AndEach(s: seq<int>, m: seq<int>): (r: seq<int>)
    requires |s| == |m|
    ensures |r| == |s|
  {
    seq(|s|, k requires 0 <= k < |s| => Bits.And(s[k], m[k]))
  }

  lemma {:induction false} AndDigits(s: seq<int>, m: seq<int>)
    requires |s| == |m| && Digits(TWO26, s) && Digits(TWO26, m)
    ensures Bits.And(Val(TWO26, s), Val(TWO26, m)) == Val(TWO26, AndEach(s, m))
  {
    if s != [] {
      AndDigits(s[1..], m[1..]);
      AndAt26(Val(TWO26, s[1..]), s[0], Val(TWO26, m[1..]), m[0]);
      AndTail(s, m);
    }
  }

  lemma AndTail(s: seq<int>, m: seq<int>)
    requires |s| == |m| > 0
    ensures AndEach(s, m)[0] == Bits.And(s[0], m[0]) && AndEach(s, m)[1..] == AndEach(s[1..], m[1..])
  {
  }

  // The five masks on the limbs are the RFC's clamp on the 128-bit number.
  lemma ClampLimbs(l: seq<int>)
    requires |l| == 5 && Digits(TWO26, l)
    ensures Bits.And(Value(l), CLAMP) == Value(AndEach(l, Masks()))
  {
    AndDigits(l, Masks());
    ValueIsV5(Masks());
  }

  lemma ClampRange(x: int, m: int)
    requires 0 <= m
    ensures 0 <= Bits.And(x, m) <= m
  {
    Bits.AndRange(x, m);
  }
}
