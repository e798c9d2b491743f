// Multiplication, inversion and the square-root power on limb vectors (src/crypto.rs, mod fe25519).

module ExponentBits {
  import opened DivMod
  import opened FieldSpec
  import Bits

  const INV_EXP: nat := P - 2        // 2^255 - 21
  const ROOT_EXP: nat := 0x0FFFFFFF_FFFFFFFF_FFFFFFFF_FFFFFFFF_FFFFFFFF_FFFFFFFF_FFFFFFFF_FFFFFFFD  // 2^252 - 3

  lemma BigPowers()
    ensures Bits.Pow2(252) == ROOT_EXP + 3 && Bits.Pow2(255) == INV_EXP + 21
  {
    SmallPowers();
    Bits.Pow2Add(64, 60);
    Bits.Pow2Add(128, 124);
    Bits.Pow2Add(3, 252);
  }

  lemma SmallPowers()
    ensures Bits.Pow2(3) == 8 && Bits.Pow2(60) == 0x1000_0000_0000_0000
    ensures Bits.Pow2(64) == 0x1_00000000_00000000 && Bits.Pow2(128) == 0x1_00000000_00000000_00000000_00000000
  {
    TinyPowers();
    PowerOfSum(12, 0x1000, 12, 0x1000);
    PowerOfSum(24, 0x1_000000, 24, 0x1_000000);
    PowerOfSum(12, 0x1000, 48, 0x1_000000_000000);
    PowerOfSum(4, 16, 60, 0x1000_0000_0000_0000);
    PowerOfSum(64, 0x1_00000000_00000000, 64, 0x1_00000000_00000000);
  }

  lemma PowerOfSum(a: nat, p: int, b: nat, q: int)
    requires Bits.Pow2(a) == p && Bits.Pow2(b) == q
    ensures Bits.Pow2(a + b) == p * q
  {
    Bits.Pow2Add(a, b);
  }

  lemma TinyPowers()
    ensures Bits.Pow2(3) == 8 && Bits.Pow2(4) == 16 && Bits.Pow2(12) == 0x1000
  {
    assert Bits.Pow2(4) == 16;
    Bits.Pow2Add(4, 4);
    Bits.Pow2Add(8, 4);
  }

  // The leading bits of e, without its last i bits.
  function Prefix(e: nat, i: nat): nat
  {
    if i == 0 then e else Prefix(e, i - 1) / 2
  }

  lemma {:induction false} PrefixDiv(e: nat, i: nat)
    ensures Prefix(e, i) == e / Bits.Pow2(i)
  {
    if i > 0 {
      PrefixDiv(e, i - 1);
      DivDiv(e, Bits.Pow2(i - 1), 2);
    }
  }

  // The leading bits of 2^n - d are all ones above the bits of d.
  lemma OnesPrefix(n: nat, d: int, i: nat)
    requires i < n && 0 < d <= Bits.Pow2(i) && d <= Bits.Pow2(n)
    ensures Prefix(Bits.Pow2(n) - d, i) == 2 * Bits.Pow2(n - i - 1) - 1
  {
    Bits.Pow2Add(i, n - i);
    PrefixDiv(Bits.Pow2(n) - d, i);
    var p := Bits.Pow2(i);
    Distrib(p, Bits.Pow2(n - i), 1);
    QuotRem(Bits.Pow2(n) - d, Bits.Pow2(n - i) - 1, p - d, p);
  }

  lemma {:induction false} Pow2Mono(m: nat, n: nat)
    requires m <= n
    ensures Bits.Pow2(m) <= Bits.Pow2(n)
  {
    if m < n { Pow2Mono(m, n - 1); }
  }

  lemma LowPrefixes(e: nat)
    ensures Prefix(e, 0) == e && Prefix(e, 1) == e / 2 && Prefix(e, 2) == e / 4
    ensures Prefix(e, 3) == e / 8 && Prefix(e, 4) == e / 16
  {
    assert Prefix(e, 2) == Prefix(e, 1) / 2;
    assert Prefix(e, 3) == Prefix(e, 2) / 2;
    assert Prefix(e, 4) == Prefix(e, 3) / 2;
  }

  // Bit i of 2^255 - 21 is clear exactly for i = 2 and i = 4.
  lemma InvBit(i: nat)
    requires i <= 254
    ensures Prefix(INV_EXP, i) % 2 == if i != 2 && i != 4 then 1 else 0
  {
    LowPrefixes(INV_EXP);
    if i >= 5 {
      BigPowers();
      Pow2Mono(5, i);
      assert Bits.Pow2(5) == 32;
      OnesPrefix(255, 21, i);
    }
  }

  // Bit i of 2^252 - 3 is clear exactly for i = 1.
  lemma RootBit(i: nat)
    requires i <= 251
    ensures Prefix(ROOT_EXP, i) % 2 == if i != 1 then 1 else 0
  {
    LowPrefixes(ROOT_EXP);
    if i >= 2 {
      BigPowers();
      Pow2Mono(2, i);
      assert Bits.Pow2(2) == 4;
      OnesPrefix(252, 3, i);
    }
  }

  lemma TopBit()
    ensures Prefix(INV_EXP, 254) == 1 && Prefix(ROOT_EXP, 251) == 1
  {
    BigPowers();
    Pow2Mono(5, 251);
    Pow2Mono(5, 254);
    assert Bits.Pow2(5) == 32;
    OnesPrefix(255, 21, 254);
    OnesPrefix(252, 3, 251);
  }
}

module FieldOps {
  import opened MachineInts
  import opened DivMod
  import opened Modular
  import opened Radix
  import opened FieldSpec
  import opened Fe25519
  import opened ExponentBits
  import Bits

  const TWO52: int := 0x10_0000_0000_0000

  // ----- linear operations -----

  lemma {:induction false} ValLinear(b: int, s: seq<int>, t: seq<int>, c: int, u: seq<int>)
    requires |s| == |t| == |u|
    requires forall k :: 0 <= k < |s| ==> u[k] == s[k] + c * t[k]
    ensures Val(b, u) == Val(b, s) + c * Val(b, t)
  {
    if s != [] {
      ValLinear(b, s[1..], t[1..], c, u[1..]);
      LinearStep(b, s[0], t[0], c, Val(b, s[1..]), Val(b, t[1..]));
    }
  }

  lemma LinearStep(b: int, x: int, y: int, c: int, v: int, w: int)
    ensures x + c * y + b * (v + c * w) == x + b * v + c * (y + b * w)
  {
    Distrib(b, v, c * w);
    Distrib(c, y, b * w);
    MulAssoc(b, c, w);
    MulAssoc(c, b, w);
  }

  method GfAdd(a: array<i64>, b: array<i64>) returns (o: array<i64>)
    requires a.Length == 16 && b.Length == 16 && Loose(a[..]) && Loose(b[..])
    ensures fresh(o) && o.Length == 16 && forall k :: 0 <= k < 16 ==> o[k] == a[k] + b[k]
    ensures Tight(a[..]) && Tight(b[..]) ==> Loose(o[..])
    ensures Val(B, o[..]) == Val(B, a[..]) + Val(B, b[..])
  {
    o := new i64[16](_ => 0);
    for i := 0 to 16
      modifies o
      invariant forall k :: 0 <= k < i ==> o[k] == a[k] + b[k]
    {
      o[i] := a[i] + b[i];
    }
    ValLinear(B, a[..], b[..], 1, o[..]);
  }

  method GfSub(a: array<i64>, b: array<i64>) returns (o: array<i64>)
    requires a.Length == 16 && b.Length == 16 && Loose(a[..]) && Loose(b[..])
    ensures fresh(o) && o.Length == 16 && forall k :: 0 <= k < 16 ==> o[k] == a[k] - b[k]
    ensures Tight(a[..]) && Tight(b[..]) ==> Loose(o[..])
    ensures Val(B, o[..]) == Val(B, a[..]) - Val(B, b[..])
  {
    o := new i64[16](_ => 0);
    for i := 0 to 16
      modifies o
      invariant forall k :: 0 <= k < i ==> o[k] == a[k] - b[k]
    {
      o[i] := a[i] - b[i];
    }
    ValLinear(B, a[..], b[..], -1, o[..]);
  }

  // ----- gf_mul -----

  lemma ProductBound(x: int, y: int)
    requires -TWO26 <= x <= TWO26 && -TWO26 <= y <= TWO26
    ensures -TWO52 <= x * y <= TWO52
  {
    MulLe(-TWO26, x, TWO26 - y);
    MulLe(x, TWO26, TWO26 - y);
    MulLe(-TWO26, x, TWO26 + y);
    MulLe(x, TWO26, TWO26 + y);
    Distrib(x, TWO26, y);
  }

  // One row of the schoolbook product: t += x * B^i * b.
  method AddRow(t: array<i64>, x: i64, b: array<i64>, i: nat)
    requires t.Length == 31 && b.Length == 16 && t != b && i < 16
    requires -TWO26 <= x <= TWO26 && Loose(b[..])
    requires forall k :: 0 <= k < 31 ==> -(i * TWO52) <= t[k] <= i * TWO52
    modifies t
    ensures forall k :: 0 <= k < 31 ==> -((i + 1) * TWO52) <= t[k] <= (i + 1) * TWO52
    ensures Val(B, t[..]) == old(Val(B, t[..])) + Pow(B, i) * (x * Val(B, b[..]))
  {
    ghost var s, v0 := b[..], Val(B, t[..]);
    assert s[..0] == [];
    for j := 0 to 16
      invariant forall k :: 0 <= k < i + j ==> -((i + 1) * TWO52) <= t[k] <= (i + 1) * TWO52
      invariant forall k :: i + j <= k < 31 ==> -(i * TWO52) <= t[k] <= i * TWO52
      invariant Val(B, t[..]) == v0 + Pow(B, i) * (x * Val(B, s[..j]))
    {
      ProductBound(x, b[j]);
      var product: i64 := x * b[j];
      ghost var before := t[..];
      t[i + j] := t[i + j] + product;
      assert t[..] == before[i + j := before[i + j] + product];
      ValUpdate(B, before, i + j, before[i + j] + product);
      SnocValue(s, j);
      PowAdd(B, i, j);
      RowStep(Pow(B, i), Pow(B, j), x, s[j], Val(B, s[..j]), Val(B, s[..j + 1]));
    }
    assert s[..16] == s;
  }

  lemma FoldHigh(t: seq<int>, o: seq<int>)
    requires |t| == 31 && |o| == 16
    requires forall k :: 0 <= k < 15 ==> o[k] == t[k] + 38 * t[k + 16]
    requires o[15] == t[15]
    requires forall k :: 0 <= k < 31 ==> -(16 * TWO52) <= t[k] <= 16 * TWO52
    ensures Bounded(o, TWO62)
    ensures Cong(Val(B, o), Val(B, t), P)
  {
    var lo, hi := t[..16], t[16..];
    assert t == lo + hi;
    ValConcat(B, lo, hi);
    ValSnoc(B, hi, 0);
    ValLinear(B, lo, hi + [0], 38, o);
    Pow16();
    Fold38(Val(B, lo), Pow(B, 16), Val(B, hi), Val(B, t), Val(B, o));
  }

  method Columns(a: array<i64>, b: array<i64>) returns (t: array<i64>)
    requires a.Length == 16 && b.Length == 16 && Loose(a[..]) && Loose(b[..])
    ensures fresh(t) && t.Length == 31
    ensures forall k :: 0 <= k < 31 ==> -(16 * TWO52) <= t[k] <= 16 * TWO52
    ensures Val(B, t[..]) == Val(B, a[..]) * Val(B, b[..])
  {
    t := new i64[31](_ => 0);
    ghost var s, v := a[..], Val(B, b[..]);
    ValZeros(B, t[..]);
    assert s[..0] == [];
    for i := 0 to 16
      modifies t
      invariant forall k :: 0 <= k < 31 ==> -(i * TWO52) <= t[k] <= i * TWO52
      invariant Val(B, t[..]) == Val(B, s[..i]) * v
    {
      AddRow(t, a[i], b, i);
      SnocValue(s, i);
      ColumnStep(Val(B, s[..i]), Pow(B, i), s[i], v);
    }
    assert s[..16] == s;
  }

  method Fold(t: array<i64>) returns (o: array<i64>)
    requires t.Length == 31
    requires forall k :: 0 <= k < 31 ==> -(16 * TWO52) <= t[k] <= 16 * TWO52
    modifies t
    ensures fresh(o) && o.Length == 16 && Bounded(o[..], TWO62)
    ensures Cong(Val(B, o[..]), old(Val(B, t[..])), P)
  {
    ghost var wide := t[..];
    for i := 0 to 15
      invariant forall k :: 0 <= k < i ==> t[k] == wide[k] + 38 * wide[k + 16]
      invariant forall k :: i <= k < 31 ==> t[k] == wide[k]
    {
      var high: i64 := 38 * t[i + 16];
      t[i] := t[i] + high;
    }
    o := new i64[16](_ => 0);
    for i := 0 to 16
      modifies o
      invariant forall k :: 0 <= k < i ==> o[k] == t[k]
    {
      o[i] := t[i];
    }
    FoldHigh(wide, o[..]);
  }

  method GfMul(a: array<i64>, b: array<i64>) returns (o: array<i64>)
    requires a.Length == 16 && b.Length == 16 && Loose(a[..]) && Loose(b[..])
    ensures fresh(o) && o.Length == 16 && Tight(o[..])
    ensures Cong(Val(B, o[..]), Val(B, a[..]) * Val(B, b[..]), P)
  {
    var t := Columns(a, b);
    o := Fold(t);
    TwoPasses(o);
  }

  lemma ColumnStep(u: int, p: int, x: int, v: int)
    ensures (u + p * x) * v == u * v + p * (x * v)
  {
    Distrib(v, u, p * x);
    MulAssoc(p, x, v);
  }

  method TwoPasses(o: array<i64>)
    requires o.Length == 16 && Bounded(o[..], TWO62)
    modifies o
    ensures Reduced(o[..]) && Cong(Val(B, o[..]), old(Val(B, o[..])), P)
  {
    ghost var s := o[..];
    CarryValue(s);
    CarryOnce(s);
    Car25519(o);
    CarryValue(o[..]);
    CarryTwice(o[..]);
    HeadWideBounded(o[..]);
    Car25519(o);
  }

  method GfSq(a: array<i64>) returns (o: array<i64>)
    requires a.Length == 16 && Loose(a[..])
    ensures fresh(o) && o.Length == 16 && Tight(o[..])
    ensures Cong(Val(B, o[..]), Val(B, a[..]) * Val(B, a[..]), P)
  {
    o := GfMul(a, a);
  }

  method GfMul121665(a: array<i64>) returns (o: array<i64>)
    requires a.Length == 16 && Loose(a[..])
    ensures fresh(o) && o.Length == 16 && Tight(o[..])
    ensures Cong(Val(B, o[..]), Val(B, a[..]) * 121665, P)
  {
    var b := Gf121665();
    o := GfMul(a, b);
  }

  // ----- powers -----

  // One squaring, and one multiplication when the next exponent bit is set.
  lemma SquareStep(x: int, e: nat, c: int, t: int, bit: int, r: int)
    requires Cong(c, Power(x, e), P) && Cong(t, c * c, P)
    requires bit == 0 || bit == 1
    requires if bit == 1 then Cong(r, t * x, P) else r == t
    ensures Cong(r, Power(x, 2 * e + bit), P)
  {
    PowerAdd(x, e, e);
    CongMul(c, Power(x, e), c, Power(x, e), P);
    assert Cong(t, Power(x, 2 * e), P);
    if bit == 1 {
      CongMul(t, Power(x, 2 * e), x, x, P);
      assert Power(x, 2 * e + 1) == x * Power(x, 2 * e);
    }
  }

  method Copy(a: array<i64>) returns (c: array<i64>)
    requires a.Length == 16
    ensures fresh(c) && c.Length == 16 && c[..] == a[..]
  {
    c := new i64[16](i requires 0 <= i < 16 reads a => a[i]);
  }

  lemma InvStep(x: int, i: nat, vc: int, vt: int, vr: int)
    requires i < 254 && Cong(vc, Power(x, Prefix(INV_EXP, i + 1)), P) && Cong(vt, vc * vc, P)
    requires if i != 2 && i != 4 then Cong(vr, vt * x, P) else vr == vt
    ensures Cong(vr, Power(x, Prefix(INV_EXP, i)), P)
  {
    InvBit(i);
    assert Prefix(INV_EXP, i + 1) == Prefix(INV_EXP, i) / 2;
    SquareStep(x, Prefix(INV_EXP, i + 1), vc, vt, (Prefix(INV_EXP, i)) % 2, vr);
  }

  lemma PowerStart(x: int)
    ensures Power(x, Prefix(INV_EXP, 254)) == x && Power(x, Prefix(ROOT_EXP, 251)) == x
  {
    TopBit();
    assert Power(x, 1) == x * Power(x, 0);
  }

  // a to the power 2^255 - 21, the Fermat inverse: the accumulator's exponent is at each
  // point the leading bits of that number.
  method Inv25519(a: array<i64>) returns (c: array<i64>)
    requires a.Length == 16 && Loose(a[..])
    ensures fresh(c) && c.Length == 16 && Tight(c[..])
    ensures Cong(Val(B, c[..]), Power(Val(B, a[..]), INV_EXP), P)
  {
    c := Copy(a);
    ghost var x := Val(B, a[..]);
    PowerStart(x);
    for i := 254 downto 0
      invariant c.Length == 16 && Loose(c[..]) && (i < 254 ==> Tight(c[..]))
      invariant Cong(Val(B, c[..]), Power(x, Prefix(INV_EXP, i)), P)
      invariant fresh(c)
    {
      var t := GfSq(c);
      ghost var vc := Val(B, c[..]);
      if i != 2 && i != 4 {
        c := GfMul(t, a);
      } else {
        c := t;
      }
      InvStep(x, i, vc, Val(B, t[..]), Val(B, c[..]));
    }
  }

  lemma RootStep(x: int, i: nat, vc: int, vt: int, vr: int)
    requires i < 251 && Cong(vc, Power(x, Prefix(ROOT_EXP, i + 1)), P) && Cong(vt, vc * vc, P)
    requires if i != 1 then Cong(vr, vt * x, P) else vr == vt
    ensures Cong(vr, Power(x, Prefix(ROOT_EXP, i)), P)
  {
    RootBit(i);
    assert Prefix(ROOT_EXP, i + 1) == Prefix(ROOT_EXP, i) / 2;
    SquareStep(x, Prefix(ROOT_EXP, i + 1), vc, vt, (Prefix(ROOT_EXP, i)) % 2, vr);
  }

  method Pow2523(a: array<i64>) returns (c: array<i64>)
    requires a.Length == 16 && Loose(a[..])
    ensures fresh(c) && c.Length == 16 && Tight(c[..])
    ensures Cong(Val(B, c[..]), Power(Val(B, a[..]), ROOT_EXP), P)
  {
    c := Copy(a);
    ghost var x := Val(B, a[..]);
    PowerStart(x);
    for i := 251 downto 0
      invariant c.Length == 16 && Loose(c[..]) && (i < 251 ==> Tight(c[..]))
      invariant Cong(Val(B, c[..]), Power(x, Prefix(ROOT_EXP, i)), P)
      invariant fresh(c)
    {
      ghost var vc := Val(B, c[..]);
      c := GfSq(c);
      ghost var vt := Val(B, c[..]);
      if i != 1 {
        c := GfMul(c, a);
      }
      RootStep(x, i, vc, vt, Val(B, c[..]));
    }
  }

  // ----- unpack25519 -----

  lemma ByteFields(lo: int, hi: int)
    requires 0 <= lo < 0x100
    ensures Bits.Or(lo, hi * 0x100) == lo + hi * 0x100
  {
    Pow2Facts();
    Bits.OrFields(lo, hi, 8);
  }

  lemma TopMask(x: int)
    ensures Bits.And(x, 0x7fff) == x % 0x8000
  {
    assert Bits.Pow2(15) == 0x8000;
    Bits.AndMask(x, 15);
  }

  function Limb(lo: int, hi: int): int { lo + hi * 0x100 }

  // The value of the limbs once the top bit of the last byte is dropped.
  lemma UnpackValue(n: seq<int>, o: seq<int>)
    requires |n| == 32 && |o| == 16 && Digits(0x100, n)
    requires forall i :: 0 <= i < 15 ==> o[i] == Limb(n[2 * i], n[2 * i + 1])
    requires o[15] == Limb(n[30], n[31]) % 0x8000
    ensures Canonical(o) && Val(B, o) == Val(0x100, n) % (P + 19)
  {
    var top := Limb(n[30], n[31]);
    FullValue(n, o[15 := top]);
    ValUpdate(B, o, 15, top);
    SnocValue(o, 15);
    assert o[..16] == o;
    ValRange(B, o[..15]);
    Pow15();
    TopSplit(Pow(B, 15), top, Val(B, o[..15]), Val(B, o), Val(0x100, n));
  }

  lemma LimbBytes(lo: int, hi: int)
    requires 0 <= lo < 0x100 && 0 <= hi < 0x100
    ensures Limb(lo, hi) % 0x100 == lo && (Limb(lo, hi) / 0x100) % 0x100 == hi && 0 <= Limb(lo, hi) < B
  {
  }

  lemma FullValue(n: seq<int>, o: seq<int>)
    requires |n| == 32 && |o| == 16 && Digits(0x100, n)
    requires forall i :: 0 <= i < 16 ==> o[i] == Limb(n[2 * i], n[2 * i + 1])
    ensures Canonical(o) && Val(B, o) == Val(0x100, n)
  {
    forall i | 0 <= i < 32 ensures Bytes(o)[i] == n[i] {
      var k := i / 2;
      LimbBytes(n[2 * k], n[2 * k + 1]);
      assert o[k] == Limb(n[2 * k], n[2 * k + 1]);
      assert i == 2 * k || i == 2 * k + 1;
    }
    forall i | 0 <= i < 16 ensures 0 <= o[i] < B {
      LimbBytes(n[2 * i], n[2 * i + 1]);
    }
    assert Bytes(o) == n;
    BytesValue(o);
  }

  lemma TopSplit(p: int, top: int, low: int, v: int, full: int)
    requires p > 0 && p * 0x8000 == P + 19 && 0 <= low < p && 0 <= top
    requires v == low + p * (top % 0x8000) && full == v + p * (top - top % 0x8000)
    ensures v == full % (P + 19)
  {
    var q, r := top / 0x8000, top % 0x8000;
    assert p * (top - r) == q * (P + 19) by { MulAssoc(p, 0x8000, q); }
    MulLe(0, r, p);
    MulLe(r, 0x7fff, p);
    QuotRem(full, q, v, P + 19);
  }

  lemma Pow15()
    ensures Pow(B, 15) > 0 && Pow(B, 15) * 0x8000 == P + 19
  {
    Pow16();
    assert Pow(B, 16) == B * Pow(B, 15);
  }

  method Unpack25519(o: array<i64>, n: array<byte>)
    requires o.Length == 16 && n.Length == 32
    modifies o
    ensures Canonical(o[..]) && Val(B, o[..]) == Val(0x100, n[..]) % (P + 19)
  {
    for i := 0 to 16
      invariant forall k :: 0 <= k < i ==> o[k] == Limb(n[2 * k], n[2 * k + 1])
    {
      ByteFields(n[2 * i], n[2 * i + 1]);
      o[i] := Bits.Or(n[2 * i], (n[2 * i + 1] as int) * 0x100);
    }
    TopMask(o[15]);
    o[15] := Bits.And(o[15], 0x7fff);
    UnpackValue(n[..], o[..]);
  }
}
