// The authenticator of section 2.5 of RFC 8439 byte by byte and block by block.

module PolyLaws {
  import opened DivMod
  import opened Radix
  import opened ByteStrings
  import opened PolySpec
  import Bits

  lemma {:induction false} ValAnd(s: seq<int>, t: seq<int>, m: seq<int>)
    requires |s| == |t| == |m| && Digits(0x100, s) && Digits(0x100, t)
    requires forall i :: 0 <= i < |s| ==> m[i] == Bits.And(s[i], t[i])
    ensures Bits.And(Val(0x100, s), Val(0x100, t)) == Val(0x100, m)
  {
    if s != [] {
      ValAnd(s[1..], t[1..], m[1..]);
      ValSplit(s);
      ValSplit(t);
      ValSplit(m);
      assert Bits.Pow2(8) == 0x100;
      Bits.AndFieldsAt(Val(0x100, s[1..]), s[0], Val(0x100, t[1..]), t[0], 8, 0x100);
    }
  }

  lemma ValSplit(s: seq<int>)
    requires s != []
    ensures Val(0x100, s) == Val(0x100, s[1..]) * 0x100 + s[0]
  {
  }

  lemma ValWords(a: seq<int>, b: seq<int>, c: seq<int>, d: seq<int>)
    requires |a| == |b| == |c| == |d| == 4
    ensures Val(0x100, a + b + c + d)
         == Val(0x100, a) + 0x1_00000000 * Val(0x100, b) + 0x1_00000000_00000000 * Val(0x100, c)
            + 0x1_00000000_00000000_00000000 * Val(0x100, d)
  {
    WordPowers();
    ValConcat(0x100, a, b);
    ValConcat(0x100, a + b, c);
    ValConcat(0x100, a + b + c, d);
  }

  lemma WordPowers()
    ensures Pow(0x100, 4) == 0x1_00000000 && Pow(0x100, 8) == 0x1_00000000_00000000
    ensures Pow(0x100, 12) == 0x1_00000000_00000000_00000000
  {
    assert Pow(0x100, 2) == 0x1_0000;
    PowAdd(0x100, 2, 2);
    PowAdd(0x100, 4, 4);
    PowAdd(0x100, 8, 4);
  }

  // The mask that clamping applies.
  function Mask(): (m: seq<int>)
    ensures |m| == 16
  {
    [0xff, 0xff, 0xff, 0x0f] + [0xfc, 0xff, 0xff, 0x0f] + [0xfc, 0xff, 0xff, 0x0f] + [0xfc, 0xff, 0xff, 0x0f]
  }

  lemma MaskValue()
    ensures Val(0x100, Mask()) == CLAMP
  {
    var a, b := [0xff, 0xff, 0xff, 0x0f], [0xfc, 0xff, 0xff, 0x0f];
    Val4(a);
    Val4(b);
    ValWords(a, b, b, b);
  }

  lemma MaskKeeps(x: int, k: nat, p: int)
    requires p == Bits.Pow2(k) && 0 <= x < p
    ensures Bits.And(x, p - 1) == x
  {
    Bits.AndMaskAt(x, k, p);
    QuotRem(x, 0, x, p);
  }

  lemma Kept(x: int)
    requires 0 <= x < 0x100
    ensures Bits.And(x, 0xff) == x
  {
    assert Bits.Pow2(8) == 0x100;
    MaskKeeps(x, 8, 0x100);
  }

  lemma TopCleared(x: int)
    requires 0 <= x < 0x100
    ensures Bits.And(x, 0x0f) == x % 16
  {
    assert Bits.Pow2(4) == 16;
    Bits.AndMaskAt(x, 4, 16);
  }

  lemma LowCleared(x: int)
    requires 0 <= x < 0x100
    ensures Bits.And(x, 0xfc) == x / 4 * 4
  {
    assert Bits.Pow2(2) == 4;
    Bits.AndHighAt(x, 63, 2, 4);
    Below64(x / 4);
  }

  lemma Below64(x: int)
    requires 0 <= x < 64
    ensures Bits.And(x, 63) == x
  {
    assert Bits.Pow2(6) == 64;
    MaskKeeps(x, 6, 64);
  }

  // Byte i of r: the top four bits of every fourth byte and the two lowest of the bytes behind it
  // are cleared.
  function Clamped(i: nat, x: int): int
  {
    if i == 3 || i == 7 || i == 11 || i == 15 then x % 16
    else if i == 4 || i == 8 || i == 12 then x / 4 * 4
    else x
  }

  lemma ClampedBytes(key: seq<int>) returns (r: seq<int>)
    requires |key| == 32 && Digits(0x100, key)
    ensures |r| == 16 && R(key) == Val(0x100, r)
    ensures forall i :: 0 <= i < 16 ==> r[i] == Clamped(i, key[i])
  {
    r := seq(16, i requires 0 <= i < 16 => Clamped(i, key[i]));
    forall i | 0 <= i < 16 ensures r[i] == Bits.And(key[..16][i], Mask()[i]) {
      Kept(key[i]);
      TopCleared(key[i]);
      LowCleared(key[i]);
    }
    ValAnd(key[..16], Mask(), r);
    MaskValue();
  }

  lemma BlockIs(b: seq<int>)
    ensures Block(b) == Val(0x100, b) + Pow(0x100, |b|)
  {
    ValSnoc(0x100, b, 1);
  }

  lemma AbsorbOne(acc: int, r: int, b: seq<int>)
    requires 0 < |b| <= 16
    ensures Absorb(acc, r, b) == ((acc + Block(b)) * r) % 0x3_FFFFFFFF_FFFFFFFF_FFFFFFFF_FFFFFFFB
  {
    assert b[..|b|] == b && b[|b|..] == [];
  }

  lemma AbsorbWhole(acc: int, r: int, m: seq<int>)
    requires |m| >= 16
    ensures Absorb(acc, r, m) == Absorb(((acc + Block(m[..16])) * r) % PP, r, m[16..])
  {
  }

  type Absorber = (int, seq<int>) -> int

  // A way of absorbing that takes sixteen bytes at a time while there are so many.
  ghost predicate Stepwise(f: Absorber, step: Absorber)
  {
    (forall y :: f(y, []) == y)
    && forall y, m :: |m| >= 16 ==> f(y, m) == f(step(y, m[..16]), m[16..])
  }

  lemma {:induction false} RestAbsorbed(f: Absorber, step: Absorber, acc: int, a: seq<int>, b: seq<int>)
    requires |a| % 16 == 0 && Stepwise(f, step)
    ensures f(acc, a + b) == f(f(acc, a), b)
    decreases |a|
  {
    if a == [] {
      assert a + b == b;
    } else {
      assert (a + b)[..16] == a[..16] && (a + b)[16..] == a[16..] + b;
      RestAbsorbed(f, step, step(acc, a[..16]), a[16..], b);
    }
  }

  lemma AbsorbStepwise(r: int)
    ensures Stepwise((y, m) => Absorb(y, r, m), (y, m) => ((y + Block(m)) * r) % PP)
  {
    var f := (y, m) => Absorb(y, r, m);
    var step := (y, m) => ((y + Block(m)) * r) % PP;
    forall y, m: seq<int> | |m| >= 16 ensures f(y, m) == f(step(y, m[..16]), m[16..]) { AbsorbWhole(y, r, m); }
  }

  // What is behind whole blocks goes in with a one bit above its last byte, and everything so far
  // is multiplied by r modulo 2^130 - 5.
  lemma LastBlock(acc: int, r: int, a: seq<int>, b: seq<int>)
    requires |a| % 16 == 0 && 0 < |b| <= 16
    ensures Absorb(acc, r, a + b)
         == ((Absorb(acc, r, a) + (Val(0x100, b) + Pow(0x100, |b|))) * r) % 0x3_FFFFFFFF_FFFFFFFF_FFFFFFFF_FFFFFFFB
  {
    AbsorbStepwise(r);
    RestAbsorbed((y, m) => Absorb(y, r, m), (y, m) => ((y + Block(m)) * r) % PP, acc, a, b);
    AbsorbOne(Absorb(acc, r, a), r, b);
    BlockIs(b);
  }

  // The second half of the key goes on top, modulo 2^128.
  lemma TagIs(key: seq<int>, msg: seq<int>)
    requires |key| == 32
    ensures Tag(key, msg)
         == (Absorb(0, R(key), msg) + Val(0x100, key[16..])) % 0x1_00000000_00000000_00000000_00000000
    ensures Absorb(0, R(key), []) == 0
  {
  }
}
