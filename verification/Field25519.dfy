// The field of integers modulo 2^255 - 19 on sixteen signed 16-bit limbs (src/crypto.rs, mod fe25519).

module FieldSpec {
  import opened DivMod
  import opened Modular
  import opened Radix

  const P: int := 0x7FFFFFFF_FFFFFFFF_FFFFFFFF_FFFFFFFF_FFFFFFFF_FFFFFFFF_FFFFFFFF_FFFFFFED
  const B: int := 0x1_0000
  const TWO17: int := 0x2_0000
  const TWO26: int := 0x400_0000
  const TWO47: int := 0x8000_0000_0000
  const TWO62: int := 0x4000_0000_0000_0000

  // The little-endian limbs of P.
  function PLimb(i: int): int { if i == 0 then 0xffed else if i == 15 then 0x7fff else 0xffff }

  function PLimbs(): (s: seq<int>)
    ensures |s| == 16 && forall i :: 0 <= i < 16 ==> s[i] == PLimb(i)
  {
    seq(16, i => PLimb(i))
  }

  ghost predicate Bounded(s: seq<int>, m: int)
  {
    |s| == 16 && forall k :: 0 <= k < 16 ==> -m <= s[k] <= m
  }

  // All limbs but the first are digits; the first misses its range by at most 38 * w.
  ghost predicate HeadWide(s: seq<int>, w: int)
  {
    |s| == 16 && (forall k :: 1 <= k < 16 ==> 0 <= s[k] < B) && -38 * w <= s[0] < B + 38 * w
  }

  // What gf_mul returns and every element operation accepts.
  ghost predicate Reduced(s: seq<int>) { HeadWide(s, 1) }

  ghost predicate Canonical(s: seq<int>) { |s| == 16 && Digits(B, s) }

  // The field element a limb vector stands for.
  ghost function Elem(s: seq<int>): int { Val(B, s) % P }

  lemma Pow16()
    ensures Pow(B, 8) == 0x1_00000000_00000000_00000000_00000000
    ensures Pow(B, 16) == 2 * P + 38
  {
    assert Pow(B, 2) == 0x1_00000000;
    assert Pow(B, 4) == 0x1_00000000_00000000 by { PowAdd(B, 2, 2); }
    assert Pow(B, 8) == 0x1_00000000_00000000_00000000_00000000 by { PowAdd(B, 4, 4); }
    PowAdd(B, 8, 8);
  }

  // ----- one carry pass -----

  // The carry arriving at limb i.
  function CarryIn(s: seq<int>, i: nat): int
    requires i <= |s|
  {
    if i == 0 then 0 else (s[i - 1] + CarryIn(s, i - 1)) / B
  }

  // What limb k keeps.
  function Low(s: seq<int>, k: nat): int
    requires k < |s|
  {
    (s[k] + CarryIn(s, k)) % B
  }

  function Swept(s: seq<int>, i: nat): (r: seq<int>)
    requires i <= |s|
    ensures |r| == i
  {
    seq(i, k requires 0 <= k < i => Low(s, k))
  }

  function Carry(s: seq<int>): (r: seq<int>)
    requires |s| == 16
    ensures |r| == 16
  {
    Swept(s, 16)[0 := Low(s, 0) + 38 * CarryIn(s, 16)]
  }

  lemma {:induction false} SweptValue(s: seq<int>, i: nat)
    requires i <= |s|
    ensures Val(B, Swept(s, i)) + Pow(B, i) * CarryIn(s, i) == Val(B, s[..i])
  {
    if i > 0 {
      SweptValue(s, i - 1);
      var x := s[i - 1] + CarryIn(s, i - 1);
      assert Swept(s, i) == Swept(s, i - 1) + [x % B];
      ValSnoc(B, Swept(s, i - 1), x % B);
      SnocValue(s, i - 1);
      var p := Pow(B, i - 1);
      CarryUp(p, B, x);
      Distrib(p, s[i - 1], CarryIn(s, i - 1));
    }
  }

  lemma Fold38(v: int, p: int, c: int, before: int, after: int)
    requires p == 2 * P + 38 && v + p * c == before && after == v + 38 * c
    ensures Cong(after, before, P)
  {
    Distrib(c, 2 * P, 38);
    FromMultiple(after, before, -2 * c, P);
  }

  // A carry pass keeps the element: 2^256 is replaced by 38, and 2^256 - 38 = 2P.
  lemma CarryValue(s: seq<int>)
    requires |s| == 16
    ensures Cong(Val(B, Carry(s)), Val(B, s), P)
  {
    SweptValue(s, 16);
    assert s[..16] == s;
    var w, c := Swept(s, 16), CarryIn(s, 16);
    ValUpdate(B, w, 0, w[0] + 38 * c);
    assert Pow(B, 0) == 1;
    Fold38(Val(B, w), Pow(B, 16), c, Val(B, s), Val(B, Carry(s))) by { Pow16(); }
  }

  lemma {:induction false} CarryInBound(s: seq<int>, i: nat)
    requires Bounded(s, TWO62) && i <= 16
    ensures -TWO47 <= CarryIn(s, i) <= TWO47
  {
    if i > 0 { CarryInBound(s, i - 1); }
  }

  // The first pass leaves excess only in limb 0.
  lemma CarryOnce(s: seq<int>)
    requires Bounded(s, TWO62)
    ensures HeadWide(Carry(s), TWO47)
  {
    CarryInBound(s, 16);
  }

  lemma {:induction false} CarryInSmall(s: seq<int>, i: nat)
    requires HeadWide(s, TWO47) && 1 <= i <= 16
    ensures i == 1 ==> -0x20_0000_0000 <= CarryIn(s, i) <= 0x20_0000_0000
    ensures i == 2 ==> -0x20_0001 <= CarryIn(s, i) <= 0x20_0001
    ensures i == 3 ==> -33 <= CarryIn(s, i) <= 33
    ensures i >= 4 ==> -1 <= CarryIn(s, i) <= 1
  {
    if i > 1 { CarryInSmall(s, i - 1); } else { assert CarryIn(s, 0) == 0; }
  }

  lemma CarryTwice(s: seq<int>)
    requires HeadWide(s, TWO47)
    ensures Reduced(Carry(s))
  {
    CarryInSmall(s, 16);
  }

  // Through digits a carry never changes sign and never grows.
  lemma {:induction false} CarryInDies(s: seq<int>, i: nat)
    requires Reduced(s) && 1 <= i <= 16
    ensures -1 <= CarryIn(s, 1) <= 1
    ensures CarryIn(s, 1) >= 0 ==> 0 <= CarryIn(s, i) <= CarryIn(s, 1)
    ensures CarryIn(s, 1) <= 0 ==> CarryIn(s, 1) <= CarryIn(s, i) <= 0
  {
    assert CarryIn(s, 0) == 0;
    assert CarryIn(s, 1) == s[0] / B;
    if i > 1 { CarryInDies(s, i - 1); }
  }

  lemma CarryThrice(s: seq<int>)
    requires Reduced(s)
    ensures Canonical(Carry(s))
  {
    CarryInDies(s, 16);
    assert CarryIn(s, 0) == 0;
    assert CarryIn(s, 1) == s[0] / B;
    assert Carry(s)[0] == s[0] % B + 38 * CarryIn(s, 16);
  }

  lemma ThreeCarries(s: seq<int>)
    requires Bounded(s, TWO62)
    ensures Canonical(Carry(Carry(Carry(s))))
    ensures Cong(Val(B, Carry(Carry(Carry(s)))), Val(B, s), P)
  {
    CarryOnce(s);
    CarryTwice(Carry(s));
    CarryThrice(Carry(Carry(s)));
    CarryValue(s);
    CarryValue(Carry(s));
    CarryValue(Carry(Carry(s)));
  }

  // ----- the conditional subtraction of P -----

  function Borrow(t: seq<int>, i: nat): int
    requires |t| == 16 && i <= 16
    decreases i, 0
  {
    if i == 0 then 0 else (Raw(t, i - 1) / B) % 2
  }

  function Raw(t: seq<int>, i: nat): int
    requires |t| == 16 && i < 16
    decreases i, 1
  {
    t[i] - PLimb(i) - Borrow(t, i)
  }

  // t - P with a signed top limb.
  function Minus(t: seq<int>): (m: seq<int>)
    requires |t| == 16
    ensures |m| == 16
  {
    seq(16, i requires 0 <= i < 16 => if i < 15 then Raw(t, i) % B else Raw(t, i))
  }

  function CondSub(t: seq<int>): (r: seq<int>)
    requires |t| == 16
    ensures |r| == 16
  {
    if Raw(t, 15) < 0 then t else Minus(t)
  }

  lemma {:induction false} PLimbsValue()
    ensures Val(B, PLimbs()) == P
  {
    var q := [0xffff, 0xffff, 0xffff, 0xffff];
    assert Val(B, q) == 0xFFFF_FFFF_FFFF_FFFF by {
      assert Val(B, q[1..][1..]) == 0xFFFF_FFFF by {
        assert q[1..][1..] == [0xffff, 0xffff];
        assert [0xffff, 0xffff][1..] == [0xffff];
        assert [0xffff][1..] == [];
        assert Val(B, [0xffff]) == 0xffff;
      }
    }
    var lo := [0xffed, 0xffff, 0xffff, 0xffff];
    assert Val(B, lo) == 0xFFFF_FFFF_FFFF_FFED by {
      ValUpdate(B, q, 0, 0xffed);
      assert lo == q[0 := 0xffed];
    }
    var hi := [0xffff, 0xffff, 0xffff, 0x7fff];
    assert Val(B, hi) == 0x7FFF_FFFF_FFFF_FFFF by {
      ValUpdate(B, q, 3, 0x7fff);
      assert hi == q[3 := 0x7fff];
      assert Pow(B, 3) == 0x1_0000_0000_0000 by {
        PowAdd(B, 1, 2);
        assert Pow(B, 1) == B;
        assert Pow(B, 2) == 0x1_0000_0000;
      }
    }
    assert Pow(B, 4) == 0x1_00000000_00000000 by { PowAdd(B, 2, 2); assert Pow(B, 2) == 0x1_0000_0000; }
    ValConcat(B, q, hi);
    ValConcat(B, q, q + hi);
    ValConcat(B, lo, q + (q + hi));
    assert PLimbs() == lo + (q + (q + hi));
  }

  lemma Weighted(p: int, x: int, t: int, l: int, b: int)
    requires x == t - l - b
    ensures p * x == p * t - p * l - p * b
  {
    Distrib(p, t - l, b);
    Distrib(p, t, l);
  }

  lemma {:induction false} MinusPrefix(t: seq<int>, i: nat)
    requires Canonical(t) && i <= 15
    ensures Borrow(t, i) in {0, 1}
    ensures Val(B, Minus(t)[..i]) - Pow(B, i) * Borrow(t, i) == Val(B, t[..i]) - Val(B, PLimbs()[..i])
  {
    if i > 0 {
      MinusPrefix(t, i - 1);
      var x := Raw(t, i - 1);
      assert -0x1_0000 <= x < B && x / B == -Borrow(t, i);
      SnocValue(Minus(t), i - 1);
      SnocValue(t, i - 1);
      SnocValue(PLimbs(), i - 1);
      MinusStep(Pow(B, i - 1), x, t[i - 1], PLimb(i - 1), Borrow(t, i - 1), Borrow(t, i),
                Val(B, Minus(t)[..i - 1]), Val(B, t[..i - 1]), Val(B, PLimbs()[..i - 1]));
    }
  }

  lemma MinusStep(p: int, x: int, t: int, l: int, b0: int, b1: int, vm: int, vt: int, vl: int)
    requires x == t - l - b0 && x / B == -b1 && vm - p * b0 == vt - vl
    ensures vm + p * (x % B) - (B * p) * b1 == vt + p * t - (vl + p * l)
  {
    CarryUp(p, B, x);
    Weighted(p, x, t, l, b0);
    assert (B * p) * -b1 == -((B * p) * b1);
  }

  lemma SnocValue(s: seq<int>, i: nat)
    requires i < |s|
    ensures Val(B, s[..i + 1]) == Val(B, s[..i]) + Pow(B, i) * s[i]
  {
    assert s[..i + 1] == s[..i] + [s[i]];
    ValSnoc(B, s[..i], s[i]);
  }

  lemma MinusValue(t: seq<int>)
    requires Canonical(t)
    ensures Val(B, Minus(t)) == Val(B, t) - P
  {
    MinusPrefix(t, 15);
    SnocValue(Minus(t), 15);
    SnocValue(t, 15);
    SnocValue(PLimbs(), 15);
    PLimbsValue();
    Weighted(Pow(B, 15), Raw(t, 15), t[15], PLimb(15), Borrow(t, 15));
    assert Minus(t)[..16] == Minus(t) && t[..16] == t && PLimbs()[..16] == PLimbs();
  }

  lemma SignOf(p: int, x: int)
    requires p >= 0
    ensures x <= -1 ==> p * x <= -p
    ensures x >= 0 ==> p * x >= 0
  {
  }

  // The top limb's sign bit decides the comparison with P.
  lemma MinusSign(t: seq<int>)
    requires Canonical(t)
    ensures Val(B, t) >= P <==> Raw(t, 15) >= 0
    ensures Val(B, t) >= P ==> Canonical(Minus(t))
  {
    MinusValue(t);
    MinusPrefix(t, 15);
    var m, x := Minus(t), Raw(t, 15);
    SnocValue(m, 15);
    assert m[..16] == m;
    ValRange(B, m[..15]);
    SignOf(Pow(B, 15), x);
  }

  lemma CondSubValue(t: seq<int>)
    requires Canonical(t)
    ensures Canonical(CondSub(t))
    ensures Val(B, CondSub(t)) == if Val(B, t) >= P then Val(B, t) - P else Val(B, t)
  {
    MinusValue(t);
    MinusSign(t);
  }

  // Two subtractions suffice because a sixteen-digit value is below 2P + 38.
  lemma TwoSubs(t: seq<int>)
    requires Canonical(t)
    ensures Canonical(CondSub(CondSub(t)))
    ensures Val(B, CondSub(CondSub(t))) == Elem(t)
  {
    ValRange(B, t);
    Pow16();
    CondSubValue(t);
    CondSubValue(CondSub(t));
    var v := Val(B, t);
    var q := if v < P then 0 else if v < 2 * P then 1 else 2;
    DivMod.QuotRem(v, q, v - q * P, P);
  }

  // ----- bytes of a limb vector -----

  function Bytes(t: seq<int>): (o: seq<int>)
    ensures |o| == 2 * |t|
  {
    seq(2 * |t|, i requires 0 <= i < 2 * |t| => if i % 2 == 0 then t[i / 2] % 0x100 else (t[i / 2] / 0x100) % 0x100)
  }

  lemma {:induction false} BytesValue(t: seq<int>)
    requires Digits(B, t)
    ensures Digits(0x100, Bytes(t)) && Val(0x100, Bytes(t)) == Val(B, t)
  {
    if t != [] {
      BytesValue(t[1..]);
      var o := Bytes(t);
      assert o[2..] == Bytes(t[1..]) by {
        forall i | 0 <= i < |o| - 2 ensures o[2..][i] == Bytes(t[1..])[i] {
          assert (i + 2) / 2 == i / 2 + 1 && (i + 2) % 2 == i % 2;
          assert t[1..][i / 2] == t[i / 2 + 1];
        }
      }
      assert o[1..][1..] == o[2..];
      assert o[0] == t[0] % 0x100 && o[1..][0] == (t[0] / 0x100) % 0x100;
    }
  }
}
