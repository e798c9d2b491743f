// The in-place limb routines of src/crypto.rs, mod fe25519: every i64 step is checked for overflow.

module Fe25519 {
  import opened MachineInts
  import opened Modular
  import opened Radix
  import opened FieldSpec
  import Bits

  // Bounds under which a product cannot overflow: limbs below 2^26 in magnitude.
  ghost predicate Loose(s: seq<int>) { Bounded(s, TWO26) }

  // What products satisfy, and what may be added or subtracted before the next product.
  ghost predicate Tight(s: seq<int>) { Bounded(s, TWO17) }

  // ----- values -----

  lemma {:induction false} ValOne(s: seq<int>, v: int)
    requires |s| == 16 && s[0] == v && forall k :: 1 <= k < 16 ==> s[k] == 0
    ensures Val(B, s) == v
  {
    ValZeros(B, s[1..]);
  }

  method Gf0() returns (o: array<i64>)
    ensures fresh(o) && o.Length == 16 && Canonical(o[..]) && Val(B, o[..]) == 0
  {
    o := new i64[16](_ => 0);
    ValZeros(B, o[..]);
  }

  method Gf1() returns (o: array<i64>)
    ensures fresh(o) && o.Length == 16 && Canonical(o[..]) && Val(B, o[..]) == 1
  {
    o := new i64[16](_ => 0);
    o[0] := 1;
    ValOne(o[..], 1);
  }

  // The curve constant (486662 - 2) / 4, as the multiplier of gf_mul121665.
  method Gf121665() returns (o: array<i64>)
    ensures fresh(o) && o.Length == 16 && Canonical(o[..]) && Val(B, o[..]) == 121665
  {
    o := new i64[16](_ => 0);
    o[0] := 0xDB41;
    o[1] := 1;
    ghost var s := o[..];
    assert s[1..][0] == 1;
    ValZeros(B, s[1..][1..]);
  }

  // ----- car25519 -----

  lemma CarryStep(s: seq<int>, i: nat)
    requires Bounded(s, TWO62) && i < 16
    ensures var x := s[i] + CarryIn(s, i);
            -TWO62 - TWO47 <= x <= TWO62 + TWO47 && x / B == CarryIn(s, i + 1) && x - (x / B) * B == Low(s, i)
    ensures -TWO47 <= CarryIn(s, i + 1) <= TWO47
    ensures i < 15 ==> -TWO62 <= s[i + 1] <= TWO62
  {
    CarryInBound(s, i);
    CarryInBound(s, i + 1);
  }

  // Takes limb i down to sixteen bits and returns what it carries.
  method CarryOut(o: array<i64>, i: nat, ghost s: seq<int>) returns (c: i64)
    requires Bounded(s, TWO62) && |s| == 16 == o.Length && i < 16 && o[i] == s[i] + CarryIn(s, i)
    modifies o
    ensures c == CarryIn(s, i + 1) && -TWO47 <= c <= TWO47 && o[i] == Low(s, i)
    ensures forall k :: 0 <= k < 16 && k != i ==> o[k] == old(o[k])
  {
    CarryStep(s, i);
    c := o[i] / 0x1_0000;
    var low: i64 := c * 0x1_0000;
    o[i] := o[i] - low;
  }

  method Car25519(o: array<i64>)
    requires o.Length == 16 && Bounded(o[..], TWO62)
    modifies o
    ensures o[..] == Carry(old(o[..]))
  {
    ghost var s := o[..];
    for i := 0 to 16
      invariant forall k :: 1 <= k < i ==> o[k] == Low(s, k)
      invariant i > 0 ==> o[0] == Low(s, 0) + if i == 16 then 38 * CarryIn(s, 16) else 0
      invariant i < 16 ==> o[i] == s[i] + CarryIn(s, i)
      invariant forall k :: i < k < 16 ==> o[k] == s[k]
    {
      var c := CarryOut(o, i, s);
      if i < 15 {
        o[i + 1] := o[i + 1] + c;
      } else {
        var fold: i64 := 38 * c;
        o[0] := o[0] + fold;
      }
    }
    assert o[..] == Carry(s);
  }

  // ----- sel25519 -----

  lemma SelectWord(p: int, q: int, b: int)
    requires b == 0 || b == 1
    ensures var t := Bits.And(Bits.Not(b - 1), Bits.Xor(p, q));
            Bits.Xor(p, t) == (if b == 1 then q else p) && Bits.Xor(q, t) == (if b == 1 then p else q)
  {
    Bits.XorComm(p, q);
    Bits.XorCancel(q, p);
    Bits.XorCancel(p, q);
    Bits.XorComm(p, Bits.Xor(p, q));
    Bits.XorComm(q, Bits.Xor(p, q));
  }

  // Exchanges two elements exactly when b is 1, without branching on b.
  method Sel25519(p: array<i64>, q: array<i64>, b: i64)
    requires p.Length == 16 && q.Length == 16 && p != q && (b == 0 || b == 1)
    modifies p, q
    ensures p[..] == if b == 1 then old(q[..]) else old(p[..])
    ensures q[..] == if b == 1 then old(p[..]) else old(q[..])
  {
    ghost var sp, sq := p[..], q[..];
    var c := Bits.Not(b - 1);
    for i := 0 to 16
      invariant forall k :: 0 <= k < i ==>
                  p[k] == (if b == 1 then sq[k] else sp[k]) && q[k] == (if b == 1 then sp[k] else sq[k])
      invariant forall k :: i <= k < 16 ==> p[k] == sp[k] && q[k] == sq[k]
    {
      SelectWord(p[i], q[i], b);
      var t := Bits.And(c, Bits.Xor(p[i], q[i]));
      p[i] := Bits.Xor(p[i], t);
      q[i] := Bits.Xor(q[i], t);
    }
    assert p[..] == if b == 1 then sq else sp;
    assert q[..] == if b == 1 then sp else sq;
  }

  // ----- pack25519 -----

  // The two one-bit extractions and the limb mask used below, in arithmetic terms.
  lemma MaskFacts(x: int)
    ensures Bits.And(x, 0xffff) == x % 0x1_0000
    ensures Bits.And(Bits.Shr(x, 16), 1) == (x / 0x1_0000) % 2
  {
    Pow2Facts();
    Bits.AndMask(x, 16);
    Bits.AndMask(x / 0x1_0000, 1);
  }

  lemma Pow2Facts()
    ensures Bits.Pow2(1) == 2 && Bits.Pow2(8) == 0x100 && Bits.Pow2(16) == 0x1_0000
    ensures Bits.Pow2(63) == 0x8000_0000_0000_0000
  {
    assert Bits.Pow2(8) == 0x100;
    assert Bits.Pow2(16) == 0x1_0000;
    Bits.Pow2Add(16, 16);
    Bits.Pow2Add(31, 32);
    assert Bits.Pow2(32) == 2 * Bits.Pow2(31);
  }

  lemma SignBit(x: i64)
    ensures Bits.And(Bits.Shr(x, 63), 1) == if x < 0 then 1 else 0
  {
    Pow2Facts();
    Bits.AndMask(Bits.Shr(x, 63), 1);
  }

  lemma BorrowStep(t: seq<int>, i: nat)
    requires Canonical(t) && 1 <= i <= 15
    ensures Bits.And(Bits.Shr(Raw(t, i - 1), 16), 1) == Borrow(t, i)
    ensures Bits.And(Raw(t, i - 1), 0xffff) == Minus(t)[i - 1]
    ensures 0 <= Borrow(t, i) <= 1 && Raw(t, i) == t[i] - PLimb(i) - Borrow(t, i)
  {
    MinusPrefix(t, i);
    MaskFacts(Raw(t, i - 1));
  }

  // One round of the loop that subtracts P when the value reaches it.
  method SubtractP(t: array<i64>)
    requires t.Length == 16 && Canonical(t[..])
    modifies t
    ensures t[..] == CondSub(old(t[..]))
  {
    var m := Difference(t);
    var b := Bits.And(Bits.Shr(m[15], 63), 1);
    SignBit(m[15]);
    Sel25519(t, m, 1 - b);
  }

  // m[i] = t[i] - p - borrow, after which limb i - 1 of m is final.
  method BorrowLimb(t: array<i64>, m: array<i64>, i: nat, p: i64)
    requires t.Length == 16 && Canonical(t[..]) && m.Length == 16 && m != t && 1 <= i <= 15 && p == PLimb(i)
    requires m[i - 1] == Raw(t[..], i - 1)
    modifies m
    ensures m[i] == Raw(t[..], i) && m[i - 1] == Minus(t[..])[i - 1]
    ensures forall k :: 0 <= k < 16 && k != i && k != i - 1 ==> m[k] == old(m[k])
  {
    BorrowStep(t[..], i);
    m[i] := t[i] - p - Bits.And(Bits.Shr(m[i - 1], 16), 1);
    m[i - 1] := Bits.And(m[i - 1], 0xffff);
  }

  // t minus P, borrowing from limb to limb; the last limb takes the sign.
  method Difference(t: array<i64>) returns (m: array<i64>)
    requires t.Length == 16 && Canonical(t[..])
    ensures m.Length == 16 && fresh(m) && m[..] == Minus(t[..])
  {
    m := new i64[16](_ => 0);
    m[0] := t[0] - 0xffed;
    assert Borrow(t[..], 0) == 0;
    for i := 1 to 15
      modifies m
      invariant forall k :: 0 <= k < i - 1 ==> m[k] == Minus(t[..])[k]
      invariant m[i - 1] == Raw(t[..], i - 1)
    {
      BorrowLimb(t, m, i, 0xffff);
    }
    BorrowLimb(t, m, 15, 0x7fff);
    assert m[..] == Minus(t[..]);
  }

  // Three carry passes leave sixteen digits.
  method Settle(t: array<i64>)
    requires t.Length == 16 && Bounded(t[..], TWO62)
    modifies t
    ensures Canonical(t[..]) && Cong(Val(B, t[..]), old(Val(B, t[..])), P)
  {
    ghost var s := t[..];
    ThreeCarries(s);
    CarryOnce(s);
    CarryTwice(Carry(s));
    Car25519(t);
    HeadWideBounded(t[..]);
    Car25519(t);
    Car25519(t);
  }

  method Freeze(t: array<i64>)
    requires t.Length == 16 && Bounded(t[..], TWO62)
    modifies t
    ensures Canonical(t[..]) && Val(B, t[..]) == old(Elem(t[..]))
  {
    Settle(t);
    ghost var u := t[..];
    TwoSubs(u);
    CondSubValue(u);
    for k := 0 to 2
      invariant t[..] == if k == 0 then u else if k == 1 then CondSub(u) else CondSub(CondSub(u))
    {
      SubtractP(t);
    }
  }

  method WriteBytes(o: array<byte>, t: array<i64>)
    requires o.Length == 32 && t.Length == 16 && Canonical(t[..])
    modifies o
    ensures o[..] == Bytes(t[..])
  {
    Pow2Facts();
    for i := 0 to 16
      invariant forall k :: 0 <= k < 2 * i ==> o[k] == Bytes(t[..])[k]
    {
      o[2 * i] := t[i] % 0x100;
      o[2 * i + 1] := Bits.Shr(t[i], 8) % 0x100;
    }
    assert o[..] == Bytes(t[..]);
  }

  // Writes the least non-negative residue, whatever representative it is given.
  method Pack25519(o: array<byte>, n: array<i64>)
    requires o.Length == 32 && n.Length == 16 && Bounded(n[..], TWO62)
    modifies o
    ensures Digits(0x100, o[..]) && Val(0x100, o[..]) == Elem(n[..])
  {
    var t := new i64[16](i requires 0 <= i < 16 reads n => n[i]);
    assert t[..] == n[..];
    Freeze(t);
    WriteBytes(o, t);
    BytesValue(t[..]);
  }

  lemma HeadWideBounded(s: seq<int>)
    requires HeadWide(s, TWO47)
    ensures Bounded(s, TWO62)
  {
  }
}
