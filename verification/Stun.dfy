// STUN messages of src/turn.rs: type packing, XOR addresses, the builder and the parser.

module StunWords {
  import opened MachineInts
  import Bits

  function Be2(x: u16): (s: seq<byte>) ensures |s| == 2 { [x / 0x100, x % 0x100] }

  function From2(s: seq<byte>): u16
    requires |s| >= 2
  {
    (s[0] as int) * 0x100 + (s[1] as int)
  }

  function Be4(x: u32): (s: seq<byte>) ensures |s| == 4 { Be2(x / 0x1_0000) + Be2(x % 0x1_0000) }

  function From4(s: seq<byte>): u32
    requires |s| >= 4
  {
    (From2(s) as int) * 0x1_0000 + (From2(s[2..]) as int)
  }

  lemma Be2Back(x: u16)
    ensures From2(Be2(x)) == x
  {
  }

  lemma Be4Back(x: u32)
    ensures From4(Be4(x)) == x
  {
    Be2Back(x / 0x1_0000);
    Be2Back(x % 0x1_0000);
    assert Be4(x)[2..] == Be2(x % 0x1_0000);
    assert From2(Be4(x)) == From2(Be2(x / 0x1_0000));
  }

  lemma Powers()
    ensures Bits.Pow2(1) == 2 && Bits.Pow2(2) == 4 && Bits.Pow2(3) == 8 && Bits.Pow2(4) == 16 && Bits.Pow2(5) == 32
    ensures Bits.Pow2(7) == 128 && Bits.Pow2(8) == 256 && Bits.Pow2(9) == 512 && Bits.Pow2(16) == 0x1_0000
    ensures Bits.Pow2(32) == 0x1_0000_0000
  {
    assert Bits.Pow2(2) == 4;
    assert Bits.Pow2(4) == 16;
    Bits.Pow2Add(4, 1);
    Bits.Pow2Add(5, 2);
    Bits.Pow2Add(4, 4);
    Bits.Pow2Add(8, 1);
    Bits.Pow2Add(8, 8);
    Bits.Pow2Add(16, 16);
  }

  // The bits of x at and above k, n of them, in place.
  lemma Masked(x: int, k: nat, n: nat, p: int, q: int)
    requires p == Bits.Pow2(k) && q == Bits.Pow2(n)
    ensures Bits.And(x, (q - 1) * p) == x / p % q * p
  {
    Bits.AndHighAt(x, q - 1, k, p);
    Bits.AndMaskAt(x / p, n, q);
  }

  lemma Ored(lo: int, hi: int, k: nat, p: int)
    requires p == Bits.Pow2(k) && 0 <= lo < p
    ensures Bits.Or(lo, hi * p) == lo + hi * p
  {
    Bits.OrFields(lo, hi, k);
  }

  // (pos + 3) & !3
  lemma Aligned(pos: nat)
    ensures Bits.And(pos + 3, Bits.Not(3)) == (pos + 3) / 4 * 4
  {
    Powers();
    assert Bits.Not(3) == -1 * 4;
    Bits.AndHighAt(pos + 3, -1, 2, 4);
  }
}

module Stun {
  import opened Wrappers
  import opened MachineInts
  import opened DivMod
  import opened StunWords
  import Bits

  const MAGIC: u32 := 0x2112A442

  // ----- the message type: 12 bits of method interleaved with 2 of class -----

  function StunType(method_: u16, class_: u16): int
  {
    Bits.Or(Bits.Or(Bits.Or(Bits.Or(Bits.And(method_, 0xF), Bits.And(class_, 1) * 16),
                            Bits.And(method_, 0x70) * 2),
                    Bits.And(class_, 2) * 128),
            Bits.And(method_, 0xF80) * 4)
  }

  function StunMethod(t: u16): int
  {
    Bits.Or(Bits.Or(Bits.And(t, 0xF), Bits.And((t as int) / 2, 0x70)), Bits.And((t as int) / 4, 0xF80))
  }

  function StunClass(t: u16): int { Bits.Or(Bits.And((t as int) / 16, 1), Bits.And((t as int) / 128, 2)) }

  // A method's three fields and a class's two, and the type they make.
  function Packed(a: int, b: int, c: int, x: int, y: int): int { a + 16 * x + 32 * b + 256 * y + 512 * c }

  predicate Fields(a: int, b: int, c: int, x: int, y: int)
  {
    0 <= a < 16 && 0 <= b < 8 && 0 <= c < 32 && 0 <= x < 2 && 0 <= y < 2
  }

  lemma OredAll(a: int, b: int, c: int, x: int, y: int)
    requires Fields(a, b, c, x, y)
    ensures Bits.Or(Bits.Or(Bits.Or(Bits.Or(a, x * 16), b * 16 * 2), y * 2 * 128), c * 128 * 4) == Packed(a, b, c, x, y)
  {
    Powers();
    Ored(a, x, 4, 16);
    Ored(a + x * 16, b, 5, 32);
    Ored(a + x * 16 + b * 32, y, 8, 256);
    Ored(a + x * 16 + b * 32 + y * 256, c, 9, 512);
  }

  lemma TypeMasks(m: int, cl: int)
    ensures Bits.And(m, 0xF) == m % 16 && Bits.And(m, 0x70) == m / 16 % 8 * 16
    ensures Bits.And(m, 0xF80) == m / 128 % 32 * 128
    ensures Bits.And(cl, 1) == cl % 2 && Bits.And(cl, 2) == cl / 2 % 2 * 2
  {
    Powers();
    Bits.AndMaskAt(m, 4, 16);
    Masked(m, 4, 3, 16, 8);
    Masked(m, 7, 5, 128, 32);
    Bits.AndMaskAt(cl, 1, 2);
    Masked(cl, 1, 1, 2, 2);
  }

  lemma TypeIsPacked(m: u16, cl: u16)
    ensures StunType(m, cl)
         == Packed((m as int) % 16, (m as int) / 16 % 8, (m as int) / 128 % 32, (cl as int) % 2, (cl as int) / 2 % 2)
  {
    TypeMasks(m, cl);
    OredAll((m as int) % 16, (m as int) / 16 % 8, (m as int) / 128 % 32, (cl as int) % 2, (cl as int) / 2 % 2);
  }

  lemma MethodIsUnpacked(t: u16)
    ensures StunMethod(t) == (t as int) % 16 + 16 * ((t as int) / 32 % 8) + 128 * ((t as int) / 512 % 32)
  {
    var v := t as int;
    Powers();
    Bits.AndMaskAt(v, 4, 16);
    Masked(v / 2, 4, 3, 16, 8);
    Masked(v / 4, 7, 5, 128, 32);
    assert v / 2 / 16 == v / 32 && v / 4 / 128 == v / 512;
    Ored(v % 16, v / 32 % 8, 4, 16);
    Ored(v % 16 + v / 32 % 8 * 16, v / 512 % 32, 7, 128);
  }

  lemma ClassIsUnpacked(t: u16)
    ensures StunClass(t) == (t as int) / 16 % 2 + 2 * ((t as int) / 256 % 2)
  {
    var v := t as int;
    Powers();
    Bits.AndMaskAt(v / 16, 1, 2);
    Masked(v / 128, 1, 1, 2, 2);
    assert v / 128 / 2 == v / 256;
    Ored(v / 16 % 2, v / 256 % 2, 1, 2);
  }

  lemma Unpack(a: int, b: int, c: int, x: int, y: int)
    requires Fields(a, b, c, x, y)
    ensures var t := Packed(a, b, c, x, y);
            && 0 <= t < 0x4000 && t % 16 == a && t / 32 % 8 == b && t / 512 % 32 == c
            && t / 16 % 2 == x && t / 256 % 2 == y
  {
    var t := Packed(a, b, c, x, y);
    QuotRem(t, x + 2 * (b + 8 * y + 16 * c), a, 16);
    QuotRem(x + 2 * (b + 8 * y + 16 * c), b + 8 * y + 16 * c, x, 2);
    QuotRem(t, b + 8 * (y + 2 * c), a + 16 * x, 32);
    QuotRem(b + 8 * (y + 2 * c), y + 2 * c, b, 8);
    QuotRem(t, y + 2 * c, a + 16 * x + 32 * b, 256);
    QuotRem(y + 2 * c, c, y, 2);
    QuotRem(t, c, a + 16 * x + 32 * b + 256 * y, 512);
    QuotRem(c, 0, c, 32);
  }

  // A quotient one field further on.
  lemma Further(t: int, m: int, n: int)
    requires m > 0 && n > 0
    ensures m * n > 0 && t / m == n * (t / (m * n)) + t / m % n
  {
    DivDiv(t, m, n);
  }

  lemma Parts(m: int)
    requires 0 <= m < 4096
    ensures m == m % 16 + 16 * (m / 16 % 8) + 128 * (m / 128 % 32)
  {
    Further(m, 16, 8);
    QuotientBelow(m, 128, 32);
  }

  lemma PackedAgain(t: int)
    requires 0 <= t < 0x4000
    ensures Packed(t % 16, t / 32 % 8, t / 512 % 32, t / 16 % 2, t / 256 % 2) == t
  {
    Further(t, 16, 2);
    Further(t, 32, 8);
    Further(t, 256, 2);
    QuotientBelow(t, 512, 32);
    QuotRem(t / 512, 0, t / 512, 32);
    PackSum(t, t / 16, t / 32, t / 256, t / 512, t % 16, t / 16 % 2, t / 32 % 8, t / 256 % 2);
  }

  lemma PackSum(t: int, q16: int, q32: int, q256: int, q512: int, a: int, x: int, b: int, y: int)
    requires t == 16 * q16 + a && q16 == 2 * q32 + x && q32 == 8 * q256 + b && q256 == 2 * q512 + y
    ensures t == a + 16 * x + 32 * b + 256 * y + 512 * q512
  {
  }

  // The fields of a method, a class, and the type packed from them.
  ghost predicate Of(t: int, m: int, cl: int, a: int, b: int, c: int, x: int, y: int)
  {
    && Fields(a, b, c, x, y) && t == Packed(a, b, c, x, y)
    && m == a + 16 * b + 128 * c && cl == x + 2 * y
  }

  lemma TypeFields(m: u16, cl: u16) returns (a: int, b: int, c: int, x: int, y: int)
    requires m < 4096 && cl < 4
    ensures Of(StunType(m, cl), m, cl, a, b, c, x, y)
  {
    TypeIsPacked(m, cl);
    Parts(m);
    a, b, c, x, y := (m as int) % 16, (m as int) / 16 % 8, (m as int) / 128 % 32, (cl as int) % 2, (cl as int) / 2 % 2;
  }

  lemma Unpacked(t: int, m: int, cl: int, a: int, b: int, c: int, x: int, y: int)
    requires Of(t, m, cl, a, b, c, x, y)
    ensures 0 <= t < 0x4000 && StunMethod(t) == m && StunClass(t) == cl
  {
    Unpack(a, b, c, x, y);
    MethodIsUnpacked(t);
    ClassIsUnpacked(t);
  }

  // Packing loses neither method nor class, for every 12-bit method and 2-bit class.
  lemma TypeRoundTrip(m: u16, cl: u16)
    requires m < 4096 && cl < 4
    ensures 0 <= StunType(m, cl) < 0x4000 && StunMethod(StunType(m, cl)) == m && StunClass(StunType(m, cl)) == cl
  {
    var a, b, c, x, y := TypeFields(m, cl);
    Unpacked(StunType(m, cl), m, cl, a, b, c, x, y);
  }

  lemma OwnFields(t: u16) returns (m: int, cl: int, a: int, b: int, c: int, x: int, y: int)
    requires t < 0x4000
    ensures Of(t, m, cl, a, b, c, x, y) && 0 <= m < 4096 && 0 <= cl < 4
  {
    var v := t as int;
    PackedAgain(v);
    a, b, c, x, y := v % 16, v / 32 % 8, v / 512 % 32, v / 16 % 2, v / 256 % 2;
    m, cl := a + 16 * b + 128 * c, x + 2 * y;
  }

  lemma PackedFrom(t: int, m: u16, cl: u16, a: int, b: int, c: int, x: int, y: int)
    requires Of(t, m, cl, a, b, c, x, y)
    ensures StunType(m, cl) == t
  {
    MethodParts(a, b, c);
    ClassParts(x, y);
    TypeIsPacked(m, cl);
  }

  // And every 14-bit type is the packing of its own method and class.
  lemma TypeOnto(t: u16)
    requires t < 0x4000
    ensures 0 <= StunMethod(t) < 4096 && 0 <= StunClass(t) < 4 && StunType(StunMethod(t), StunClass(t)) == t
  {
    var m, cl, a, b, c, x, y := OwnFields(t);
    Unpacked(t, m, cl, a, b, c, x, y);
    PackedFrom(t, m, cl, a, b, c, x, y);
  }

  lemma MethodParts(a: int, b: int, c: int)
    requires 0 <= a < 16 && 0 <= b < 8 && 0 <= c < 32
    ensures var m := a + 16 * b + 128 * c; 0 <= m < 4096 && m % 16 == a && m / 16 % 8 == b && m / 128 % 32 == c
  {
    var m := a + 16 * b + 128 * c;
    QuotRem(m, b + 8 * c, a, 16);
    QuotRem(b + 8 * c, c, b, 8);
    QuotRem(m, c, a + 16 * b, 128);
    QuotRem(c, 0, c, 32);
  }

  lemma ClassParts(x: int, y: int)
    requires 0 <= x < 2 && 0 <= y < 2
    ensures var cl := x + 2 * y; 0 <= cl < 4 && cl % 2 == x && cl / 2 % 2 == y
  {
  }

  // ----- XOR addresses -----

  datatype Addr = V4(ip: u32, port: u16) | V6

  function Xored(x: int, y: int, k: nat): (z: int)
    requires 0 <= x < Bits.Pow2(k) && 0 <= y < Bits.Pow2(k)
    ensures 0 <= z < Bits.Pow2(k)
  {
    Bits.XorRange(x, y, k);
    Bits.Xor(x, y)
  }

  function XorPort(p: u16): u16 { Powers(); Xored(p, 0x2112, 16) }

  function XorIp(ip: u32): u32 { Powers(); Xored(ip, MAGIC, 32) }

  function EncodeXorAddr(a: Addr): seq<byte>
  {
    match a
    case V4(ip, port) => [0, 1] + Be2(XorPort(port)) + Be4(XorIp(ip))
    case V6 => []
  }

  function DecodeXorAddr(v: seq<byte>): Option<Addr>
  {
    if |v| < 8 || v[1] != 1 then None else Some(V4(XorIp(From4(v[4..])), XorPort(From2(v[2..]))))
  }

  lemma XorTwice(p: u16, ip: u32)
    ensures XorPort(XorPort(p)) == p && XorIp(XorIp(ip)) == ip
  {
    Bits.XorCancel(p, 0x2112);
    Bits.XorCancel(ip, MAGIC);
  }

  // An IPv4 address survives the XOR encoding; anything else encodes to nothing.
  lemma XorAddrRoundTrip(a: Addr)
    ensures DecodeXorAddr(EncodeXorAddr(a)) == if a.V4? then Some(a) else None
  {
    if a.V4? {
      var p, i := Be2(XorPort(a.port)), Be4(XorIp(a.ip));
      AddrParts(p, i);
      Be2Back(XorPort(a.port));
      Be4Back(XorIp(a.ip));
      XorTwice(a.port, a.ip);
    }
  }

  lemma AddrParts(p: seq<byte>, i: seq<byte>)
    requires |p| == 2 && |i| == 4
    ensures var v: seq<byte> := [0, 1] + p + i; |v| == 8 && v[1] == 1 && From2(v[2..]) == From2(p) && v[4..] == i
  {
  }
}
