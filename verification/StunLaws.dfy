// The bytes of STUN messages where sections 6 and 15 of RFC 5389 put them.

module StunLaws {
  import opened Wrappers
  import opened MachineInts
  import opened Radix
  import opened ByteStrings
  import opened StunWords
  import opened Stun
  import opened StunMessage
  import Bits

  // The twelve method bits with the class bits between them, at 4 and at 8.
  lemma TypeBits(m: u16, cl: u16)
    requires m < 4096 && cl < 4
    ensures StunType(m, cl)
         == (m as int) % 16 + 16 * ((cl as int) % 2) + 32 * ((m as int) / 16 % 8) + 256 * ((cl as int) / 2)
            + 512 * ((m as int) / 128)
  {
    TypeIsPacked(m, cl);
    TopFields(m, cl);
  }

  lemma TopFields(m: int, cl: int)
    requires 0 <= m < 4096 && 0 <= cl < 4
    ensures m / 128 % 32 == m / 128 && cl / 2 % 2 == cl / 2
  {
  }

  // Type and length most significant byte first, then the cookie and the transaction.
  lemma HeaderLayout(msgType: u16, len: nat, tid: seq<byte>)
    requires len < 0x1_0000 && |tid| == 12
    ensures var h := HeaderBytes(msgType, len, tid);
            && |h| == 20 && From2(h) == msgType && From2(h[2..]) == len
            && h[4..8] == [0x21, 0x12, 0xA4, 0x42] && h[8..] == tid
  {
  }

  // What the length counts, and what the integrity attribute covers.
  lemma BuiltLayout(h: Hmac, msgType: u16, tid: seq<byte>, body: seq<byte>, key: Option<seq<byte>>)
    requires |tid| == 12 && |body| + 24 < 0x1_0000
    ensures var msg, n := Built(h, msgType, tid, body, key), 20 + |body|;
            && |msg| >= n && msg[..20] == HeaderBytes(msgType, |msg| - 20, tid) && msg[20..n] == body
            && (key.None? ==> |msg| == n)
            && (key.Some? ==>
                  |msg| == n + 24 && msg[n..n + 4] == [0, 8, 0, 20] && msg[n + 4..] == h(key.value, msg[..n]))
  {
    var head := HeaderBytes(msgType, |body| + (if key.Some? then 24 else 0), tid);
    HeaderLayout(msgType, |body| + (if key.Some? then 24 else 0), tid);
    if key.Some? {
      var msg := Built(h, msgType, tid, body, key);
      assert msg == (head + body) + [0, 8, 0, 20] + h(key.value, head + body);
      assert msg[..20 + |body|] == head + body;
    }
  }

  // Kind and length, the value, and as few zeros as make the whole a multiple of four.
  lemma AttrLayout(a: Attr)
    requires |a.value| < 0x1_0000
    ensures var s := AttrBytes(a);
            && |s| % 4 == 0 && 4 + |a.value| <= |s| < 8 + |a.value|
            && From2(s) == a.kind && From2(s[2..]) == |a.value|
            && s[4..4 + |a.value|] == a.value && forall k :: 4 + |a.value| <= k < |s| ==> s[k] == 0
  {
    var s := AttrBytes(a);
    var head := Be2(a.kind) + Be2(|a.value| % 0x1_0000);
    assert s == head + a.value + Zeros(Padding(|a.value|));
    assert s[..4] == head;
    ZerosAre(Padding(|a.value|));
  }

  lemma ZerosAre(n: nat)
    ensures forall k :: 0 <= k < n ==> Zeros(n)[k] == 0
  {
  }

  // ----- reading -----

  // A message is refused exactly if it has no whole header, another cookie, or less than its length
  // says.
  lemma RefusedExactly(d: seq<byte>)
    ensures Parse(d).None? <==>
              |d| < 20 || d[4..8] != [0x21, 0x12, 0xA4, 0x42] || |d| < 20 + (d[2] as int) * 0x100 + (d[3] as int)
  {
    if |d| >= 20 { CookieBytes(d[4..8]); }
  }

  lemma CookieBytes(c: seq<byte>)
    requires |c| == 4
    ensures From4(c) == 0x2112A442 <==> c == [0x21, 0x12, 0xA4, 0x42]
  {
    FourBytes(c[0], c[1], c[2], c[3]);
    assert c == [c[0], c[1], c[2], c[3]];
  }

  lemma FourBytes(a: byte, b: byte, c: byte, d: byte)
    ensures ((a as int) * 0x100 + b as int) * 0x1_0000 + ((c as int) * 0x100 + d as int) == 0x2112A442
       <==> a == 0x21 && b == 0x12 && c == 0xA4 && d == 0x42
  {
  }

  // What lies behind a message does not belong to it.
  lemma TailIgnored(msgType: u16, tid: seq<byte>, attrs: seq<Attr>, tail: seq<byte>)
    requires |tid| == 12 && |Body(AttrPrinter(), attrs)| < 0x1_0000
    ensures Parse(HeaderBytes(msgType, |Body(AttrPrinter(), attrs)|, tid) + Body(AttrPrinter(), attrs) + tail)
         == Some(Parsed(msgType, tid, attrs))
  {
    PrinterFaithful();
    ValuesFit(AttrPrinter(), attrs);
    ParsesBefore(AttrPrinter(), msgType, tid, attrs, tail);
  }

  lemma ParsesBefore(p: Printer, msgType: u16, tid: seq<byte>, attrs: seq<Attr>, tail: seq<byte>)
    requires Faithful(p) && |tid| == 12 && Fit(attrs) && |Body(p, attrs)| < 0x1_0000
    ensures Parse(HeaderBytes(msgType, |Body(p, attrs)|, tid) + Body(p, attrs) + tail)
         == Some(Parsed(msgType, tid, attrs))
  {
    var body := Body(p, attrs);
    var head := HeaderBytes(msgType, |body|, tid);
    HeaderReads(msgType, |body|, tid, body + tail);
    assert head + body + tail == head + (body + tail);
    BodyParses(p, head + body + tail, head, attrs, tail, 20 + |body|);
    ParseAsFar(head + body + tail, msgType, tid, |body|, attrs);
  }

  lemma ParseAsFar(d: seq<byte>, msgType: u16, tid: seq<byte>, len: u16, attrs: seq<Attr>)
    requires |d| >= 20 + len && From2(d[0..2]) == msgType && From2(d[2..4]) == len && From4(d[4..8]) == MAGIC
    requires d[8..20] == tid && ParseAttrs(d, 20, 20 + len) == attrs
    ensures Parse(d) == Some(Parsed(msgType, tid, attrs))
  {
  }

  // ----- addresses -----

  lemma Be2Of(z: int, hi: byte, lo: byte)
    requires z == lo + 0x100 * (hi as int)
    ensures 0 <= z < 0x1_0000 && Be2(z) == [hi, lo]
  {
  }

  lemma Be4Of(z: int, hi: u16, lo: u16)
    requires z == lo + 0x1_0000 * (hi as int)
    ensures 0 <= z < 0x1_0000_0000 && Be4(z) == Be2(hi) + Be2(lo)
  {
  }

  // Xor of words is xor of their bytes.
  lemma Be2Xored(a: byte, b: byte, c: byte, d: byte)
    ensures var z := Bits.Xor((a as int) * 0x100 + (b as int), (c as int) * 0x100 + (d as int));
            0 <= z < 0x1_0000 && Be2(z) == [XorByte(a, c), XorByte(b, d)]
  {
    Powers();
    Bits.XorFieldsAt(a, b, c, d, 8, 0x100);
    Be2Of(Bits.Xor((a as int) * 0x100 + (b as int), (c as int) * 0x100 + (d as int)), XorByte(a, c), XorByte(b, d));
  }

  lemma Be4Xored(a: u16, b: u16, c: u16, d: u16)
    requires 0 <= Bits.Xor(a, c) < 0x1_0000 && 0 <= Bits.Xor(b, d) < 0x1_0000
    ensures var z := Bits.Xor((a as int) * 0x1_0000 + (b as int), (c as int) * 0x1_0000 + (d as int));
            0 <= z < 0x1_0000_0000 && Be4(z) == Be2(Bits.Xor(a, c)) + Be2(Bits.Xor(b, d))
  {
    HalfPower();
    Bits.XorFieldsAt(a, b, c, d, 16, 0x1_0000);
    Be4Of(Bits.Xor((a as int) * 0x1_0000 + (b as int), (c as int) * 0x1_0000 + (d as int)),
          Bits.Xor(a, c), Bits.Xor(b, d));
  }

  lemma HalfPower()
    ensures Bits.Pow2(16) == 0x1_0000
  {
    Powers();
  }

  lemma PortBytes(port: u16)
    ensures Be2(XorPort(port)) == [XorByte(Be2(port)[0], 0x21), XorByte(Be2(port)[1], 0x12)]
  {
    var p := port as int;
    Be2Xored(p / 0x100, p % 0x100, 0x21, 0x12);
  }

  lemma IpBytes(ip: u32)
    ensures var b := Be4(ip);
            Be4(XorIp(ip)) == [XorByte(b[0], 0x21), XorByte(b[1], 0x12), XorByte(b[2], 0xA4), XorByte(b[3], 0x42)]
  {
    var hi, lo := ip as int / 0x1_0000, ip as int % 0x1_0000;
    Be2Xored(hi / 0x100, hi % 0x100, 0x21, 0x12);
    Be2Xored(lo / 0x100, lo % 0x100, 0xA4, 0x42);
    Be4Xored(hi, lo, 0x2112, 0xA442);
  }

  // An IPv4 address goes out under family 1, port and address each masked with the first bytes of
  // the cookie, as they stand in every header.
  lemma AddressBytes(ip: u32, port: u16, msgType: u16, len: nat, tid: seq<byte>)
    requires len < 0x1_0000 && |tid| == 12
    ensures var v, cookie := EncodeXorAddr(V4(ip, port)), HeaderBytes(msgType, len, tid)[4..8];
            && |v| == 8 && v[0] == 0 && v[1] == 1
            && (forall k :: 0 <= k < 2 ==> v[2 + k] == XorByte(Be2(port)[k], cookie[k]))
            && forall k :: 0 <= k < 4 ==> v[4 + k] == XorByte(Be4(ip)[k], cookie[k])
  {
    HeaderLayout(msgType, len, tid);
    PortBytes(port);
    IpBytes(ip);
  }
}
