// XSalsa20 stream and secretbox of src/crypto.rs over arbitrary Salsa20 and HSalsa20 cores.

module Secretbox {
  import opened Wrappers
  import opened MachineInts
  import opened DivMod
  import opened Radix
  import opened ByteStrings
  import PolySpec
  import Poly1305
  import Bits

  type Block64 = s: seq<byte> | |s| == 64 witness seq(64, _ => 0)
  type Key = s: seq<byte> | |s| == 32 witness seq(32, _ => 0)
  type Nonce = s: seq<byte> | |s| == 24 witness seq(24, _ => 0)

  // core(key, 8-byte nonce, low and high counter words) is one keystream block.
  datatype Cipher = Cipher(core: (Key, seq<byte>, u32, u32) -> Block64, hsalsa: (Key, seq<byte>) -> Key)

  // ----- the keystream -----

  // Byte i of the stream under a subkey: blocks are counted in two 32-bit words.
  function CoreByte(c: Cipher, subkey: Key, nonce8: seq<byte>, i: nat): byte
  {
    c.core(subkey, nonce8, (i / 64) % 0x1_0000_0000, (i / 64 / 0x1_0000_0000) % 0x1_0000_0000)[i % 64]
  }

  function StreamByte(c: Cipher, key: Key, nonce: Nonce, i: nat): byte
  {
    CoreByte(c, c.hsalsa(key, nonce[..16]), nonce[16..], i)
  }

  function Stream(c: Cipher, key: Key, nonce: Nonce, n: nat): (s: seq<byte>)
    ensures |s| == n
  {
    seq(n, i requires 0 <= i < n => StreamByte(c, key, nonce, i))
  }

  method Salsa20Xor(c: Cipher, subkey: Key, nonce8: seq<byte>, msg: seq<byte>) returns (out: seq<byte>)
    requires |nonce8| == 8 && |msg| < 0x1_0000_0000_0000_0000
    ensures |out| == |msg|
    ensures forall i :: 0 <= i < |msg| ==> out[i] == XorByte(msg[i], CoreByte(c, subkey, nonce8, i))
  {
    out := [];
    var counter: u64 := 0;
    var pos := 0;
    while pos < |msg|
      invariant pos == |out| <= |msg|
      invariant pos < |msg| ==> pos == 64 * counter
      invariant forall i :: 0 <= i < pos ==> out[i] == XorByte(msg[i], CoreByte(c, subkey, nonce8, i))
    {
      var block := c.core(subkey, nonce8, counter % 0x1_0000_0000, (counter / 0x1_0000_0000) % 0x1_0000_0000);
      var take := if |msg| - pos < 64 then |msg| - pos else 64;
      for k := 0 to take
        invariant |out| == pos + k
        invariant forall i :: 0 <= i < pos + k ==> out[i] == XorByte(msg[i], CoreByte(c, subkey, nonce8, i))
      {
        QuotRem(pos + k, counter, k, 64);
        out := out + [XorByte(msg[pos + k], block[k])];
      }
      pos := pos + take;
      counter := counter + 1;
    }
  }

  method XSalsa20Xor(c: Cipher, key: Key, nonce: Nonce, msg: seq<byte>) returns (out: seq<byte>)
    requires |msg| < 0x1_0000_0000_0000_0000
    ensures |out| == |msg|
    ensures forall i :: 0 <= i < |msg| ==> out[i] == XorByte(msg[i], StreamByte(c, key, nonce, i))
  {
    out := Salsa20Xor(c, c.hsalsa(key, nonce[..16]), nonce[16..], msg);
  }

  method Keystream(c: Cipher, key: Key, nonce: Nonce, len: nat) returns (s: seq<byte>)
    requires len < 0x1_0000_0000_0000_0000
    ensures s == Stream(c, key, nonce, len)
  {
    var zeros: seq<byte> := seq(len, _ => 0);
    s := XSalsa20Xor(c, key, nonce, zeros);
  }

  // ----- seal and open -----

  function XorWith(data: seq<byte>, s: seq<byte>): (r: seq<byte>)
    requires |data| <= |s|
    ensures |r| == |data|
  {
    seq(|data|, i requires 0 <= i < |data| => XorByte(data[i], s[i]))
  }

  // The authenticator's sixteen bytes.
  function Mac(key: Key, data: seq<byte>): (m: seq<byte>)
    ensures |m| == 16
  {
    Spell(0x100, 16, PolySpec.Tag(key, data))
  }

  function Seal(c: Cipher, key: Key, nonce: Nonce, plain: seq<byte>): (s: seq<byte>)
    ensures |s| == 16 + |plain|
  {
    var stream := Stream(c, key, nonce, 32 + |plain|);
    var cipher := XorWith(plain, stream[32..]);
    Mac(stream[..32], cipher) + cipher
  }

  function Open(c: Cipher, key: Key, nonce: Nonce, sealed: seq<byte>): Option<seq<byte>>
  {
    if |sealed| < 16 then None
    else
      var cipher := sealed[16..];
      var stream := Stream(c, key, nonce, 32 + |cipher|);
      if sealed[..16] != Mac(stream[..32], cipher) then None
      else Some(XorWith(cipher, stream[32..]))
  }

  lemma XorTwice(data: seq<byte>, s: seq<byte>)
    requires |data| <= |s|
    ensures XorWith(XorWith(data, s), s) == data
  {
    forall i | 0 <= i < |data| ensures XorByte(XorByte(data[i], s[i]), s[i]) == data[i] {
      Bits.XorCancel(data[i], s[i]);
    }
  }

  lemma SealOpens(c: Cipher, key: Key, nonce: Nonce, plain: seq<byte>)
    ensures Open(c, key, nonce, Seal(c, key, nonce, plain)) == Some(plain)
  {
    var stream := Stream(c, key, nonce, 32 + |plain|);
    assert Seal(c, key, nonce, plain)[16..] == XorWith(plain, stream[32..]);
    XorTwice(plain, stream[32..]);
  }

  lemma OpenedWasSealed(c: Cipher, key: Key, nonce: Nonce, sealed: seq<byte>, plain: seq<byte>)
    requires Open(c, key, nonce, sealed) == Some(plain)
    ensures sealed == Seal(c, key, nonce, plain)
  {
    var stream := Stream(c, key, nonce, 32 + |plain|);
    assert |sealed[16..]| == |plain|;
    XorTwice(sealed[16..], stream[32..]);
    assert sealed == sealed[..16] + sealed[16..];
  }

  // Opening accepts exactly the sealed texts of this key and nonce, and undoes sealing.
  lemma OpenIffSealed(c: Cipher, key: Key, nonce: Nonce, sealed: seq<byte>, plain: seq<byte>)
    ensures Open(c, key, nonce, sealed) == Some(plain) <==> sealed == Seal(c, key, nonce, plain)
  {
    SealOpens(c, key, nonce, plain);
    if Open(c, key, nonce, sealed) == Some(plain) { OpenedWasSealed(c, key, nonce, sealed, plain); }
  }

  method PolyMac(key: Key, data: seq<byte>) returns (m: seq<byte>)
    ensures m == Mac(key, data)
  {
    m := Poly1305.Poly1305Mac(key, data);
    ghost var t := PolySpec.Tag(key, data);
    TagBelow(key, data);
    SpellValue(0x100, 16, t);
    ValInjective(0x100, m, Mac(key, data));
  }

  lemma TagBelow(key: Key, data: seq<byte>)
    ensures 0 <= PolySpec.Tag(key, data) < Pow(0x100, 16)
  {
    PowAdd(0x100, 2, 2);
    assert Pow(0x100, 2) == 0x1_0000;
    PowAdd(0x100, 4, 4);
    PowAdd(0x100, 8, 8);
    assert Pow(0x100, 16) == PolySpec.TWO128;
  }

  method SecretboxSeal(c: Cipher, key: Key, nonce: Nonce, plain: seq<byte>) returns (out: seq<byte>)
    requires 32 + |plain| < 0x1_0000_0000_0000_0000
    ensures out == Seal(c, key, nonce, plain)
  {
    var stream := Keystream(c, key, nonce, 32 + |plain|);
    var cipher := [];
    for i := 0 to |plain|
      invariant |cipher| == i && forall k :: 0 <= k < i ==> cipher[k] == XorByte(plain[k], stream[32 + k])
    {
      cipher := cipher + [XorByte(plain[i], stream[32 + i])];
    }
    assert cipher == XorWith(plain, stream[32..]);
    var mac := PolyMac(stream[..32], cipher);
    out := mac + cipher;
  }

  // The constant-time comparison: xors or'ed together.
  method SameMac(a: seq<byte>, b: seq<byte>) returns (same: bool)
    requires |a| == 16 && |b| == 16
    ensures same <==> a == b
  {
    var diff := 0;
    for i := 0 to 16
      invariant diff == 0 <==> a[..i] == b[..i]
    {
      Bits.XorZero(a[i], b[i]);
      Bits.OrZero(diff, Bits.Xor(a[i], b[i]));
      assert a[..i + 1] == a[..i] + [a[i]] && b[..i + 1] == b[..i] + [b[i]];
      diff := Bits.Or(diff, Bits.Xor(a[i], b[i]));
    }
    same := diff == 0;
    assert a[..16] == a && b[..16] == b;
  }

  method SecretboxOpen(c: Cipher, key: Key, nonce: Nonce, sealed: seq<byte>) returns (out: Option<seq<byte>>)
    requires 32 + |sealed| < 0x1_0000_0000_0000_0000
    ensures out == Open(c, key, nonce, sealed)
  {
    if |sealed| < 16 {
      return None;
    }
    var macBytes, cipher := sealed[..16], sealed[16..];
    var stream := Keystream(c, key, nonce, 32 + |cipher|);
    var computed := PolyMac(stream[..32], cipher);
    var same := SameMac(macBytes, computed);
    if !same {
      return None;
    }
    var plain := [];
    for i := 0 to |cipher|
      invariant |plain| == i && forall k :: 0 <= k < i ==> plain[k] == XorByte(cipher[k], stream[32 + k])
    {
      plain := plain + [XorByte(cipher[i], stream[32 + i])];
    }
    assert plain == XorWith(cipher, stream[32..]);
    out := Some(plain);
  }
}
