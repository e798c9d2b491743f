// Where every byte of a sealed text comes from, in terms of the core's arguments.

module SecretboxLaws {
  import opened MachineInts
  import opened DivMod
  import opened Radix
  import opened ByteStrings
  import opened Secretbox
  import PolySpec

  // Block n is made under the counter words that spell n.
  predicate Spells(lo: u32, hi: u32, n: nat) { lo + 0x1_0000_0000 * hi == n }

  lemma WordsOf(lo: u32, hi: u32, n: nat)
    requires Spells(lo, hi, n)
    ensures n % 0x1_0000_0000 == lo && (n / 0x1_0000_0000) % 0x1_0000_0000 == hi
  {
    QuotRem(n, hi, lo, 0x1_0000_0000);
  }

  // Byte r of block n of the stream under a subkey.
  lemma CoreBlock(c: Cipher, subkey: Key, nonce8: seq<byte>, n: nat, lo: u32, hi: u32, r: nat)
    requires Spells(lo, hi, n) && r < 64
    ensures CoreByte(c, subkey, nonce8, 64 * n + r) == c.core(subkey, nonce8, lo, hi)[r]
  {
    WordsOf(lo, hi, n);
    QuotRem(64 * n + r, n, r, 64);
  }

  // Every block of the stream is the core's, under the subkey of the nonce's first sixteen bytes,
  // its last eight, and the number of the block.
  lemma StreamBlock(c: Cipher, key: Key, nonce: Nonce, len: nat, n: nat, lo: u32, hi: u32)
    requires Spells(lo, hi, n) && 64 * n + 64 <= len
    ensures Stream(c, key, nonce, len)[64 * n..64 * n + 64] == c.core(c.hsalsa(key, nonce[..16]), nonce[16..], lo, hi)
  {
    var s := Stream(c, key, nonce, len)[64 * n..64 * n + 64];
    var b := c.core(c.hsalsa(key, nonce[..16]), nonce[16..], lo, hi);
    forall r | 0 <= r < 64 ensures s[r] == b[r] {
      CoreBlock(c, c.hsalsa(key, nonce[..16]), nonce[16..], n, lo, hi, r);
    }
  }

  // Different counter words give different blocks.
  ghost predicate Counting(c: Cipher, subkey: Key, nonce8: seq<byte>)
  {
    forall lo: u32, hi: u32, lo': u32, hi': u32 ::
      c.core(subkey, nonce8, lo, hi) == c.core(subkey, nonce8, lo', hi') ==> lo == lo' && hi == hi'
  }

  // No block is used twice.
  lemma BlocksDiffer(c: Cipher, key: Key, nonce: Nonce, len: nat, m: nat, n: nat)
    requires Counting(c, c.hsalsa(key, nonce[..16]), nonce[16..])
    requires m < TWO64 && n < TWO64 && 64 * m + 64 <= len && 64 * n + 64 <= len
    ensures var s := Stream(c, key, nonce, len);
            s[64 * m..64 * m + 64] == s[64 * n..64 * n + 64] <==> m == n
  {
    var (lo, hi) := Split(m);
    var (lo', hi') := Split(n);
    StreamBlock(c, key, nonce, len, m, lo, hi);
    StreamBlock(c, key, nonce, len, n, lo', hi');
  }

  function Split(n: nat): (w: (u32, u32))
    requires n < TWO64
    ensures Spells(w.0, w.1, n)
  {
    (n % 0x1_0000_0000, n / 0x1_0000_0000)
  }

  // The tag's key is the first half of block 0, which nothing else of the stream is.
  lemma SealedTag(c: Cipher, key: Key, nonce: Nonce, plain: seq<byte>)
    ensures var sealed := Seal(c, key, nonce, plain);
            var first := c.core(c.hsalsa(key, nonce[..16]), nonce[16..], 0, 0);
            |sealed| == 16 + |plain| && sealed[..16] == Spell(0x100, 16, PolySpec.Tag(first[..32], sealed[16..]))
  {
    var stream := Stream(c, key, nonce, 32 + |plain|);
    var first := c.core(c.hsalsa(key, nonce[..16]), nonce[16..], 0, 0);
    forall r | 0 <= r < 32 ensures stream[r] == first[r] {
      CoreBlock(c, c.hsalsa(key, nonce[..16]), nonce[16..], 0, 0, 0, r);
    }
    assert stream[..32] == first[..32];
    assert Seal(c, key, nonce, plain)[16..] == XorWith(plain, stream[32..]);
  }

  // Plaintext byte i is masked with byte r of block n; only the second half of block 0 is used, for
  // the first thirty-two bytes.
  lemma SealedByte(c: Cipher, key: Key, nonce: Nonce, plain: seq<byte>, i: nat, n: nat, lo: u32, hi: u32, r: nat)
    requires i < |plain| && Spells(lo, hi, n) && r < 64 && 32 + i == 64 * n + r
    ensures Seal(c, key, nonce, plain)[16 + i]
         == XorByte(plain[i], c.core(c.hsalsa(key, nonce[..16]), nonce[16..], lo, hi)[r])
    ensures (lo == 0 && hi == 0 <==> i < 32) && (i < 32 ==> r >= 32)
  {
    CoreBlock(c, c.hsalsa(key, nonce[..16]), nonce[16..], n, lo, hi, r);
    var stream := Stream(c, key, nonce, 32 + |plain|);
    assert stream[32..][i] == stream[32 + i];
    assert Seal(c, key, nonce, plain)[16..] == XorWith(plain, stream[32..]);
  }
}
