// What is hashed and how the digest is written, byte by byte, as FIPS 180-4 has it.

module Sha256Laws {
  import opened MachineInts
  import opened DivMod
  import opened Radix
  import opened Sha256Spec

  lemma {:induction false} BeAt(n: nat, x: int, i: nat)
    requires i < n
    ensures Pow(0x100, n - 1 - i) > 0 && Be(n, x)[i] == x / Pow(0x100, n - 1 - i) % 0x100
  {
    PowPos(0x100, n - 1 - i);
    if i < n - 1 {
      BeAt(n - 1, x / 0x100, i);
      DivDiv(x, 0x100, Pow(0x100, n - 2 - i));
    }
  }

  // The data, a one bit, and the fewest zeros that leave room for the length in the last block.
  lemma PadLayout(data: seq<byte>)
    ensures var p := Pad(data);
            && |p| % 64 == 0 && |data| + 9 <= |p| < |data| + 9 + 64
            && p[..|data|] == data && p[|data|] == 0x80 && forall i :: |data| < i < |p| - 8 ==> p[i] == 0
  {
    PadParts(data);
    PadFew(|data|);
  }

  lemma PadParts(data: seq<byte>)
    ensures var p, z := Pad(data), PadZeros(|data|);
            && |p| == |data| + 9 + z && p[..|data|] == data && p[|data|] == 0x80
            && (forall i :: |data| < i < |p| - 8 ==> p[i] == 0) && p[|p| - 8..] == Be(8, 8 * |data|)
  {
    var z := Fill(PadZeros(|data|));
    var p := (data + [0x80]) + z + Be(8, 8 * |data|);
    assert forall i :: |data| < i < |data| + 1 + |z| ==> p[i] == z[i - |data| - 1];
  }

  lemma PadFew(n: nat)
    ensures 0 <= PadZeros(n) < 64
  {
  }

  // The last eight bytes are the length in bits, most significant byte first.
  lemma PadLength(data: seq<byte>, i: nat)
    requires i < 8
    ensures var p := Pad(data);
            |p| >= 8 && Pow(0x100, 7 - i) > 0 && p[|p| - 8 + i] == 8 * |data| / Pow(0x100, 7 - i) % 0x100
  {
    var p := Pad(data);
    PadParts(data);
    BeAt(8, 8 * |data|, i);
    assert p[|p| - 8..][i] == p[|p| - 8 + i];
  }

  // Blocks are compressed in their order, the first one into the standard's initial value.
  lemma FoldBlocks(f: Compress, data: seq<byte>, block: Block)
    requires |data| % 64 == 0
    ensures Fold(f, data + block) == f(Fold(f, data), block)
    ensures Fold(f, block) == f([0x6a09e667, 0xbb67ae85, 0x3c6ef372, 0xa54ff53a,
                                 0x510e527f, 0x9b05688c, 0x1f83d9ab, 0x5be0cd19], block)
  {
    assert (data + block)[..|data|] == data && (data + block)[|data|..] == block;
    var none: seq<byte> := [];
    assert block[..0] == none && block[0..] == block && Fold(f, none) == INITIAL;
  }

  lemma {:induction false} WordsAt(s: seq<u32>, i: nat, k: nat)
    requires i < |s| && k < 4
    ensures Words(s)[4 * i + k] == Be(4, s[i])[k]
  {
    var n := |s| - 1;
    if i < n { WordsAt(s[..n], i, k); }
  }

  // Byte 4i + k of the digest is byte k of word i of the last state, most significant first.
  lemma DigestByte(f: Compress, data: seq<byte>, i: nat, k: nat)
    requires i < 8 && k < 4
    ensures Pow(0x100, 3 - k) > 0
    ensures Digest(f, data)[4 * i + k] == (Fold(f, Pad(data))[i] as int) / Pow(0x100, 3 - k) % 0x100
  {
    WordsAt(Fold(f, Pad(data)), i, k);
    BeAt(4, Fold(f, Pad(data))[i], k);
  }
}
