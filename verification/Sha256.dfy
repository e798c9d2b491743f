// Streaming SHA-256 (src/crypto.rs, struct Sha256) over an arbitrary compression function.

module Sha256Spec {
  import opened MachineInts
  import opened Radix

  type State = s: seq<u32> | |s| == 8 witness [0, 0, 0, 0, 0, 0, 0, 0]
  type Block = s: seq<byte> | |s| == 64 witness seq(64, _ => 0)
  type Compress = (State, Block) -> State

  const INITIAL: State := [0x6a09e667, 0xbb67ae85, 0x3c6ef372, 0xa54ff53a,
                           0x510e527f, 0x9b05688c, 0x1f83d9ab, 0x5be0cd19]

  // Compressing a whole number of blocks from left to right.
  function Fold(f: Compress, data: seq<byte>): State
    requires |data| % 64 == 0
  {
    if data == [] then INITIAL
    else f(Fold(f, data[..|data| - 64]), data[|data| - 64..])
  }

  // Big-endian bytes.
  function Be(n: nat, x: int): (s: seq<byte>)
    ensures |s| == n
  {
    if n == 0 then [] else Be(n - 1, x / 0x100) + [x % 0x100]
  }

  function PadZeros(len: nat): nat { (55 - len) % 64 }

  // Section 5.1.1 of FIPS 180-4: a one bit, the fewest zeros, and the 64-bit length in bits.
  function Pad(data: seq<byte>): (p: seq<byte>)
    ensures |p| % 64 == 0
  {
    data + [0x80] + Fill(PadZeros(|data|)) + Be(8, 8 * |data|)
  }

  function Fill(n: nat): (z: seq<byte>)
    ensures |z| == n && forall k :: 0 <= k < n ==> z[k] == 0
  {
    seq(n, _ => 0)
  }

  function Words(s: seq<u32>): (o: seq<byte>)
    ensures |o| == 4 * |s|
  {
    if s == [] then [] else Words(s[..|s| - 1]) + Be(4, s[|s| - 1])
  }

  function Digest(f: Compress, data: seq<byte>): (d: seq<byte>)
    ensures |d| == 32
  {
    Words(Fold(f, Pad(data)))
  }

  lemma {:induction false} BeInjective(n: nat, x: int, y: int)
    requires 0 <= x < Pow(0x100, n) && 0 <= y < Pow(0x100, n) && Be(n, x) == Be(n, y)
    ensures x == y
  {
    if n > 0 {
      var p, q := Be(n - 1, x / 0x100), Be(n - 1, y / 0x100);
      assert Be(n, x)[..n - 1] == p && Be(n, y)[..n - 1] == q;
      assert Be(n, x)[n - 1] == x % 0x100 && Be(n, y)[n - 1] == y % 0x100;
      BeInjective(n - 1, x / 0x100, y / 0x100);
    }
  }

  // Padding loses nothing: messages whose bit length fits 64 bits have different paddings.
  lemma PadInjective(a: seq<byte>, b: seq<byte>)
    requires 8 * |a| < 0x1_0000_0000_0000_0000 && 8 * |b| < 0x1_0000_0000_0000_0000
    requires Pad(a) == Pad(b)
    ensures a == b
  {
    var p := Pad(a);
    assert p[|p| - 8..] == Be(8, 8 * |a|);
    assert Pad(b)[|p| - 8..] == Be(8, 8 * |b|);
    assert Pow(0x100, 8) == 0x1_0000_0000_0000_0000 by {
      PowAdd(0x100, 2, 2);
      PowAdd(0x100, 4, 4);
      assert Pow(0x100, 2) == 0x1_0000;
    }
    BeInjective(8, 8 * |a|, 8 * |b|);
    assert p[..|a|] == a && Pad(b)[..|b|] == b;
  }

  function Concat(chunks: seq<seq<byte>>): seq<byte>
  {
    if chunks == [] then [] else Concat(chunks[..|chunks| - 1]) + chunks[|chunks| - 1]
  }
}

module Sha256 {
  import opened MachineInts
  import opened Sha256Spec

  class Hasher {
    const compress: Compress
    var state: State
    const buf: array<byte>
    var bufLen: nat
    var totalLen: u64
    ghost var data: seq<byte>

    // The state covers all full blocks of the data, the buffer holds the rest.
    ghost predicate Valid()
      reads this, buf
    {
      buf.Length == 64 && bufLen < 64 && totalLen == |data| && Covers(compress, state, buf[..bufLen], data)
    }

    static ghost predicate Covers(f: Compress, st: State, tail: seq<byte>, d: seq<byte>)
    {
      && |tail| == |d| % 64 && tail == d[|d| - |tail|..]
      && st == Fold(f, d[..|d| - |tail|])
    }

    lemma CoversAt(f: Compress, st: State, d: seq<byte>, p: nat)
      requires p <= |d| < p + 64 && p % 64 == 0 && st == Fold(f, d[..p])
      ensures Covers(f, st, d[p..], d)
    {
      TailLength(p, |d| - p);
      assert |d| - |d[p..]| == p;
    }

    constructor (f: Compress)
      ensures Valid() && data == [] && compress == f && fresh(buf)
    {
      compress := f;
      state := INITIAL;
      buf := new byte[64](_ => 0);
      bufLen := 0;
      totalLen := 0;
      data := [];
    }

    method CopyIn(at: nat, chunk: seq<byte>)
      requires buf.Length == 64 && at + |chunk| <= 64
      modifies buf
      ensures buf[..at] == old(buf[..at]) && buf[at..at + |chunk|] == chunk
    {
      for k := 0 to |chunk|
        invariant buf[..at] == old(buf[..at])
        invariant forall j :: 0 <= j < k ==> buf[at + j] == chunk[j]
      {
        buf[at + k] := chunk[k];
      }
    }

    // The loop over whole blocks, from a block boundary on.
    method AbsorbBlocks(d: seq<byte>, start: nat, ghost all: seq<byte>) returns (i: nat)
      requires start <= |d| <= |all| && all[|all| - |d|..] == d && (|all| - |d| + start) % 64 == 0
      requires state == Fold(compress, all[..|all| - |d| + start])
      modifies this`state
      ensures i <= |d| < i + 64 && (|all| - |d| + i) % 64 == 0
      ensures state == Fold(compress, all[..|all| - |d| + i])
    {
      i := start;
      ghost var p := |all| - |d| + start;
      while i + 64 <= |d|
        invariant i <= |d| && p == |all| - |d| + i && p % 64 == 0
        invariant state == Fold(compress, all[..p])
      {
        SameBlock(all, d, i, p);
        OneMore(compress, all, p);
        state := compress(state, d[i..i + 64]);
        i, p := i + 64, p + 64;
      }
    }

    // The whole blocks, then the copy of what is left.
    method AbsorbRest(d: seq<byte>, start: nat, ghost all: seq<byte>)
      requires buf.Length == 64 && bufLen == 0 && totalLen == |all|
      requires start <= |d| <= |all| && all[|all| - |d|..] == d && (|all| - |d| + start) % 64 == 0
      requires state == Fold(compress, all[..|all| - |d| + start])
      modifies this, buf
      ensures Valid() && data == all
    {
      var i := AbsorbBlocks(d, start, all);
      if i < |d| {
        CopyIn(0, d[i..]);
        bufLen := |d| - i;
      }
      data := all;
      RestCovers(compress, state, all, d, i);
      assert d[i..] == buf[..bufLen];
    }

    lemma RestCovers(f: Compress, st: State, all: seq<byte>, d: seq<byte>, i: nat)
      requires i <= |d| < i + 64 && |d| <= |all| && all[|all| - |d|..] == d && (|all| - |d| + i) % 64 == 0
      requires st == Fold(f, all[..|all| - |d| + i])
      ensures Covers(f, st, d[i..], all)
    {
      var p := |all| - |d| + i;
      CoversAt(f, st, all, p);
      assert all[p..] == d[i..];
    }

    lemma SameBlock(all: seq<byte>, d: seq<byte>, i: nat, p: nat)
      requires |d| <= |all| && all[|all| - |d|..] == d && i + 64 <= |d| && p == |all| - |d| + i
      ensures all[p..p + 64] == d[i..i + 64]
    {
      assert all[|all| - |d|..][i..i + 64] == all[p..p + 64];
    }

    // Tops up a partly filled buffer to one block and compresses it.
    method AbsorbBuffered(d: seq<byte>)
      requires Valid() && bufLen > 0 && bufLen + |d| >= 64
      modifies this, buf
      ensures buf.Length == 64 && bufLen == 0 && totalLen == old(totalLen) && data == old(data)
      ensures (|data| + 64 - old(bufLen)) % 64 == 0
      ensures state == Fold(compress, (data + d)[..|data| + 64 - old(bufLen)])
    {
      var need := 64 - bufLen;
      ghost var p := |data| - bufLen;
      CopyIn(bufLen, d[..need]);
      assert buf[..] == buf[..bufLen] + buf[bufLen..64];
      FillsBlock(data, d, buf[..], bufLen);
      OneMore(compress, data + d, p);
      state := compress(state, buf[..]);
      bufLen := 0;
    }

    // Not enough for a block: only the buffer grows.
    method Buffer(d: seq<byte>)
      requires Valid() && bufLen + |d| < 64 && |data| + |d| < 0x1_0000_0000_0000_0000
      modifies this, buf
      ensures Valid() && data == old(data) + d
    {
      CopyIn(bufLen, d);
      ghost var tail := old(buf[..bufLen]);
      assert buf[..bufLen + |d|] == tail + d by {
        assert buf[..bufLen + |d|] == buf[..bufLen] + buf[bufLen..bufLen + |d|];
      }
      ShortTail(compress, state, data, d, tail);
      totalLen := totalLen + |d|;
      bufLen := bufLen + |d|;
      data := data + d;
    }

    method Update(d: seq<byte>)
      requires Valid() && |data| + |d| < 0x1_0000_0000_0000_0000
      modifies this, buf
      ensures Valid() && data == old(data) + d
    {
      if 0 < bufLen && bufLen + |d| < 64 {
        Buffer(d);
        return;
      }
      ghost var all := data + d;
      assert all[|all| - |d|..] == d;
      var i := 0;
      if bufLen > 0 {
        var need := 64 - bufLen;
        AbsorbBuffered(d);
        i := need;
      } else {
        assert all[..|data|] == data[..|data|];
      }
      totalLen := totalLen + |d|;
      AbsorbRest(d, i, all);
    }

    lemma TailLength(p: nat, r: nat)
      requires p % 64 == 0 && r < 64
      ensures (p + r) % 64 == r
    {
    }

    lemma ShortTail(f: Compress, st: State, a: seq<byte>, d: seq<byte>, tail: seq<byte>)
      requires Covers(f, st, tail, a) && |tail| + |d| < 64
      ensures Covers(f, st, tail + d, a + d)
    {
      var p := |a| - |tail|;
      Whole(|a|, |tail|);
      Extended(a, d, p);
      CoversAt(f, st, a + d, p);
    }

    lemma Whole(n: nat, r: nat)
      requires r == n % 64
      ensures 0 <= n - r && (n - r) % 64 == 0
    {
    }

    lemma Extended(a: seq<byte>, d: seq<byte>, p: nat)
      requires p <= |a|
      ensures (a + d)[..p] == a[..p] && (a + d)[p..] == a[p..] + d
    {
    }

    lemma FillsBlock(a: seq<byte>, d: seq<byte>, b: seq<byte>, n: nat)
      requires n == |a| % 64 && n + |d| >= 64 && |b| == 64
      requires b[..n] == a[|a| - n..] && b[n..] == d[..64 - n]
      ensures (a + d)[|a| - n..|a| - n + 64] == b
      ensures (a + d)[..|a| - n] == a[..|a| - n]
    {
    }

    lemma OneMore(f: Compress, all: seq<byte>, p: nat)
      requires p + 64 <= |all| && p % 64 == 0
      ensures (p + 64) % 64 == 0
      ensures Fold(f, all[..p + 64]) == f(Fold(f, all[..p]), all[p..p + 64])
    {
      var t := all[..p + 64];
      assert t[..|t| - 64] == all[..p] && t[|t| - 64..] == all[p..p + 64];
    }

    method ZeroFrom(from: nat, to: nat)
      requires buf.Length == 64 && from <= to <= 64
      modifies buf
      ensures buf[..from] == old(buf[..from])
      ensures forall k :: from <= k < to ==> buf[k] == 0
    {
      for k := from to to
        invariant buf[..from] == old(buf[..from])
        invariant forall j :: from <= j < k ==> buf[j] == 0
      {
        buf[k] := 0;
      }
    }

    lemma FullBlocks(n: nat)
      ensures (n - n % 64) % 64 == 0
    {
    }

    // When the length would not fit: zeros to the end of the block, and one more compression.
    method SpillBlock(ghost full: seq<byte>, ghost tail: seq<byte>)
      requires buf.Length == 64 && 56 < bufLen <= 64 && bufLen == |tail| + 1 && buf[..bufLen] == tail + [0x80]
      requires |full| % 64 == 0 && state == Fold(compress, full)
      modifies this`state, this`bufLen, buf
      ensures bufLen == 0 && |Head(full, tail)| % 64 == 0 && state == Fold(compress, Head(full, tail))
    {
      ZeroFrom(bufLen, 64);
      assert buf[..] == buf[..bufLen] + Fill(64 - bufLen);
      assert buf[..] == tail + [0x80] + Fill(63 - |tail|);
      FoldAppend(compress, full, buf[..]);
      state := compress(state, buf[..]);
      bufLen := 0;
    }

    // `buf[buf_len] = 0x80`, and the spill when fewer than eight bytes are left.
    method MarkEnd(ghost full: seq<byte>, ghost tail: seq<byte>)
      requires Valid() && full == data[..|data| - bufLen] && tail == buf[..bufLen]
      modifies this, buf
      ensures buf.Length == 64 && totalLen == old(totalLen) && |tail| == old(bufLen)
      ensures |Head(full, tail)| % 64 == 0 && state == Fold(compress, Head(full, tail))
      ensures bufLen == |Mid(tail)| <= 56 && buf[..bufLen] == Mid(tail)
    {
      FullBlocks(|data|);
      ghost var n := bufLen;
      buf[bufLen] := 0x80;
      bufLen := bufLen + 1;
      assert buf[..bufLen] == buf[..n] + [0x80];
      if bufLen > 56 {
        SpillBlock(full, tail);
      }
    }

    // What the padding puts before the last block, and at its start.
    static ghost function Head(full: seq<byte>, tail: seq<byte>): seq<byte>
      requires |tail| < 64
    {
      if |tail| >= 56 then full + (tail + [0x80] + Fill(63 - |tail|)) else full
    }

    static ghost function Mid(tail: seq<byte>): seq<byte>
    {
      if |tail| >= 56 then [] else tail + [0x80]
    }

    // Zeros up to the length field, the length, and the last compression.
    method LastBlock(ghost head: seq<byte>, ghost mid: seq<byte>, bitLen: u64)
      requires buf.Length == 64 && bufLen == |mid| <= 56 && buf[..bufLen] == mid
      requires |head| % 64 == 0 && state == Fold(compress, head)
      modifies this`state, buf
      ensures |head + LastBytes(mid, bitLen)| % 64 == 0
      ensures state == Fold(compress, head + LastBytes(mid, bitLen))
    {
      ZeroFrom(bufLen, 56);
      assert buf[..56] == mid + Fill(56 - |mid|);
      CopyIn(56, Be(8, bitLen));
      Halves(buf[..]);
      FoldAppend(compress, head, buf[..]);
      state := compress(state, buf[..]);
    }

    static lemma Halves(s: seq<byte>)
      requires |s| == 64
      ensures s == s[..56] + s[56..64]
    {
    }

    static ghost function LastBytes(mid: seq<byte>, bitLen: u64): (b: seq<byte>)
      requires |mid| <= 56
      ensures |b| == 64
    {
      mid + Fill(56 - |mid|) + Be(8, bitLen)
    }

    method Finalize() returns (out: seq<byte>)
      requires Valid() && 8 * |data| < 0x1_0000_0000_0000_0000
      modifies this, buf
      ensures out == Digest(compress, old(data))
    {
      ghost var full, tail := data[..|data| - bufLen], buf[..bufLen];
      var bitLen: u64 := totalLen * 8;
      FullBlocks(|data|);
      assert data == full + tail;
      PadShape(full, tail, bitLen);
      MarkEnd(full, tail);
      LastBlock(Head(full, tail), Mid(tail), bitLen);
      out := Words(state);
    }

    lemma FoldAppend(f: Compress, a: seq<byte>, b: seq<byte>)
      requires |a| % 64 == 0 && |b| == 64
      ensures |a + b| % 64 == 0 && Fold(f, a + b) == f(Fold(f, a), b)
    {
      assert (a + b)[..|a|] == a && (a + b)[|a|..] == b;
    }

    lemma ZerosNeeded(m: nat, n: nat)
      requires m % 64 == 0 && n < 64
      ensures PadZeros(m + n) == if n < 56 then 55 - n else 119 - n
    {
    }

    // Where the padding falls: in the same block as the tail, or spilling into one more.
    lemma PadShape(full: seq<byte>, tail: seq<byte>, bitLen: u64)
      requires |full| % 64 == 0 && |tail| < 64 && bitLen == 8 * |full + tail|
      ensures Pad(full + tail) == Head(full, tail) + LastBytes(Mid(tail), bitLen)
    {
      var n := |tail|;
      ZerosNeeded(|full|, n);
      assert |full + tail| == |full| + n;
      if n < 56 {
        var z := Fill(55 - n);
        assert Head(full, tail) == full && Mid(tail) == tail + [0x80] && Fill(56 - |Mid(tail)|) == z;
        Near(full, tail, z, Be(8, bitLen));
      } else {
        var z1, z2 := Fill(63 - n), Fill(56);
        assert Fill(119 - n) == z1 + z2;
        assert Head(full, tail) == full + (tail + [0x80] + z1) && Mid(tail) == [] && Fill(56 - |Mid(tail)|) == z2;
        Spill(full, tail, z1, z2, Be(8, bitLen));
      }
    }

    lemma Near(full: seq<byte>, tail: seq<byte>, z: seq<byte>, len: seq<byte>)
      ensures full + tail + [0x80] + z + len == full + (tail + [0x80] + z + len)
    {
    }

    lemma Spill(full: seq<byte>, tail: seq<byte>, z1: seq<byte>, z2: seq<byte>, len: seq<byte>)
      ensures full + tail + [0x80] + (z1 + z2) + len == full + (tail + [0x80] + z1) + ([] + z2 + len)
    {
    }
  }

  // However the data is cut into updates, the digest is that of the whole.
  method HashChunks(f: Compress, chunks: seq<seq<byte>>) returns (out: seq<byte>)
    requires 8 * |Concat(chunks)| < 0x1_0000_0000_0000_0000
    ensures out == Digest(f, Concat(chunks))
  {
    var h := new Hasher(f);
    assert chunks[..0] == [];
    for i := 0 to |chunks|
      invariant h.Valid() && fresh(h) && fresh(h.buf) && h.compress == f
      invariant h.data == Concat(chunks[..i])
    {
      ConcatSnoc(chunks, i);
      PrefixShort(chunks, i + 1);
      h.Update(chunks[i]);
    }
    assert chunks[..|chunks|] == chunks;
    out := h.Finalize();
  }

  lemma ConcatSnoc(chunks: seq<seq<byte>>, i: nat)
    requires i < |chunks|
    ensures Concat(chunks[..i + 1]) == Concat(chunks[..i]) + chunks[i]
  {
    assert chunks[..i + 1][..i] == chunks[..i];
  }

  lemma {:induction false} PrefixShort(chunks: seq<seq<byte>>, i: nat)
    requires i <= |chunks|
    ensures |Concat(chunks[..i])| <= |Concat(chunks)|
    decreases |chunks| - i
  {
    if i < |chunks| {
      PrefixShort(chunks, i + 1);
      ConcatSnoc(chunks, i);
    } else {
      assert chunks[..i] == chunks;
    }
  }

  method HashTwo(f: Compress, a: seq<byte>, b: seq<byte>) returns (out: seq<byte>)
    requires 8 * (|a| + |b|) < 0x1_0000_0000_0000_0000
    ensures out == Digest(f, a + b)
  {
    var h := new Hasher(f);
    h.Update(a);
    assert [] + a == a;
    h.Update(b);
    out := h.Finalize();
  }

  // H(H(password || salt) || challenge).
  method ComputePasswordHash(f: Compress, password: seq<byte>, salt: seq<byte>, challenge: seq<byte>)
    returns (out: seq<byte>)
    requires 8 * (|password| + |salt|) < 0x1_0000_0000_0000_0000 && 8 * (32 + |challenge|) < 0x1_0000_0000_0000_0000
    ensures out == Digest(f, Digest(f, password + salt) + challenge)
  {
    var d1 := HashTwo(f, password, salt);
    out := HashTwo(f, d1, challenge);
  }
}
