// Length-prefixed frames and the keyed channel of src/network.rs, and client.rs peek_first_frame.

module Frames {
  import opened MachineInts
  import opened DivMod
  import opened Radix
  import opened ByteStrings
  import Bits

  datatype Error = UnexpectedEof | FrameTooLarge | DecryptionError
  datatype Result<+T> = Ok(value: T) | Err(error: Error)

  const LONGEST: int := 0x3FFF_FFFF

  // The little-endian length header; a payload too long for four bytes gets none.
  function Header(n: nat): (h: seq<byte>)
    ensures |h| <= 4
  {
    if n <= 0x3F then [4 * n]
    else if n <= 0x3FFF then [(4 * n + 1) % 0x100, (4 * n + 1) / 0x100 % 0x100]
    else if n <= 0x3F_FFFF then [(4 * n + 2) % 0x100, (4 * n + 2) / 0x100 % 0x100, (4 * n + 2) / 0x1_0000 % 0x100]
    else if n <= LONGEST then
      [(4 * n + 3) % 0x100, (4 * n + 3) / 0x100 % 0x100,
       (4 * n + 3) / 0x1_0000 % 0x100, (4 * n + 3) / 0x100_0000 % 0x100]
    else []
  }

  function Frame(data: seq<byte>): seq<byte> { Header(|data|) + data }

  lemma TagBits(n: nat, t: int)
    requires 0 <= t < 4
    ensures Bits.Or(4 * n, t) == 4 * n + t
  {
    assert Bits.Pow2(2) == 4;
    Bits.OrFields(t, n, 2);
    Bits.OrComm(t, n * 4);
  }

  method EncodeFrame(data: seq<byte>, buf0: seq<byte>) returns (buf: seq<byte>)
    ensures buf == buf0 + Frame(data)
  {
    var n := |data|;
    buf := buf0;
    if n <= 0x3F {
      buf := buf + [4 * n];
    } else if n <= 0x3FFF {
      TagBits(n, 1);
      var v: u16 := Bits.Or(4 * n, 1);
      buf := buf + [v % 0x100];
      buf := buf + [(v as int) / 0x100 % 0x100];
    } else if n <= 0x3F_FFFF {
      TagBits(n, 2);
      var v: u32 := Bits.Or(4 * n, 2);
      buf := buf + [v % 0x100];
      buf := buf + [(v as int) / 0x100 % 0x100];
      buf := buf + [(v as int) / 0x1_0000 % 0x100];
    } else if n <= LONGEST {
      TagBits(n, 3);
      var v: u32 := Bits.Or(4 * n, 3);
      buf := buf + [v % 0x100];
      buf := buf + [(v as int) / 0x100 % 0x100];
      buf := buf + [(v as int) / 0x1_0000 % 0x100];
      buf := buf + [(v as int) / 0x100_0000 % 0x100];
    }
    buf := buf + data;
  }

  // ----- reading -----

  function HeadLen(first: byte): (k: nat) ensures 1 <= k <= 4 { first % 4 + 1 }

  function Number(h: seq<byte>): (n: nat)
    ensures n < Pow(0x100, |h|)
  {
    ValRange(0x100, h);
    Val(0x100, h)
  }

  // One frame off the front of a byte stream, and what is left after it.
  function ReadFrame(input: seq<byte>, maxLen: nat): (Result<seq<byte>>, seq<byte>)
  {
    if input == [] || |input| < HeadLen(input[0]) then (Err(UnexpectedEof), [])
    else
      var k := HeadLen(input[0]);
      var n := Number(input[..k]) / 4;
      if n > maxLen then (Err(FrameTooLarge), input[k..])
      else if |input| < k + n then (Err(UnexpectedEof), [])
      else (Ok(input[k..k + n]), input[k + n..])
  }

  // The header announces its own length and the payload's.
  lemma HeaderDecodes(n: nat)
    requires n <= LONGEST
    ensures Header(n) != [] && HeadLen(Header(n)[0]) == |Header(n)| && Number(Header(n)) / 4 == n
  {
    if n <= 0x3F { Header1(n); }
    else if n <= 0x3FFF { Header2(n); }
    else if n <= 0x3F_FFFF { Header3(n); }
    else { Header4(n); }
  }

  lemma Header1(n: nat)
    requires n <= 0x3F
    ensures HeadLen(Header(n)[0]) == 1 && Number(Header(n)) == 4 * n
  {
    assert Header(n)[1..] == [];
  }

  lemma Header2(n: nat)
    requires 0x3F < n <= 0x3FFF
    ensures HeadLen(Header(n)[0]) == 2 && Number(Header(n)) == 4 * n + 1
  {
    Val2(Header(n));
    LowBits(n, 1);
    Digits2(4 * n + 1);
  }

  lemma Header3(n: nat)
    requires 0x3FFF < n <= 0x3F_FFFF
    ensures HeadLen(Header(n)[0]) == 3 && Number(Header(n)) == 4 * n + 2
  {
    Val3(Header(n));
    LowBits(n, 2);
    Digits3(4 * n + 2);
  }

  lemma Header4(n: nat)
    requires 0x3F_FFFF < n <= LONGEST
    ensures HeadLen(Header(n)[0]) == 4 && Number(Header(n)) == 4 * n + 3
  {
    Val4(Header(n));
    LowBits(n, 3);
    Digits4(4 * n + 3);
  }

  lemma LowBits(n: nat, t: int)
    requires 0 <= t < 4
    ensures (4 * n + t) % 0x100 % 4 == t
  {
  }

  lemma Digits2(v: nat)
    requires v < 0x1_0000
    ensures v == v % 0x100 + 0x100 * (v / 0x100 % 0x100)
  {
  }

  lemma Digits3(v: nat)
    requires v < 0x100_0000
    ensures v == v % 0x100 + 0x100 * (v / 0x100 % 0x100) + 0x1_0000 * (v / 0x1_0000 % 0x100)
  {
    DivDiv(v, 0x100, 0x100);
  }

  lemma Digits4(v: nat)
    requires v < 0x1_0000_0000
    ensures v == v % 0x100 + 0x100 * (v / 0x100 % 0x100)
                 + 0x1_0000 * (v / 0x1_0000 % 0x100) + 0x100_0000 * (v / 0x100_0000 % 0x100)
  {
    DivDiv(v, 0x100, 0x100);
    DivDiv(v, 0x1_0000, 0x100);
  }

  lemma NumberBelow(h: seq<byte>)
    requires |h| <= 4
    ensures Number(h) / 4 <= LONGEST
  {
    assert Pow(0x100, 0) == 1 && Pow(0x100, 1) == 0x100 && Pow(0x100, 2) == 0x1_0000;
    PowAdd(0x100, 1, 2);
    PowAdd(0x100, 2, 2);
  }

  // A frame is read back whole, leaving the rest untouched, exactly when its payload fits
  // both the four-byte header and the reader's limit.
  lemma FrameRoundTrip(data: seq<byte>, rest: seq<byte>, maxLen: nat)
    ensures ReadFrame(Frame(data) + rest, maxLen) == (Ok(data), rest) <==> |data| <= LONGEST && |data| <= maxLen
  {
    var h, input := Header(|data|), Frame(data) + rest;
    if |data| <= LONGEST {
      HeaderDecodes(|data|);
      assert input[0] == h[0] && input[..|h|] == h;
      assert input[|h|..] == data + rest;
      assert input[|h|..|h| + |data|] == data;
      assert input[|h| + |data|..] == rest;
    } else if input != [] && |input| >= HeadLen(input[0]) {
      NumberBelow(input[..HeadLen(input[0])]);
    }
  }

  // ----- peeking -----

  datatype Peek = Closed | TooLarge | Found(bytes: seq<byte>) | Wait

  // One look at the bytes buffered so far, at most 4096 of them.
  function PeekAt(got: seq<byte>): Peek
  {
    if got == [] then Closed
    else
      var k := HeadLen(got[0]);
      if |got| < k then Wait
      else
        var n := Number(got[..k]) / 4;
        if k + n > 4096 then TooLarge
        else if |got| >= k + n then Found(got[k..k + n])
        else Wait
  }

  // What peeking returns is what reading will return, whatever arrives later.
  lemma PeekAgrees(got: seq<byte>, later: seq<byte>, maxLen: nat)
    requires maxLen >= 4096 && PeekAt(got).Found?
    ensures ReadFrame(got + later, maxLen).0 == Ok(PeekAt(got).bytes)
  {
    var k := HeadLen(got[0]);
    assert (got + later)[..k] == got[..k];
    var n := Number(got[..k]) / 4;
    assert (got + later)[k..k + n] == got[k..k + n];
  }

  // Conversely a frame of at most 4096 bytes is found as soon as it is buffered whole.
  lemma PeekFinds(data: seq<byte>, extra: seq<byte>)
    requires |data| <= LONGEST
    ensures PeekAt(Frame(data) + extra) == if |Frame(data)| <= 4096 then Found(data) else TooLarge
  {
    HeaderDecodes(|data|);
    var h, got := Header(|data|), Frame(data) + extra;
    assert got[0] == h[0] && got[..|h|] == h;
    assert got[|h|..|h| + |data|] == data;
  }

  // The polling loop over successive looks; running out of looks is the deadline.
  method PeekFirstFrame(looks: seq<seq<byte>>) returns (r: Peek)
    requires forall i :: 0 <= i < |looks| ==> |looks[i]| <= 4096
    ensures r == Wait <==> forall i :: 0 <= i < |looks| ==> PeekAt(looks[i]) == Wait
    ensures r != Wait ==> exists i :: 0 <= i < |looks| && PeekAt(looks[i]) == r
                                      && forall j :: 0 <= j < i ==> PeekAt(looks[j]) == Wait
  {
    for i := 0 to |looks|
      invariant forall j :: 0 <= j < i ==> PeekAt(looks[j]) == Wait
    {
      var buf := looks[i];
      if |buf| == 0 {
        return Closed;
      }
      var headLen := HeadLen(buf[0]);
      if |buf| >= headLen {
        var n := 0;
        n := HeadNumber(buf[..headLen]);
        n := n / 4;
        if headLen + n > 4096 {
          return TooLarge;
        }
        if |buf| >= headLen + n {
          return Found(buf[headLen..headLen + n]);
        }
      }
    }
    r := Wait;
  }

  // `n |= (b as usize) << (8 * i)` over the header bytes.
  method HeadNumber(h: seq<byte>) returns (n: nat)
    requires |h| <= 4
    ensures n == Number(h)
  {
    n := 0;
    assert h[..0] == [];
    for i := 0 to |h|
      invariant n == Number(h[..i])
    {
      assert h[..i + 1] == h[..i] + [h[i]];
      ValSnoc(0x100, h[..i], h[i]);
      BytePow(i);
      Bits.OrFields(n, h[i], 8 * i);
      n := Bits.Or(n, (h[i] as int) * Bits.Pow2(8 * i));
    }
    assert h[..|h|] == h;
  }
}
