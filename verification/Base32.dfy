// Base32 of section 6 of RFC 4648, from src/auth_2fa.rs.

module BitStrings {
  import opened DivMod
  import opened Radix
  import Bits

  type bit = x: int | 0 <= x < 2

  // The n low bits of x, most significant first.
  function BitsOf(n: nat, x: int): (s: seq<bit>)
    ensures |s| == n
  {
    if n == 0 then [] else BitsOf(n - 1, x / 2) + [x % 2]
  }

  lemma {:induction false} SplitBits(n: nat, m: nat, x: int)
    ensures BitsOf(n + m, x) == BitsOf(n, x / Bits.Pow2(m)) + BitsOf(m, x)
    decreases m
  {
    if m > 0 {
      SplitBits(n, m - 1, x / 2);
      DivDiv(x, 2, Bits.Pow2(m - 1));
    }
  }

  // Only the low bits matter.
  lemma {:induction false} LowBits(n: nat, x: int, k: int)
    ensures BitsOf(n, x + k * Bits.Pow2(n)) == BitsOf(n, x)
  {
    if n > 0 {
      Doubled(k, Bits.Pow2(n - 1));
      Shifted(x, k * Bits.Pow2(n - 1));
      LowBits(n - 1, x / 2, k);
    }
  }

  lemma Doubled(k: int, p: int)
    ensures k * (2 * p) == 2 * (k * p)
  {
  }

  lemma Shifted(x: int, y: int)
    ensures (x + 2 * y) / 2 == x / 2 + y && (x + 2 * y) % 2 == x % 2
  {
  }

  lemma ModBits(n: nat, x: int, k: nat)
    requires n <= k
    ensures BitsOf(n, x % Bits.Pow2(k)) == BitsOf(n, x)
  {
    var p, q := Bits.Pow2(k), Bits.Pow2(n);
    Bits.Pow2Add(k - n, n);
    var r := x / p;
    assert x % p == x - p * r;
    assert p * r == (Bits.Pow2(k - n) * r) * q by {
      MulAssoc(Bits.Pow2(k - n), q, r);
      MulAssoc(Bits.Pow2(k - n), r, q);
    }
    LowBits(n, x % p, Bits.Pow2(k - n) * r);
  }

  // Shifting left appends zeros.
  lemma {:induction false} ShiftedBits(n: nat, m: nat, x: int)
    ensures BitsOf(n + m, x * Bits.Pow2(m)) == BitsOf(n, x) + Zeros(m)
    decreases m
  {
    if m > 0 {
      var p := Bits.Pow2(m - 1);
      MulAssoc(x, 2, p);
      assert x * Bits.Pow2(m) == 0 + 2 * (x * p);
      Shifted(0, x * p);
      ShiftedBits(n, m - 1, x);
      assert Zeros(m - 1) + [0] == Zeros(m);
    } else {
      assert x * Bits.Pow2(0) == x;
    }
  }

  // Words of w bits, as one string.
  function Concat(w: nat, words: seq<int>): (s: seq<bit>)
    ensures |s| == w * |words|
  {
    if words == [] then [] else Concat(w, words[..|words| - 1]) + BitsOf(w, words[|words| - 1])
  }

  lemma ConcatSnoc(w: nat, words: seq<int>, x: int)
    ensures Concat(w, words + [x]) == Concat(w, words) + BitsOf(w, x)
  {
    assert (words + [x])[..|words|] == words;
  }

  lemma {:induction false} BitsInjective(n: nat, x: int, y: int)
    requires BitsOf(n, x) == BitsOf(n, y) && 0 <= x < Bits.Pow2(n) && 0 <= y < Bits.Pow2(n)
    ensures x == y
  {
    if n > 0 {
      var a, b := BitsOf(n - 1, x / 2), BitsOf(n - 1, y / 2);
      assert a == (a + [x % 2])[..n - 1] && b == (b + [y % 2])[..n - 1];
      assert (a + [x % 2])[n - 1] == x % 2 && (b + [y % 2])[n - 1] == y % 2;
      BitsInjective(n - 1, x / 2, y / 2);
    }
  }

  lemma {:induction false} ConcatInjective(w: nat, a: seq<int>, b: seq<int>)
    requires w > 0 && Concat(w, a) == Concat(w, b) && |a| == |b|
    requires forall i :: 0 <= i < |a| ==> 0 <= a[i] < Bits.Pow2(w) && 0 <= b[i] < Bits.Pow2(w)
    ensures a == b
  {
    if a != [] {
      var n := |a| - 1;
      var p, q := Concat(w, a[..n]), Concat(w, b[..n]);
      SameParts(p, BitsOf(w, a[n]), q, BitsOf(w, b[n]));
      ConcatInjective(w, a[..n], b[..n]);
      BitsInjective(w, a[n], b[n]);
      assert a == a[..n] + [a[n]] && b == b[..n] + [b[n]];
    }
  }

  // Bits move from one run to the next without changing the whole.
  lemma Appended(a: seq<bit>, b: seq<bit>, all: seq<bit>, v: seq<bit>, b': seq<bit>, all': seq<bit>)
    requires a + b == all && b' == b + v && all' == all + v
    ensures a + b' == all'
  {
  }

  lemma TakenOut(a: seq<bit>, b: seq<bit>, all: seq<bit>, v: seq<bit>, b': seq<bit>, a': seq<bit>)
    requires a + b == all && b == v + b' && a' == a + v
    ensures a' + b' == all
  {
  }

  lemma SameParts(p: seq<bit>, x: seq<bit>, q: seq<bit>, y: seq<bit>)
    requires p + x == q + y && |p| == |q|
    ensures p == q && x == y
  {
    assert p == (p + x)[..|p|] && q == (q + y)[..|q|];
    assert x == (p + x)[|p|..] && y == (q + y)[|q|..];
  }
}

module Base32 {
  import opened Wrappers
  import opened MachineInts
  import opened DivMod
  import opened Radix
  import opened BitStrings
  import Bits

  const ALPHABET: string := "ABCDEFGHIJKLMNOPQRSTUVWXYZ234567"

  function Letter(d: int): char
    requires 0 <= d < 32
  {
    ALPHABET[d]
  }

  function Value(c: char): int
  {
    if 'A' <= c <= 'Z' then c as int - 'A' as int else if '2' <= c <= '7' then c as int - '2' as int + 26 else -1
  }

  lemma LetterValue(d: int)
    requires 0 <= d < 32
    ensures Value(Letter(d)) == d
  {
  }

  // The letters come first, the digits from 2 to 7 behind them; nothing else has a value.
  lemma LetterOrder(d: int, c: char)
    ensures Value(c) == d && d >= 0 <==> 0 <= d < 32 && c as int == (if d < 26 then 0x41 + d else 0x32 + d - 26)
    ensures 0 <= d < 32 ==> Letter(d) as int == (if d < 26 then 0x41 + d else 0x32 + d - 26)
  {
  }

  function Letters(ds: seq<int>): (s: string)
    requires forall i :: 0 <= i < |ds| ==> 0 <= ds[i] < 32
    ensures |s| == |ds|
  {
    seq(|ds|, i requires 0 <= i < |ds| => Letter(ds[i]))
  }

  // The five-bit words of some bytes: their bits in order, zeros filling up the last word.
  ghost predicate Regrouped(data: seq<byte>, ds: seq<int>)
  {
    && (forall i :: 0 <= i < |ds| ==> 0 <= ds[i] < 32)
    && 5 * |ds| < 8 * |data| + 5
    && 8 * |data| <= 5 * |ds|
    && Concat(5, ds) == Concat(8, data) + Zeros(5 * |ds| - 8 * |data|)
  }

  lemma {:induction false} BitAt(n: nat, x: int, t: nat)
    requires t < n
    ensures BitsOf(n, x)[t] == x / Bits.Pow2(n - 1 - t) % 2
  {
    if t < n - 1 {
      BitAt(n - 1, x / 2, t);
      DivDiv(x, 2, Bits.Pow2(n - 2 - t));
    }
  }

  lemma {:induction false} ConcatAt(w: nat, words: seq<int>, j: nat, t: nat)
    requires j < |words| && t < w
    ensures w * j + t < |Concat(w, words)| && Concat(w, words)[w * j + t] == BitsOf(w, words[j])[t]
  {
    var n := |words| - 1;
    if j < n { ConcatAt(w, words[..n], j, t); }
  }

  // Bit t of word j is bit 5j + t of the data, counted from the most significant of the first
  // byte, and zero behind its end.
  lemma WordBit(data: seq<byte>, ds: seq<int>, j: nat, t: nat, i: nat, r: nat)
    requires Regrouped(data, ds) && j < |ds| && t < 5 && 5 * j + t == 8 * i + r && r < 8
    ensures ds[j] / Bits.Pow2(4 - t) % 2 == if i < |data| then data[i] / Bits.Pow2(7 - r) % 2 else 0
  {
    BitOfBoth(data, ds, 5 * j + t);
    WordAt(5, ds, j, t, Bits.Pow2(4 - t));
    if i < |data| { WordAt(8, data, i, r, Bits.Pow2(7 - r)); }
  }

  lemma BitOfBoth(data: seq<byte>, ds: seq<int>, n: nat)
    requires Regrouped(data, ds) && n < 5 * |ds|
    ensures Concat(5, ds)[n] == if n < 8 * |data| then Concat(8, data)[n] else 0
  {
  }

  lemma WordAt(w: nat, words: seq<int>, j: nat, t: nat, p: int)
    requires j < |words| && t < w && p == Bits.Pow2(w - 1 - t)
    ensures w * j + t < |Concat(w, words)| && Concat(w, words)[w * j + t] == words[j] / p % 2
  {
    ConcatAt(w, words, j, t);
    BitAt(w, words[j], t);
  }

  // And back: as many whole bytes as the words hold.
  ghost predicate Gathered(ds: seq<int>, data: seq<byte>)
  {
    8 * |data| <= 5 * |ds| < 8 * |data| + 8 && Concat(8, data) == Concat(5, ds)[..8 * |data|]
  }

  lemma GatheredAgain(data: seq<byte>, ds: seq<int>, back: seq<byte>)
    requires Regrouped(data, ds) && Gathered(ds, back)
    ensures back == data
  {
    assert |back| == |data|;
    assert Concat(8, back) == Concat(8, data);
    assert Bits.Pow2(8) == 0x100;
    ConcatInjective(8, back, data);
  }

  lemma Powers()
    ensures Bits.Pow2(5) == 32 && Bits.Pow2(8) == 0x100
  {
    assert Bits.Pow2(4) == 16;
    assert Bits.Pow2(8) == 0x100;
  }

  lemma WordPower()
    ensures Bits.Pow2(64) == TWO64
  {
    assert Bits.Pow2(8) == 0x100;
    Bits.Pow2Add(8, 8);
    Bits.Pow2Add(16, 16);
    Bits.Pow2Add(32, 32);
  }

  // (buffer << k) | v on a 64-bit word whose high bits fall off: the low bits are the old ones
  // followed by v's.
  method ShiftIn(buffer: u64, k: nat, v: int, ghost bits: nat) returns (b: u64)
    requires 0 < k <= 8 && 0 <= v < Bits.Pow2(k) && bits + k <= 64
    ensures BitsOf(bits + k, b) == BitsOf(bits, buffer) + BitsOf(k, v)
  {
    OrIsSum(buffer, k, v);
    ShiftedIn(buffer, k, v, bits);
    b := Bits.Or((buffer as int) * Bits.Pow2(k) % TWO64, v);
  }

  lemma OrIsSum(buffer: u64, k: nat, v: int)
    requires 0 < k <= 8 && 0 <= v < Bits.Pow2(k)
    ensures Bits.Or((buffer as int) * Bits.Pow2(k) % TWO64, v) == ((buffer as int) * Bits.Pow2(k) + v) % TWO64
  {
    var p := Bits.Pow2(k);
    var q := TWO64 / p;
    TopFits(k);
    ShiftDrops(buffer, p, q);
    Bits.OrFields(v, buffer % q, k);
    Bits.OrComm(v, buffer % q * p);
    ShiftedMod(buffer, p, q, v);
  }

  lemma ShiftedIn(buffer: u64, k: nat, v: int, bits: nat)
    requires 0 < k <= 8 && 0 <= v < Bits.Pow2(k) && bits + k <= 64
    ensures BitsOf(bits + k, ((buffer as int) * Bits.Pow2(k) + v) % TWO64) == BitsOf(bits, buffer) + BitsOf(k, v)
  {
    var p := Bits.Pow2(k);
    var x := (buffer as int) * p + v;
    WordPower();
    ModBits(bits + k, x, 64);
    SplitBits(bits, k, x);
    QuotRem(x, buffer, v, p);
    SplitLow(k, buffer, v);
  }

  lemma TopFits(k: nat)
    requires 0 < k <= 8
    ensures TWO64 / Bits.Pow2(k) * Bits.Pow2(k) == TWO64 && TWO64 / Bits.Pow2(k) > 0
  {
    WordPower();
    Bits.Pow2Add(64 - k, k);
    QuotRem(TWO64, Bits.Pow2(64 - k), 0, Bits.Pow2(k));
  }

  lemma ShiftDrops(x: int, p: int, q: int)
    requires p > 0 && q > 0 && q * p == TWO64
    ensures x * p % TWO64 == x % q * p
  {
    var d, r := x / q, x % q;
    assert x == q * d + r;
    assert x * p == (q * d) * p + r * p by { Distrib(p, q * d, r); }
    assert (q * d) * p == d * TWO64 by { MulAssoc(d, q, p); }
    MulLe(0, r, p);
    MulLe(r, q - 1, p);
    Distrib(p, q, 1);
    QuotRem(x * p, d, r * p, TWO64);
  }

  lemma ShiftedMod(x: int, p: int, q: int, v: int)
    requires p > 0 && q > 0 && q * p == TWO64 && 0 <= v < p
    ensures (x * p + v) % TWO64 == x % q * p + v
  {
    ShiftDrops(x, p, q);
    var r := x % q;
    MulLe(0, r, p);
    MulLe(r, q - 1, p);
    Distrib(p, q, 1);
    QuotRem(x * p + v, x * p / TWO64, r * p + v, TWO64);
  }

  lemma SplitLow(k: nat, x: int, v: int)
    requires 0 <= v < Bits.Pow2(k)
    ensures BitsOf(k, x * Bits.Pow2(k) + v) == BitsOf(k, v)
  {
    LowBits(k, v, x);
  }

  // (buffer >> bits) & 0x1F
  method TakeFive(buffer: u64, bits: nat) returns (d: int)
    ensures 0 <= d < 32 && BitsOf(bits + 5, buffer) == BitsOf(5, d) + BitsOf(bits, buffer)
  {
    d := Bits.And(Bits.Shr(buffer, bits), 0x1F);
    Powers();
    Bits.AndMaskAt(Bits.Shr(buffer, bits), 5, 32);
    ModBits(5, Bits.Shr(buffer, bits), 5);
    SplitBits(5, bits, buffer);
    assert 5 + bits == bits + 5;
  }

  // Five bits at a time while there are five.
  method Drain(buffer: u64, bits0: nat, ds0: seq<int>) returns (bits: nat, ds: seq<int>)
    requires forall i :: 0 <= i < |ds0| ==> 0 <= ds0[i] < 32
    ensures bits < 5 && (forall i :: 0 <= i < |ds| ==> 0 <= ds[i] < 32)
    ensures Concat(5, ds) + BitsOf(bits, buffer) == Concat(5, ds0) + BitsOf(bits0, buffer)
  {
    bits, ds := bits0, ds0;
    while bits >= 5
      invariant forall i :: 0 <= i < |ds| ==> 0 <= ds[i] < 32
      invariant Concat(5, ds) + BitsOf(bits, buffer) == Concat(5, ds0) + BitsOf(bits0, buffer)
    {
      bits := bits - 5;
      var d := TakeFive(buffer, bits);
      ConcatSnoc(5, ds, d);
      TakenOut(Concat(5, ds), BitsOf(bits + 5, buffer), Concat(5, ds0) + BitsOf(bits0, buffer),
                BitsOf(5, d), BitsOf(bits, buffer), Concat(5, ds + [d]));
      ds := ds + [d];
    }
  }

  ghost predicate InWords(ds: seq<int>) { forall i :: 0 <= i < |ds| ==> 0 <= ds[i] < 32 }

  // The words so far and the bits left over are the bits of done.
  ghost predicate Grouped(ds: seq<int>, bits: nat, buffer: u64, done: seq<byte>)
  {
    InWords(ds) && Concat(5, ds) + BitsOf(bits, buffer) == Concat(8, done)
  }

  method EncodeByte(buffer0: u64, bits0: nat, ds0: seq<int>, x: byte, ghost done: seq<byte>)
    returns (buffer: u64, bits: nat, ds: seq<int>)
    requires bits0 < 5 && Grouped(ds0, bits0, buffer0, done)
    ensures bits < 5 && Grouped(ds, bits, buffer, done + [x])
  {
    Powers();
    buffer := ShiftIn(buffer0, 8, x, bits0);
    ConcatSnoc(8, done, x);
    Appended(Concat(5, ds0), BitsOf(bits0, buffer0), Concat(8, done), BitsOf(8, x), BitsOf(bits0 + 8, buffer),
             Concat(8, done + [x]));
    bits, ds := Drain(buffer, bits0 + 8, ds0);
  }

  // The words of the data, before padding characters.
  method EncodeWords(data: seq<byte>) returns (ds: seq<int>)
    ensures Regrouped(data, ds)
  {
    var buffer: u64 := 0;
    var bits: nat := 0;
    ds := [];
    assert data[..0] == [];
    for i := 0 to |data|
      invariant bits < 5 && Grouped(ds, bits, buffer, data[..i])
    {
      assert data[..i + 1] == data[..i] + [data[i]];
      buffer, bits, ds := EncodeByte(buffer, bits, ds, data[i], data[..i]);
    }
    assert data[..|data|] == data;
    ds := Flush(buffer, bits, ds, data);
  }

  // buffer <<= 5 - bits, then its low five bits.
  method LastWord(buffer: u64, bits: nat) returns (d: int)
    requires 0 < bits < 5
    ensures 0 <= d < 32 && BitsOf(5, d) == BitsOf(bits, buffer) + Zeros(5 - bits)
  {
    Powers();
    WordPower();
    var x := (buffer as int) * Bits.Pow2(5 - bits);
    var b := x % TWO64;
    d := Bits.And(b, 0x1F);
    Bits.AndMaskAt(b, 5, 32);
    ModBits(5, b, 5);
    ModBits(5, x, 64);
    ShiftedBits(bits, 5 - bits, buffer);
  }

  // The last word, filled with zeros.
  method Flush(buffer: u64, bits: nat, ds0: seq<int>, ghost data: seq<byte>) returns (ds: seq<int>)
    requires bits < 5 && Grouped(ds0, bits, buffer, data)
    ensures Regrouped(data, ds)
  {
    ds := ds0;
    assert 5 * |ds0| + bits == 8 * |data|;
    if bits > 0 {
      var d := LastWord(buffer, bits);
      FilledUp(5, ds0, d, BitsOf(bits, buffer), Concat(8, data), 5 - bits);
      FilledBy(data, ds0 + [d], 5 - bits);
      ds := ds0 + [d];
    } else {
      NoneLeft(Concat(5, ds0), BitsOf(bits, buffer), Concat(8, data));
    }
  }

  lemma FilledUp(w: nat, ds: seq<int>, d: int, b: seq<bit>, all: seq<bit>, n: nat)
    requires Concat(w, ds) + b == all && BitsOf(w, d) == b + Zeros(n)
    ensures Concat(w, ds + [d]) == all + Zeros(n)
  {
    ConcatSnoc(w, ds, d);
    Assoc(Concat(w, ds), b, Zeros(n));
  }

  lemma FilledBy(data: seq<byte>, ds: seq<int>, n: nat)
    requires InWords(ds) && n < 5 && Concat(5, ds) == Concat(8, data) + Zeros(n)
    ensures Regrouped(data, ds)
  {
    assert 5 * |ds| == |Concat(5, ds)| == 8 * |data| + n;
  }

  lemma NoneLeft(a: seq<bit>, b: seq<bit>, c: seq<bit>)
    requires a + b == c && b == []
    ensures a == c + Zeros(0)
  {
  }

  function Equals(n: nat): (s: string) ensures |s| == n { seq(n, _ => '=') }

  // The text of some words.
  ghost predicate TextOf(ds: seq<int>, s: string)
    requires forall i :: 0 <= i < |ds| ==> 0 <= ds[i] < 32
  {
    |s| % 8 == 0 && |ds| <= |s| < |ds| + 8 && s == Letters(ds) + Equals(|s| - |ds|)
  }

  // The text is that of the data's words.
  ghost predicate Encodes(data: seq<byte>, s: string) { exists ds :: Regrouped(data, ds) && TextOf(ds, s) }

  method Encode(data: seq<byte>) returns (s: string)
    ensures Encodes(data, s)
  {
    var words := EncodeWords(data);
    s := "";
    for i := 0 to |words|
      invariant s == Letters(words[..i])
    {
      s := s + [Letter(words[i])];
    }
    assert words[..|words|] == words;
    assert s + Equals(0) == s;
    while |s| % 8 != 0
      invariant |words| <= |s| < |words| + 8 && s == Letters(words) + Equals(|s| - |words|)
      invariant forall n :: |words| <= n < |s| ==> n % 8 != 0
      decreases |words| + 8 - |s|
    {
      assert |s| + 1 < |words| + 8 by { EightInARow(|words|, |s|); }
      s := s + "=";
    }
    assert TextOf(words, s);
  }

  lemma EightInARow(a: nat, n: nat)
    requires a <= n < a + 8 && n % 8 != 0 && forall m :: a <= m < n ==> m % 8 != 0
    ensures n + 1 < a + 8
  {
    var m := 8 * ((a + 7) / 8);
    assert m % 8 == 0;
    assert a <= m < a + 8;
  }

  // ----- decoding -----

  function TrimEquals(s: string): string
  {
    if s != "" && s[|s| - 1] == '=' then TrimEquals(s[..|s| - 1]) else s
  }

  function Words(s: string): seq<int> { seq(|s|, i requires 0 <= i < |s| => Value(s[i])) }

  predicate Encodable(s: string) { forall i :: 0 <= i < |s| ==> Value(s[i]) >= 0 }

  // The bytes so far and the bits left over are the bits of the words read.
  ghost predicate Collected(result: seq<byte>, bits: nat, buffer: u64, words: seq<int>)
  {
    Concat(8, result) + BitsOf(bits, buffer) == Concat(5, words)
  }

  method DecodeWord(buffer0: u64, bits0: nat, result0: seq<byte>, val: int, ghost words: seq<int>)
    returns (buffer: u64, bits: nat, result: seq<byte>)
    requires bits0 < 8 && 0 <= val < 32 && Collected(result0, bits0, buffer0, words)
    ensures bits < 8 && Collected(result, bits, buffer, words + [val])
  {
    Powers();
    buffer := ShiftIn(buffer0, 5, val, bits0);
    ConcatSnoc(5, words, val);
    Appended(Concat(8, result0), BitsOf(bits0, buffer0), Concat(5, words), BitsOf(5, val), BitsOf(bits0 + 5, buffer),
             Concat(5, words + [val]));
    bits, result := TakeWhole(buffer, bits0 + 5, result0, words + [val]);
  }

  // A byte, if there is a whole one.
  method TakeWhole(buffer: u64, bits0: nat, result0: seq<byte>, ghost words: seq<int>)
    returns (bits: nat, result: seq<byte>)
    requires bits0 < 16 && Collected(result0, bits0, buffer, words)
    ensures bits < 8 && Collected(result, bits, buffer, words)
  {
    bits, result := bits0, result0;
    if bits >= 8 {
      bits := bits - 8;
      var b := TakeByte(buffer, bits);
      ConcatSnoc(8, result, b);
      TakenOut(Concat(8, result), BitsOf(bits + 8, buffer), Concat(5, words), BitsOf(8, b), BitsOf(bits, buffer),
               Concat(8, result + [b]));
      result := result + [b];
    }
  }

  lemma WordsSnoc(s: string, i: nat)
    requires i < |s|
    ensures Words(s[..i + 1]) == Words(s[..i]) + [Value(s[i])]
    ensures Encodable(s[..i + 1]) <==> Encodable(s[..i]) && Value(s[i]) >= 0
    ensures Encodable(s) ==> Encodable(s[..i])
    ensures Value(s[i]) < 32
  {
  }

  // The whole bytes of a run of letters, or nothing at a character outside the alphabet.
  method DecodeWords(s: string) returns (r: Option<seq<byte>>)
    ensures r.Some? <==> Encodable(s)
    ensures r.Some? ==> Gathered(Words(s), r.value)
  {
    var buffer: u64 := 0;
    var bits: nat := 0;
    var result: seq<byte> := [];
    ghost var words := [];
    for i := 0 to |s|
      invariant bits < 8 && Encodable(s[..i]) && words == Words(s[..i]) && Collected(result, bits, buffer, words)
    {
      var val := Value(s[i]);
      if val < 0 { return None; }
      WordsSnoc(s, i);
      buffer, bits, result := DecodeWord(buffer, bits, result, val, words);
      words := words + [val];
    }
    assert s[..|s|] == s;
    WholeBytes(Concat(8, result), BitsOf(bits, buffer), Concat(5, Words(s)));
    r := Some(result);
  }

  lemma WholeBytes(a: seq<bit>, b: seq<bit>, c: seq<bit>)
    requires a + b == c
    ensures |a| <= |c| && a == c[..|a|]
  {
  }

  // (buffer >> bits) as u8
  method TakeByte(buffer: u64, bits: nat) returns (b: byte)
    ensures BitsOf(bits + 8, buffer) == BitsOf(8, b) + BitsOf(bits, buffer)
  {
    Powers();
    b := Bits.Shr(buffer, bits) % 0x100;
    ModBits(8, Bits.Shr(buffer, bits), 8);
    SplitBits(8, bits, buffer);
    assert 8 + bits == bits + 8;
  }

  // upper is str::to_uppercase, which leaves the alphabet as it is.
  method Decode(upper: string -> string, s: string) returns (r: Option<seq<byte>>)
    ensures Decodes(upper, s, r)
  {
    var t := s;
    while t != "" && t[|t| - 1] == '='
      invariant TrimEquals(t) == TrimEquals(s)
      decreases |t|
    {
      t := t[..|t| - 1];
    }
    r := DecodeWords(upper(t));
  }

  ghost predicate KeepsCapitals(upper: string -> string)
  {
    forall s :: Encodable(s) ==> upper(s) == s
  }

  lemma {:induction false} TrimsPadding(s: string, n: nat)
    requires Encodable(s)
    ensures TrimEquals(s + Equals(n)) == s
  {
    if n > 0 {
      assert (s + Equals(n))[..|s| + n - 1] == s + Equals(n - 1);
      TrimsPadding(s, n - 1);
    } else {
      assert s + Equals(0) == s;
    }
  }

  // What a decoder may answer.
  ghost predicate Decodes(upper: string -> string, s: string, r: Option<seq<byte>>)
  {
    && (r.Some? <==> Encodable(upper(TrimEquals(s))))
    && (r.Some? ==> Gathered(Words(upper(TrimEquals(s))), r.value))
  }

  lemma WordsComeBack(upper: string -> string, data: seq<byte>, ds: seq<int>, s: string, r: Option<seq<byte>>)
    requires KeepsCapitals(upper) && Regrouped(data, ds) && TextOf(ds, s) && Decodes(upper, s, r)
    ensures r == Some(data)
  {
    LettersBack(ds);
    TrimsPadding(Letters(ds), |s| - |ds|);
    GatheredAgain(data, ds, r.value);
  }

  lemma LettersBack(ds: seq<int>)
    requires InWords(ds)
    ensures Encodable(Letters(ds)) && Words(Letters(ds)) == ds
  {
    forall i | 0 <= i < |ds| ensures Value(Letters(ds)[i]) == ds[i] { LetterValue(ds[i]); }
  }

  // Whatever decodes an encoding gives the bytes back, for every byte string.
  lemma Base32RoundTrip(upper: string -> string, data: seq<byte>, s: string, r: Option<seq<byte>>)
    requires KeepsCapitals(upper) && Encodes(data, s) && Decodes(upper, s, r)
    ensures r == Some(data)
  {
    var ds :| Regrouped(data, ds) && TextOf(ds, s);
    WordsComeBack(upper, data, ds, s, r);
  }
}
