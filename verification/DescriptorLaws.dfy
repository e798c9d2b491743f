// Where a FILEGROUPDESCRIPTORW of 592-byte records keeps what.

module DescriptorLaws {
  import opened MachineInts
  import opened Radix
  import opened ClipSpec
  import opened DescriptorSpec

  lemma {:induction false} NameUnit(name: Name, j: nat)
    requires j < |name|
    ensures NameBytes(name)[2 * j] == (name[j] as int) % 0x100
    ensures NameBytes(name)[2 * j + 1] == (name[j] as int) / 0x100
  {
    if j > 0 {
      NameUnit(name[1..], j - 1);
    } else {
      UnitBytes(name[0]);
    }
  }

  lemma UnitBytes(u: u16)
    ensures Le(2, u) == [(u as int) % 0x100, (u as int) / 0x100]
  {
    LeUnit(u);
    Pair(Le(2, u)[0], Le(2, u)[1], u);
  }

  lemma Pair(lo: byte, hi: byte, u: int)
    requires u == (lo as int) + 0x100 * (hi as int)
    ensures u % 0x100 == lo && u / 0x100 == hi
  {
  }

  lemma ZerosAre(n: nat)
    ensures forall k :: 0 <= k < n ==> Zeros(n)[k] == 0
  {
  }

  // The eight parts of a record and where they lie.
  ghost predicate Laid(r: seq<byte>, flags: seq<byte>, attrs: seq<byte>, high: seq<byte>, low: seq<byte>,
                       name: seq<byte>)
  {
    && |r| == 592 && |flags| == |attrs| == |high| == |low| == 4 && |name| <= 518
    && r[0..4] == flags && r[36..40] == attrs && r[64..68] == high && r[68..72] == low && r[72..72 + |name|] == name
    && forall k :: (4 <= k < 36 || 40 <= k < 64 || 72 + |name| <= k < 592) ==> r[k] == 0
  }

  lemma PartsLaid(a: seq<byte>, z: seq<byte>, b: seq<byte>, y: seq<byte>, c: seq<byte>, d: seq<byte>, n: seq<byte>,
                  x: seq<byte>)
    requires |a| == |b| == |c| == |d| == 4 && |z| == 32 && |y| == 24 && |n| <= 518 && |n| + |x| == 520
    requires (forall k :: 0 <= k < |z| ==> z[k] == 0) && (forall k :: 0 <= k < |y| ==> y[k] == 0)
    requires forall k :: 0 <= k < |x| ==> x[k] == 0
    ensures Laid(a + z + b + y + c + d + n + x, a, b, c, d, n)
  {
  }

  lemma RecordLaid(w: Encoder, f: ClipFile)
    requires forall v :: |w(v)| == 4
    ensures Laid(Record(w, f), w(0x4044), w(if f.isDir then 0x10 else 0x80), w(f.size / TWO32), w(f.size),
                 NameBytes(Cut(f.name)))
  {
    var n := 520 - 2 * |Cut(f.name)|;
    ZerosAre(32);
    ZerosAre(24);
    ZerosAre(n);
    PartsLaid(w(0x4044), Zeros(32), w(Attributes(f)), Zeros(24), w(f.size / TWO32), w(f.size), NameBytes(Cut(f.name)),
              Zeros(n));
  }

  // Encoders of 32-bit words.
  ghost predicate Encodes(w: Encoder)
  {
    (forall x :: |w(x)| == 4) && forall x :: x >= 0 ==> Val(0x100, w(x)) == x % TWO32
  }

  lemma NumbersLaid(w: Encoder, f: ClipFile, r: seq<byte>, name: seq<byte>)
    requires Encodes(w)
    requires Laid(r, w(0x4044), w(if f.isDir then 0x10 else 0x80), w(f.size / TWO32), w(f.size), name)
    ensures Val(0x100, r[0..4]) == 0x4044 && Val(0x100, r[36..40]) == (if f.isDir then 0x10 else 0x80)
    ensures Val(0x100, r[64..68]) == f.size / TWO32 && Val(0x100, r[68..72]) == f.size % TWO32
  {
    HighWord(f.size);
  }

  lemma HighWord(x: u64)
    ensures x / TWO32 % TWO32 == x / TWO32
  {
  }

  lemma PrintedLaid(f: ClipFile)
    ensures Encodes(Words4())
    ensures Laid(RecordPrinter()(f), Words4()(0x4044), Words4()(if f.isDir then 0x10 else 0x80),
                 Words4()(f.size / TWO32), Words4()(f.size), NameBytes(Cut(f.name)))
  {
    forall x | x >= 0 ensures Val(0x100, Words4()(x)) == x % TWO32 { LeWord(x); }
    RecordLaid(Words4(), f);
  }

  // Flags at 0, attributes at 36, and the size at 64 and 68, its higher word first; all of them
  // little-endian, and zero in between.
  lemma RecordNumbers(f: ClipFile)
    ensures var r := RecordPrinter()(f);
            && |r| == 592 && Val(0x100, r[0..4]) == 0x4044 && Val(0x100, r[36..40]) == (if f.isDir then 0x10 else 0x80)
            && Val(0x100, r[64..68]) == f.size / TWO32 && Val(0x100, r[68..72]) == f.size % TWO32
            && forall k :: (4 <= k < 36 || 40 <= k < 64) ==> r[k] == 0
  {
    PrintedLaid(f);
    NumbersLaid(Words4(), f, RecordPrinter()(f), NameBytes(Cut(f.name)));
  }

  // The name at 72, at most 259 units of it, each with its lower byte first, and zeros behind it.
  lemma RecordName(f: ClipFile, j: nat)
    ensures var r, n := RecordPrinter()(f), if |f.name| <= 259 then |f.name| else 259;
            && |r| == 592 && (forall k :: 72 + 2 * n <= k < 592 ==> r[k] == 0)
            && (j < n ==> r[72 + 2 * j] == (f.name[j] as int) % 0x100
                          && r[72 + 2 * j + 1] == (f.name[j] as int) / 0x100)
  {
    PrintedLaid(f);
    NameUnits(Cut(f.name));
    if j < |Cut(f.name)| { NameIn(RecordPrinter()(f), NameBytes(Cut(f.name)), Cut(f.name), j); }
  }

  // The bytes of a name, the lower one of every unit first.
  ghost predicate Units(n: seq<byte>, name: Name)
  {
    |n| == 2 * |name| && forall j :: 0 <= j < |name| ==> UnitAt(n, j, name[j])
  }

  predicate UnitAt(n: seq<byte>, j: nat, u: u16)
  {
    2 * j + 1 < |n| && n[2 * j] == (u as int) % 0x100 && n[2 * j + 1] == (u as int) / 0x100
  }

  lemma NameUnits(name: Name)
    ensures Units(NameBytes(name), name)
  {
    forall j | 0 <= j < |name| ensures UnitAt(NameBytes(name), j, name[j]) { NameUnit(name, j); }
  }

  lemma NameIn(r: seq<byte>, n: seq<byte>, name: Name, j: nat)
    requires Units(n, name) && 72 + |n| <= |r| && r[72..72 + |n|] == n && j < |name|
    ensures r[72 + 2 * j] == (name[j] as int) % 0x100 && r[72 + 2 * j + 1] == (name[j] as int) / 0x100
  {
    assert UnitAt(n, j, name[j]);
    TwoInSlice(r, n, 2 * j);
  }

  lemma TwoInSlice(r: seq<byte>, n: seq<byte>, k: nat)
    requires k + 1 < |n| && 72 + |n| <= |r| && r[72..72 + |n|] == n
    ensures r[72 + k] == n[k] && r[72 + k + 1] == n[k + 1]
  {
    assert r[72..72 + |n|][k] == r[72 + k] && r[72..72 + |n|][k + 1] == r[72 + k + 1];
  }

  lemma Behind(head: seq<byte>, t: seq<byte>, m: nat, q: seq<byte>)
    requires |head| == 4 && m + 592 <= |t| && t[m..m + 592] == q
    ensures (head + t)[..4] == head && (head + t)[4 + m..4 + m + 592] == q
  {
    assert (head + t)[4..] == t;
    assert (head + t)[4..][m..m + 592] == (head + t)[4 + m..4 + m + 592];
  }

  lemma ListLaid(p: Printer, fs: seq<ClipFile>, t: seq<byte>, i: nat) returns (m: nat)
    requires (forall f :: |p(f)| == RECORD) && i < |fs| && t == Records(p, fs)
    ensures m == 592 * i && |t| == 592 * |fs| && m + 592 <= |t| && t[m..m + 592] == p(fs[i])
  {
    m := RECORD * i;
    RecordAt(p, fs, i);
  }

  lemma DescriptorIs(p: Printer, fs: seq<ClipFile>)
    requires p == RecordPrinter()
    ensures (forall f :: |p(f)| == RECORD) && Descriptor(fs) == Le(4, |fs|) + Records(p, fs)
  {
  }

  lemma CountBytes(x: nat)
    requires x < TWO32
    ensures Val(0x100, Le(4, x)) == x
  {
    LeWord(x);
    Small(x, TWO32);
  }

  lemma Small(x: nat, m: nat)
    requires x < m
    ensures x % m == x
  {
  }

  // First the number of records, in four bytes.
  lemma DescriptorCount(p: Printer, fs: seq<ClipFile>) returns (head: seq<byte>)
    requires p == RecordPrinter() && |fs| < TWO32
    ensures Descriptor(fs) == head + Records(p, fs) && |head| == 4 && Val(0x100, head) == |fs|
  {
    head := Le(4, |fs|);
    CountBytes(|fs|);
    DescriptorIs(p, fs);
  }

  // And then the records, one behind the other.
  lemma DescriptorLayout(p: Printer, fs: seq<ClipFile>, i: nat) returns (at: nat)
    requires p == RecordPrinter() && i < |fs|
    ensures var d := Descriptor(fs); at == 4 + 592 * i && |d| == 4 + 592 * |fs| && at + 592 <= |d|
    ensures Descriptor(fs)[at..at + 592] == p(fs[i])
  {
    DescriptorIs(p, fs);
    at := RecordLies(p, fs, Le(4, |fs|), i);
  }

  lemma RecordLies(p: Printer, fs: seq<ClipFile>, head: seq<byte>, i: nat) returns (at: nat)
    requires (forall f :: |p(f)| == RECORD) && i < |fs| && |head| == 4
    ensures var d := head + Records(p, fs);
            at == 4 + 592 * i && |d| == 4 + 592 * |fs| && at + 592 <= |d| && d[at..at + 592] == p(fs[i])
  {
    var t := Records(p, fs);
    var m := ListLaid(p, fs, t, i);
    Behind(head, t, m, p(fs[i]));
    at := 4 + m;
  }

  // ----- reading -----

  // As many entries as are announced, or as fit.
  lemma ParsedCount(d: seq<byte>)
    ensures |Parse(d)| == if |d| < 4 then 0
                          else if Val(0x100, d[..4]) <= (|d| - 4) / 592 then Val(0x100, d[..4]) else (|d| - 4) / 592
  {
    if |d| >= 4 { assert d[0..4] == d[..4]; }
  }

  lemma {:induction false} EntryAt(d: seq<byte>, n: nat, i: nat)
    requires 4 + RECORD * n <= |d| && i < n
    ensures 4 + RECORD * i + RECORD <= |d|
    ensures Entries(d, n)[i] == ParseRecord(d[4 + RECORD * i..4 + RECORD * i + RECORD])
  {
    if i < n - 1 { EntryAt(d, n - 1, i); }
  }

  // An entry's size is that of its two words, the first being the higher; it is a directory exactly
  // if bit 4 of its attributes is set.
  lemma ParsedFields(r: seq<byte>)
    requires |r| == 592
    ensures var e := ParseRecord(r);
            && e.size == 0x1_0000_0000 * Val(0x100, r[64..68]) + Val(0x100, r[68..72])
            && (e.isDir <==> Val(0x100, r[36..40]) / 16 % 2 == 1)
  {
  }
}
