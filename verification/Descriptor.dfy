// The file list that announces a paste: 592-byte records, printed and parsed by
// src/clipboard_file.rs. Names are UTF-16 code units.

module DescriptorSpec {
  import opened MachineInts
  import opened Radix
  import opened ClipSpec

  const RECORD: nat := 592
  const ATTR_DIRECTORY: u32 := 0x10
  const ATTR_NORMAL: u32 := 0x80
  const RECORD_FLAGS: u32 := 0x4044

  datatype ClipFile = ClipFile(name: Name, size: u64, isDir: bool)

  function Le(n: nat, x: int): (s: seq<byte>) ensures |s| == n { Spell(0x100, n, x) }

  function NameBytes(name: Name): (s: seq<byte>)
    ensures |s| == 2 * |name|
  {
    if name == [] then [] else Le(2, name[0]) + NameBytes(name[1..])
  }

  function Cut(name: Name): Name { if |name| <= 259 then name else name[..259] }

  function Attributes(f: ClipFile): u32 { if f.isDir then ATTR_DIRECTORY else ATTR_NORMAL }

  type Encoder = int -> seq<byte>

  function Words4(): Encoder { (x: int) => Le(4, x) }

  // One record, words written by w.
  function Record(w: Encoder, f: ClipFile): (s: seq<byte>)
    requires forall x :: |w(x)| == 4
    ensures |s| == RECORD
  {
    w(RECORD_FLAGS) + Zeros(32) + w(Attributes(f)) + Zeros(24)
    + w(f.size / TWO32) + w(f.size) + NameBytes(Cut(f.name)) + Zeros(520 - 2 * |Cut(f.name)|)
  }

  type Printer = ClipFile -> seq<byte>

  function RecordPrinter(): Printer { (f: ClipFile) => Record(Words4(), f) }

  function Records(p: Printer, fs: seq<ClipFile>): (s: seq<byte>)
  {
    if fs == [] then [] else Records(p, fs[..|fs| - 1]) + p(fs[|fs| - 1])
  }

  function Descriptor(fs: seq<ClipFile>): seq<byte> { Le(4, |fs|) + Records(RecordPrinter(), fs) }

  // ----- parsing -----

  function Unit(d: seq<byte>): u16
    requires |d| >= 2
  {
    (d[0] as int) + 0x100 * (d[1] as int)
  }

  function UnitsUntilNul(d: seq<byte>): Name
  {
    if |d| < 2 || Unit(d) == 0 then [] else [Unit(d)] + UnitsUntilNul(d[2..])
  }

  function ParseRecord(d: seq<byte>): Entry
    requires |d| == RECORD
  {
    Entry(UnitsUntilNul(d[72..]), Word(d, 64) * TWO32 + Word(d, 68), Word(d, 36) / 0x10 % 2 == 1)
  }

  function Word(d: seq<byte>, at: nat): u32
    requires at + 4 <= |d|
  {
    Eight();
    ValRange(0x100, d[at..at + 4]);
    Val(0x100, d[at..at + 4])
  }

  // How many records are announced and also there.
  function Announced(d: seq<byte>): (n: nat)
    requires |d| >= 4
    ensures 4 + RECORD * n <= |d|
  {
    Least(Word(d, 0), (|d| - 4) / RECORD)
  }

  function Entries(d: seq<byte>, n: nat): (es: seq<Entry>)
    requires 4 + RECORD * n <= |d|
    ensures |es| == n
  {
    if n == 0 then [] else Entries(d, n - 1) + [ParseRecord(d[4 + RECORD * (n - 1)..4 + RECORD * (n - 1) + RECORD])]
  }

  function Parse(d: seq<byte>): seq<Entry>
  {
    if |d| < 4 then [] else Entries(d, Announced(d))
  }

  // ----- the round trip -----

  function UpToNul(name: Name): Name
  {
    if name == [] || name[0] == 0 then [] else [name[0]] + UpToNul(name[1..])
  }

  // What a file looks like once it has been announced and parsed.
  function Seen(f: ClipFile): Entry { Entry(UpToNul(Cut(f.name)), f.size, f.isDir) }

  lemma LeWord(x: int)
    requires x >= 0
    ensures Val(0x100, Le(4, x)) == x % TWO32
  {
    Eight();
    SpellMod(0x100, 4, x);
  }

  lemma LeUnit(u: u16)
    ensures |Le(2, u)| == 2 && Unit(Le(2, u)) == u
  {
    assert Pow(0x100, 1) == 0x100;
    assert Pow(0x100, 2) == 0x1_0000;
    SpellMod(0x100, 2, u);
    var s := Le(2, u);
    assert s[1..] == [s[1]] && [s[1]][1..] == [];
  }

  lemma {:induction false} NameComesBack(name: Name, n: nat)
    requires n >= 2
    ensures UnitsUntilNul(NameBytes(name) + Zeros(n)) == UpToNul(name)
  {
    var d := NameBytes(name) + Zeros(n);
    if name == [] {
      assert d[0] == 0 && d[1] == 0;
    } else {
      LeUnit(name[0]);
      assert d[0] == Le(2, name[0])[0] && d[1] == Le(2, name[0])[1];
      assert d[2..] == NameBytes(name[1..]) + Zeros(n);
      NameComesBack(name[1..], n);
    }
  }

  // Where a part lies in a concatenation.
  lemma Part(a: seq<byte>, b: seq<byte>, c: seq<byte>, i: nat, j: nat)
    requires i == |a| && j == |a| + |b|
    ensures (a + b + c)[i..j] == b && (a + b + c)[i..] == b + c
  {
  }

  lemma Fields(a: seq<byte>, b: seq<byte>, c: seq<byte>, d: seq<byte>, e: seq<byte>, f: seq<byte>, g: seq<byte>,
               h: seq<byte>)
    requires |a| == 4 && |b| == 32 && |c| == 4 && |d| == 24 && |e| == 4 && |f| == 4
    ensures var r := a + b + c + d + e + f + g + h;
            r[36..40] == c && r[64..68] == e && r[68..72] == f && r[72..] == g + h
  {
    var r := a + b + c + d + e + f + g + h;
    assert r == (a + b) + c + (d + e + f + g + h);
    Part(a + b, c, d + e + f + g + h, 36, 40);
    assert r == (a + b + c + d) + e + (f + g + h);
    Part(a + b + c + d, e, f + g + h, 64, 68);
    assert r == (a + b + c + d + e) + f + (g + h);
    Part(a + b + c + d + e, f, g + h, 68, 72);
    assert r == (a + b + c + d + e + f) + g + h;
    Part(a + b + c + d + e + f, g, h, 72, 72 + |g|);
  }

  lemma SizeAgain(x: u64)
    ensures x / TWO32 % TWO32 * TWO32 + x % TWO32 == x
  {
  }

  // The fields of a record as they are read back.
  ghost predicate Reads(r: seq<byte>, f: ClipFile)
  {
    && |r| == RECORD && Word(r, 36) == Attributes(f)
    && Word(r, 64) == f.size / TWO32 % TWO32 && Word(r, 68) == f.size % TWO32
    && UnitsUntilNul(r[72..]) == UpToNul(Cut(f.name))
  }

  lemma PartsRead(f: ClipFile, a: seq<byte>, b: seq<byte>, attrs: seq<byte>, d: seq<byte>, high: seq<byte>,
                  low: seq<byte>,
                  name: seq<byte>, rest: seq<byte>)
    requires |a| == 4 && |b| == 32 && |attrs| == 4 && |d| == 24 && |high| == 4 && |low| == 4 && |name| + |rest| == 520
    requires Val(0x100, attrs) == Attributes(f) && Val(0x100, high) == f.size / TWO32 % TWO32
    requires Val(0x100, low) == f.size % TWO32
    requires UnitsUntilNul(name + rest) == UpToNul(Cut(f.name))
    ensures Reads(a + b + attrs + d + high + low + name + rest, f)
  {
    Fields(a, b, attrs, d, high, low, name, rest);
  }

  lemma RecordReads(w: Encoder, f: ClipFile)
    requires (forall x :: |w(x)| == 4) && forall x :: x >= 0 ==> Val(0x100, w(x)) == x % TWO32
    ensures Reads(Record(w, f), f)
  {
    var n := 520 - 2 * |Cut(f.name)|;
    NameComesBack(Cut(f.name), n);
    PartsRead(f, w(RECORD_FLAGS), Zeros(32), w(Attributes(f)), Zeros(24), w(f.size / TWO32), w(f.size),
              NameBytes(Cut(f.name)), Zeros(n));
  }

  lemma ReadsBack(r: seq<byte>, f: ClipFile)
    requires Reads(r, f)
    ensures ParseRecord(r) == Seen(f)
  {
    SizeAgain(f.size);
  }

  lemma RecordComesBack(f: ClipFile)
    ensures ParseRecord(Record(Words4(), f)) == Seen(f)
  {
    forall x | x >= 0 ensures Val(0x100, Words4()(x)) == x % TWO32 { LeWord(x); }
    RecordReads(Words4(), f);
    ReadsBack(Record(Words4(), f), f);
  }

  lemma SliceLeft(a: seq<byte>, b: seq<byte>, i: nat, j: nat)
    requires i <= j <= |a|
    ensures (a + b)[i..j] == a[i..j]
  {
  }

  lemma SliceRight(a: seq<byte>, b: seq<byte>, j: nat)
    requires j == |a| + |b|
    ensures (a + b)[|a|..j] == b
  {
  }

  // A printer of records that parse back.
  ghost predicate Faithful(p: Printer)
  {
    forall f :: |p(f)| == RECORD && ParseRecord(p(f)) == Seen(f)
  }

  lemma {:induction false} RecordAt(p: Printer, fs: seq<ClipFile>, n: nat)
    requires n < |fs| && forall f :: |p(f)| == RECORD
    ensures |Records(p, fs)| == RECORD * |fs|
    ensures RECORD * n + RECORD <= RECORD * |fs| && Records(p, fs)[RECORD * n..RECORD * n + RECORD] == p(fs[n])
    decreases |fs|
  {
    var m := |fs| - 1;
    RecordsLength(p, fs[..m]);
    if n < m {
      RecordAt(p, fs[..m], n);
      SliceLeft(Records(p, fs[..m]), p(fs[m]), RECORD * n, RECORD * n + RECORD);
    } else {
      SliceRight(Records(p, fs[..m]), p(fs[m]), RECORD * n + RECORD);
    }
  }

  lemma {:induction false} RecordsLength(p: Printer, fs: seq<ClipFile>)
    requires forall f :: |p(f)| == RECORD
    ensures |Records(p, fs)| == RECORD * |fs|
  {
    if fs != [] { RecordsLength(p, fs[..|fs| - 1]); }
  }

  lemma InTail(d: seq<byte>, tail: seq<byte>, m: nat, r: seq<byte>)
    requires |d| >= 4 && d[4..] == tail && m + RECORD <= |tail| && tail[m..m + RECORD] == r
    ensures 4 + m + RECORD <= |d| && d[4 + m..4 + m + RECORD] == r
  {
    assert d[4..][m..m + RECORD] == d[4 + m..4 + m + RECORD];
  }

  lemma RecordIn(p: Printer, fs: seq<ClipFile>, d: seq<byte>, n: nat)
    requires 0 < n <= |fs| && |d| == 4 + RECORD * |fs| && d[4..] == Records(p, fs) && forall f :: |p(f)| == RECORD
    ensures 4 + RECORD * (n - 1) + RECORD <= |d|
    ensures d[4 + RECORD * (n - 1)..4 + RECORD * (n - 1) + RECORD] == p(fs[n - 1])
  {
    RecordAt(p, fs, n - 1);
    InTail(d, Records(p, fs), RECORD * (n - 1), p(fs[n - 1]));
  }

  function SeenAll(fs: seq<ClipFile>, n: nat): (es: seq<Entry>)
    requires n <= |fs|
    ensures |es| == n && forall i :: 0 <= i < n ==> es[i] == Seen(fs[i])
  {
    if n == 0 then [] else SeenAll(fs, n - 1) + [Seen(fs[n - 1])]
  }

  lemma {:induction false} EntriesOfRecords(p: Printer, fs: seq<ClipFile>, d: seq<byte>, n: nat)
    requires n <= |fs| && |d| == 4 + RECORD * |fs| && d[4..] == Records(p, fs) && Faithful(p)
    ensures Entries(d, n) == SeenAll(fs, n)
  {
    if n > 0 {
      EntriesOfRecords(p, fs, d, n - 1);
      RecordIn(p, fs, d, n);
    }
  }

  lemma PrinterFaithful()
    ensures Faithful(RecordPrinter())
  {
    forall f: ClipFile ensures ParseRecord(RecordPrinter()(f)) == Seen(f) { RecordComesBack(f); }
  }

  lemma ParseRecords(p: Printer, fs: seq<ClipFile>, head: seq<byte>)
    requires Faithful(p) && |head| == 4 && Val(0x100, head) == |fs| % TWO32
    ensures |fs| % TWO32 <= |fs| && Parse(head + Records(p, fs)) == SeenAll(fs, |fs| % TWO32)
  {
    var d := head + Records(p, fs);
    DescriptorParts(head, Records(p, fs));
    RecordsLength(p, fs);
    Quotient(|fs|);
    EntriesOfRecords(p, fs, d, |fs| % TWO32);
  }

  // Parsing a printed list gives back every size, directory flag and name (up to 259 units and a
  // NUL); the count is 32 bits wide.
  lemma DescriptorRoundTrip(fs: seq<ClipFile>)
    ensures |fs| % TWO32 <= |fs| && Parse(Descriptor(fs)) == SeenAll(fs, |fs| % TWO32)
  {
    LeWord(|fs|);
    PrinterFaithful();
    ParseRecords(RecordPrinter(), fs, Le(4, |fs|));
  }

  // Fewer than 2^32 files all come back.
  lemma SmallListRoundTrip(fs: seq<ClipFile>)
    requires |fs| < TWO32
    ensures Parse(Descriptor(fs)) == SeenAll(fs, |fs|)
  {
    DescriptorRoundTrip(fs);
    SmallCount(|fs|);
  }

  lemma SmallCount(n: nat)
    requires n < TWO32
    ensures n % TWO32 == n
  {
  }

  lemma Quotient(n: nat)
    ensures RECORD * n / RECORD == n && n % TWO32 <= n
  {
  }

  lemma DescriptorParts(a: seq<byte>, b: seq<byte>)
    requires |a| == 4
    ensures (a + b)[0..4] == a && (a + b)[4..] == b
  {
  }

  // A plain short name is unchanged.
  lemma {:induction false} PlainNameKept(name: Name)
    requires |name| <= 259 && 0 !in name
    ensures UpToNul(Cut(name)) == name
  {
    PlainUpToNul(name);
  }

  lemma {:induction false} PlainUpToNul(name: Name)
    ensures UpToNul(name) == name <==> 0 !in name
  {
    if name != [] {
      PlainUpToNul(name[1..]);
      assert name == [name[0]] + name[1..];
      if name[0] != 0 && UpToNul(name[1..]) != name[1..] { assert UpToNul(name)[1..] == UpToNul(name[1..]); }
    }
  }
}

// From the announced list to the files on disk.
module PasteEndToEnd {
  import opened MachineInts
  import opened ClipSpec
  import opened ClipRun
  import opened DescriptorSpec

  function Announce(host: seq<HostFile>): seq<ClipFile>
  {
    seq(|host|, i requires 0 <= i < |host| => ClipFile(host[i].name, host[i].size, host[i].isDir))
  }

  ghost predicate Plain(host: seq<HostFile>)
  {
    forall i :: 0 <= i < |host| ==> |host[i].name| <= 259 && 0 !in host[i].name
  }

  lemma SeenListed(host: seq<HostFile>, files: seq<Entry>)
    requires Plain(host) && |files| == |host| && forall i :: 0 <= i < |host| ==> files[i] == Seen(Announce(host)[i])
    ensures Listed(host, files)
  {
    forall i | 0 <= i < |host| ensures files[i].name == host[i].name && files[i].isDir == host[i].isDir {
      PlainNameKept(host[i].name);
    }
  }

  // The receiver learns the served files from the printed list.
  lemma ListArrives(host: seq<HostFile>)
    requires Stable(host) && Plain(host)
    ensures Listed(host, Parse(Descriptor(Announce(host))))
  {
    SmallListRoundTrip(Announce(host));
    SeenListed(host, SeenAll(Announce(host), |host|));
  }

  // Announce, parse, then request and serve chunk by chunk: every file arrives whole.
  lemma PasteArrives(host: seq<HostFile>, before: seq<seq<Name>>, disk: map<Name, seq<byte>>, shorts: nat -> nat)
    requires Stable(host) && Plain(host)
    ensures var files := Parse(Descriptor(Announce(host)));
            var s := Sys(OnList(disk, before, files).0, OnList(disk, before, files).1);
            && Good(host, before, s)
            && Delivered(host, Run(host, before, s, shorts, 0).0.disk, |host|)
            && Fetches(Run(host, before, s, shorts, 0).1) == FilesFrom(files, 0)
            && Run(host, before, s, shorts, 0).0.pasted == Pasted(before, files)
  {
    var files := Parse(Descriptor(Announce(host)));
    ListArrives(host);
    PasteDelivers(host, before, disk, files, shorts);
  }
}
