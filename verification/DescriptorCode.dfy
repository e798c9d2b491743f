// build_file_group_descriptor and parse_file_group_descriptor of src/clipboard_file.rs, on the
// byte buffer they fill and read.

module DescriptorCode {
  import opened Wrappers
  import opened MachineInts
  import opened Radix
  import opened Words
  import opened ClipSpec
  import opened DescriptorSpec
  import Bits

  // r is s with src written over it at a position.
  ghost predicate Wrote(s: seq<byte>, at: nat, src: seq<byte>, r: seq<byte>)
  {
    && |r| == |s| && at + |src| <= |s|
    && forall k :: 0 <= k < |s| ==> r[k] == if at <= k < at + |src| then src[k - at] else s[k]
  }

  method CopyInto(data: array<byte>, at: nat, src: seq<byte>)
    requires at + |src| <= data.Length
    modifies data
    ensures Wrote(old(data[..]), at, src, data[..])
  {
    for i := 0 to |src|
      invariant forall k :: 0 <= k < data.Length ==> data[k] == if at <= k < at + i then src[k - at] else old(data[k])
    {
      data[at + i] := src[i];
    }
  }

  lemma WroteMore(s: seq<byte>, at: nat, a: seq<byte>, t: seq<byte>, b: seq<byte>, u: seq<byte>)
    requires Wrote(s, at, a, t) && Wrote(t, at + |a|, b, u)
    ensures Wrote(s, at, a + b, u)
  {
  }

  lemma NameSnoc(name: Name, u: u16)
    ensures NameBytes(name + [u]) == NameBytes(name) + Le(2, u)
  {
    if name == [] {
      assert [u][1..] == [] && [] + [u] == [u];
      assert Le(2, u) + [] == Le(2, u);
    } else {
      NameSnoc(name[1..], u);
      assert (name + [u])[1..] == name[1..] + [u];
    }
  }

  lemma NameStep(name: Name, j: nat)
    requires j < |name|
    ensures NameBytes(name[..j + 1]) == NameBytes(name[..j]) + Le(2, name[j])
  {
    NameSnoc(name[..j], name[j]);
    assert name[..j + 1] == name[..j] + [name[j]];
  }

  method WriteName(data: array<byte>, at: nat, wide: Name)
    requires at + 2 * |Cut(wide)| <= data.Length
    modifies data
    ensures Wrote(old(data[..]), at, NameBytes(Cut(wide)), data[..])
  {
    ghost var cut := Cut(wide);
    var maxChars := if |wide| <= 259 then |wide| else 259;
    assert cut[..0] == [];
    for j := 0 to maxChars
      invariant Wrote(old(data[..]), at, NameBytes(cut[..j]), data[..])
    {
      ghost var t := data[..];
      CopyInto(data, at + j * 2, Le(2, wide[j]));
      WroteMore(old(data[..]), at, NameBytes(cut[..j]), t, Le(2, wide[j]), data[..]);
      NameStep(cut, j);
    }
    assert cut[..maxChars] == cut;
  }

  // Five fields over zeros make a record.
  lemma FieldsWrote(s: seq<byte>, o: nat, a: seq<byte>, c: seq<byte>, e: seq<byte>, f: seq<byte>, g: seq<byte>,
                    s1: seq<byte>, s2: seq<byte>, s3: seq<byte>, s4: seq<byte>, s5: seq<byte>)
    requires o + RECORD <= |s| && s[o..o + RECORD] == Zeros(RECORD)
    requires |a| == 4 && |c| == 4 && |e| == 4 && |f| == 4 && |g| <= 520
    requires Wrote(s, o, a, s1) && Wrote(s1, o + 36, c, s2) && Wrote(s2, o + 64, e, s3) && Wrote(s3, o + 68, f, s4)
    requires Wrote(s4, o + 72, g, s5)
    ensures Wrote(s, o, a + Zeros(32) + c + Zeros(24) + e + f + g + Zeros(520 - |g|), s5)
  {
    FieldAt(a, c, e, f, g);
    forall k | o <= k < o + RECORD ensures s[k] == 0 { assert s[k] == s[o..o + RECORD][k - o]; }
  }

  lemma FieldAt(a: seq<byte>, c: seq<byte>, e: seq<byte>, f: seq<byte>, g: seq<byte>)
    requires |a| == 4 && |c| == 4 && |e| == 4 && |f| == 4 && |g| <= 520
    ensures var r := a + Zeros(32) + c + Zeros(24) + e + f + g + Zeros(520 - |g|);
            && |r| == RECORD
            && forall k :: 0 <= k < RECORD ==>
                 r[k] == if k < 4 then a[k] else if 36 <= k < 40 then c[k - 36] else if 64 <= k < 68 then e[k - 64]
                         else if 68 <= k < 72 then f[k - 68] else if 72 <= k < 72 + |g| then g[k - 72] else 0
  {
  }

  // w is to_le_bytes on 32-bit words.
  method WriteRecord(w: Encoder, data: array<byte>, offset: nat, file: ClipFile)
    requires offset + RECORD <= data.Length && data[offset..offset + RECORD] == Zeros(RECORD) && forall x :: |w(x)| == 4
    modifies data
    ensures Wrote(old(data[..]), offset, Record(w, file), data[..])
  {
    ghost var s := data[..];
    var attrs := if file.isDir then ATTR_DIRECTORY else ATTR_NORMAL;
    CopyInto(data, offset, w(RECORD_FLAGS));
    ghost var s1 := data[..];
    CopyInto(data, offset + 36, w(attrs));
    ghost var s2 := data[..];
    CopyInto(data, offset + 64, w(file.size / TWO32));
    ghost var s3 := data[..];
    CopyInto(data, offset + 68, w(file.size));
    ghost var s4 := data[..];
    WriteName(data, offset + 72, file.name);
    FieldsWrote(s, offset, w(RECORD_FLAGS), w(attrs), w(file.size / TWO32), w(file.size), NameBytes(Cut(file.name)), s1,
                s2, s3, s4, data[..]);
  }

  method FillOne(w: Encoder, ghost p: Printer, data: array<byte>, at: nat, file: ClipFile, ghost done: seq<byte>,
                 ghost zeros: nat)
    requires data[..] == done + Zeros(zeros) && at == |done| && zeros >= RECORD
    requires (forall x :: |w(x)| == 4) && p(file) == Record(w, file)
    modifies data
    ensures data[..] == done + p(file) + Zeros(zeros - RECORD)
  {
    ZerosAhead(done, zeros);
    WriteRecord(w, data, at, file);
    NextRecord(done, zeros, p(file), data[..]);
  }

  method FillRecords(w: Encoder, ghost p: Printer, data: array<byte>, files: seq<ClipFile>, ghost head: seq<byte>)
    requires |head| == 4 && data[..] == head + Zeros(RECORD * |files|)
    requires (forall x :: |w(x)| == 4) && forall f :: p(f) == Record(w, f)
    modifies data
    ensures data[..] == head + Records(p, files)
  {
    assert files[..0] == [] && head + [] == head;
    for i := 0 to |files|
      invariant |Records(p, files[..i])| == RECORD * i
      invariant data[..] == head + Records(p, files[..i]) + Zeros(RECORD * (|files| - i))
    {
      FillOne(w, p, data, 4 + i * RECORD, files[i], head + Records(p, files[..i]), RECORD * (|files| - i));
      RecordsSnoc(p, files, i);
      Assoc(head, Records(p, files[..i]), p(files[i]));
    }
    assert files[..|files|] == files && head + Records(p, files) + Zeros(0) == head + Records(p, files);
  }

  lemma ZerosAhead(done: seq<byte>, n: nat)
    requires n >= RECORD
    ensures (done + Zeros(n))[|done|..|done| + RECORD] == Zeros(RECORD)
  {
  }

  lemma RecordsSnoc(p: Printer, fs: seq<ClipFile>, i: nat)
    requires i < |fs|
    ensures Records(p, fs[..i + 1]) == Records(p, fs[..i]) + p(fs[i])
  {
    assert fs[..i + 1][..i] == fs[..i];
  }

  method BuildFileGroupDescriptor(files: seq<ClipFile>) returns (data: array<byte>)
    ensures data[..] == Descriptor(files)
  {
    data := new byte[4 + |files| * RECORD](_ => 0);
    assert data[..] == [] + Zeros(4 + |files| * RECORD);
    CopyInto(data, 0, Le(4, |files|));
    NextRecord([], 4 + |files| * RECORD, Le(4, |files|), data[..]);
    assert data[..] == Le(4, |files|) + Zeros(RECORD * |files|);
    FillRecords(Words4(), RecordPrinter(), data, files, Le(4, |files|));
  }

  lemma NextRecord(done: seq<byte>, zeros: nat, r: seq<byte>, t: seq<byte>)
    requires |r| <= zeros && Wrote(done + Zeros(zeros), |done|, r, t)
    ensures t == done + r + Zeros(zeros - |r|)
  {
  }

  // ----- parsing -----

  // Up to 260 units, stopping at the end of the buffer or at a NUL.
  method ReadName(data: seq<byte>, nameOffset: nat) returns (chars: Name)
    requires nameOffset + 520 <= |data|
    ensures chars == UnitsUntilNul(data[nameOffset..nameOffset + 520])
  {
    chars := [];
    ghost var d := data[nameOffset..nameOffset + 520];
    var j := 0;
    while j < 260
      invariant 0 <= j <= 260 && chars + UnitsUntilNul(d[2 * j..]) == UnitsUntilNul(d)
    {
      var bo := nameOffset + j * 2;
      assert d[2 * j..][2..] == d[2 * (j + 1)..];
      if bo + 2 > |data| { break; }
      var ch: u16 := (data[bo] as int) + 0x100 * (data[bo + 1] as int);
      assert ch == Unit(d[2 * j..]);
      if ch == 0 { assert chars + [] == chars; return; }
      assert chars + ([ch] + UnitsUntilNul(d[2 * (j + 1)..])) == chars + [ch] + UnitsUntilNul(d[2 * (j + 1)..]);
      chars := chars + [ch];
      j := j + 1;
    }
    assert chars + [] == chars;
  }

  // attrs & FILE_ATTRIBUTE_DIRECTORY
  lemma DirectoryBit(attrs: u32)
    ensures Bits.And(attrs, ATTR_DIRECTORY) != 0 <==> attrs / 0x10 % 2 == 1
  {
    assert Bits.Pow2(4) == 0x10;
    Bits.AndHighAt(attrs, 1, 4, 0x10);
    assert Bits.Pow2(1) == 2;
    Bits.AndMaskAt(attrs / 0x10, 1, 2);
  }

  lemma SizeOr(high: u32, low: u32)
    ensures Bits.Or(high * TWO32, low) == high * TWO32 + low
  {
    Pow2At32();
    Bits.OrFields(low, high, 32);
    Bits.OrComm(low, high * TWO32);
  }

  method ReadRecord(data: seq<byte>, offset: nat) returns (e: Entry)
    requires offset + RECORD <= |data|
    ensures e == ParseRecord(data[offset..offset + RECORD])
  {
    var attrs := Word(data, offset + 36);
    var sizeHigh, sizeLow := Word(data, offset + 64), Word(data, offset + 68);
    DirectoryBit(attrs);
    SizeOr(sizeHigh, sizeLow);
    var name := ReadName(data, offset + 72);
    e := Entry(name, Bits.Or(sizeHigh * TWO32, sizeLow), Bits.And(attrs, ATTR_DIRECTORY) != 0);
    WordInside(data, offset, 36);
    WordInside(data, offset, 64);
    WordInside(data, offset, 68);
    NameInside(data, offset);
  }

  lemma SliceSlice(s: seq<byte>, o: nat, n: nat, i: nat, j: nat)
    requires i <= j <= n && o + n <= |s|
    ensures s[o..o + n][i..j] == s[o + i..o + j]
  {
    var t := s[o..o + n];
    assert forall k :: 0 <= k < n ==> t[k] == s[o + k];
    assert |t[i..j]| == j - i;
  }

  lemma NameInside(data: seq<byte>, offset: nat)
    requires offset + RECORD <= |data|
    ensures data[offset..offset + RECORD][72..] == data[offset + 72..offset + 72 + 520]
  {
    SliceSlice(data, offset, RECORD, 72, RECORD);
  }

  lemma WordInside(data: seq<byte>, offset: nat, at: nat)
    requires at + 4 <= RECORD && offset + RECORD <= |data|
    ensures Word(data[offset..offset + RECORD], at) == Word(data, offset + at)
  {
    SliceSlice(data, offset, RECORD, at, at + 4);
  }

  // Total on arbitrary bytes: min(count, (len - 4) / 592) entries.
  method ParseFileGroupDescriptor(data: seq<byte>) returns (entries: seq<Entry>)
    ensures entries == Parse(data)
    ensures |entries| == if |data| < 4 then 0 else Least(Word(data, 0), (|data| - 4) / RECORD)
  {
    if |data| < 4 { return []; }
    var count := Word(data, 0);
    entries := [];
    var i := 0;
    while i < count
      invariant 0 <= i <= count && 4 + RECORD * i <= |data| && entries == Entries(data, i)
    {
      var offset := 4 + i * RECORD;
      if offset + RECORD > |data| { break; }
      var e := ReadRecord(data, offset);
      entries := entries + [e];
      i := i + 1;
    }
    HowMany(i, count, |data|);
  }

  lemma HowMany(i: nat, count: nat, n: nat)
    requires n >= 4 && i <= count && 4 + RECORD * i <= n && (i == count || 4 + RECORD * i + RECORD > n)
    ensures i == Least(count, (n - 4) / RECORD)
  {
  }
}
