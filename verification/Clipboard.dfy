// The pasted-file protocol of src/clipboard_file.rs: the receiver's state machine, the serving
// side, and whole transfers of one composed with the other.

module Words {
  import opened MachineInts
  import opened DivMod
  import Bits

  // `x as i32` and `i as u64`: truncation, and sign extension.
  function ToI32(x: int): i32 { (x + 0x8000_0000) % TWO32 - 0x8000_0000 }

  function AsU64(i: int): u64 { i % TWO64 }

  // The 64-bit position two signed halves stand for.
  function Join(high: i32, low: i32): u64 { high % TWO32 * TWO32 + low % TWO32 }

  lemma Pow2At32()
    ensures Bits.Pow2(32) == TWO32
  {
    assert Bits.Pow2(8) == 0x100;
    Bits.Pow2Add(8, 8);
    Bits.Pow2Add(16, 16);
  }

  // (high as u64) << 32 | (low as u64 & 0xFFFFFFFF)
  lemma JoinFields(high: i32, low: i32)
    ensures Bits.Or(AsU64(high) * TWO32 % TWO64, Bits.And(AsU64(low), TWO32 - 1)) == Join(high, low)
  {
    HighHalf(high);
    Pow2At32();
    Bits.AndMaskAt(AsU64(low), 32, TWO32);
    LowHalf(low);
    Bits.OrFields(low % TWO32, high % TWO32, 32);
    Bits.OrComm(low % TWO32, high % TWO32 * TWO32);
  }

  lemma HighHalf(h: i32)
    ensures AsU64(h) * TWO32 % TWO64 == h % TWO32 * TWO32
  {
    if h >= 0 {
      assert AsU64(h) == h && h % TWO32 == h;
    } else {
      assert AsU64(h) == h + TWO64 && h % TWO32 == h + TWO32;
      assert (h + TWO64) * TWO32 == TWO64 * (TWO32 - 1) + (h + TWO32) * TWO32;
      QuotRem((h + TWO64) * TWO32, TWO32 - 1, (h + TWO32) * TWO32, TWO64);
    }
  }

  lemma LowHalf(x: i32)
    ensures AsU64(x) % TWO32 == x % TWO32
  {
    assert AsU64(x) == if x >= 0 then x else x + TWO64;
  }

  lemma Truncated(x: int)
    ensures ToI32(x) % TWO32 == x % TWO32
  {
    var q := (x + 0x8000_0000) / TWO32;
    assert ToI32(x) == x - TWO32 * q;
    QuotRem(ToI32(x), x / TWO32 - q, x % TWO32, TWO32);
  }

  // A 64-bit position survives being sent as two signed 32-bit halves.
  lemma PositionSurvives(p: u64)
    ensures Join(ToI32(p / TWO32), ToI32(p)) == p
  {
    Truncated(p / TWO32);
    Truncated(p);
  }
}

module ClipSpec {
  import opened MachineInts
  import opened Radix
  import opened Words

  type Name = seq<u16>

  datatype Entry = Entry(name: Name, size: u64, isDir: bool)

  datatype Request = Request(index: i32, flags: i32, posLow: i32, posHigh: i32, count: i32)
  datatype Reply = Reply(flags: i32, data: seq<byte>)

  const SIZE: i32 := 1
  const RANGE: i32 := 2
  const CHUNK: nat := 4 * 1024 * 1024
  const MAX_SERVED: nat := 256 * 1024
  const MAX_RANGE: nat := 16 * 1024 * 1024

  // RECV_STATE with the disk and the clipboard it ends up on; active is Some.
  datatype Rx = Rx(active: bool, files: seq<Entry>, index: nat, offset: u64, waiting: bool,
                   disk: map<Name, seq<byte>>, pasted: seq<seq<Name>>)

  function Path(n: Name): Name { seq(|n|, i requires 0 <= i < |n| => if n[i] == 0x2F then 0x5C else n[i]) }

  function TopLevel(files: seq<Entry>): seq<Name>
  {
    if files == [] then []
    else
      var f := files[|files| - 1];
      TopLevel(files[..|files| - 1]) + (if 0x5C !in f.name then [f.name] else [])
  }

  function NextFile(files: seq<Entry>, from: nat): (i: nat)
    ensures from <= |files| ==> from <= i <= |files|
    ensures i < |files| ==> !files[i].isDir
    ensures forall j :: from <= j < i && j < |files| ==> files[j].isDir
    decreases |files| - from
  {
    if from >= |files| then from else if !files[from].isDir then from else NextFile(files, from + 1)
  }

  function Finalize(s: Rx): Rx
  {
    if TopLevel(s.files) == [] then s else s.(pasted := s.pasted + [TopLevel(s.files)])
  }

  function SizeRequest(i: nat): Request { Request(ToI32(i), SIZE, 0, 0, 8) }

  function RangeRequest(i: nat, offset: u64, left: nat): Request
  {
    Request(ToI32(i), RANGE, ToI32(offset), ToI32(offset / TWO32), if left <= CHUNK then left else CHUNK)
  }

  function Advance(s: Rx): (Rx, seq<Request>)
  {
    var n := NextFile(s.files, s.index + 1);
    if n < |s.files| then (s.(index := n, offset := 0, waiting := true), [SizeRequest(n)])
    else (Finalize(s), [])
  }

  function Store(s: Rx, data: seq<byte>): Rx
    requires s.index < |s.files|
  {
    s.(disk := s.disk[Path(s.files[s.index].name) := data])
  }

  function Stored(s: Rx): seq<byte>
    requires s.index < |s.files|
  {
    var p := Path(s.files[s.index].name);
    if p in s.disk then s.disk[p] else []
  }

  function LeSize(d: seq<byte>): u64
    requires |d| >= 8
  {
    ValRange(0x100, d[..8]);
    Eight();
    Val(0x100, d[..8])
  }

  lemma Eight()
    ensures Pow(0x100, 8) == TWO64 && Pow(0x100, 4) == TWO32
  {
    assert Pow(0x100, 2) == 0x1_0000;
    PowAdd(0x100, 2, 2);
    PowAdd(0x100, 4, 4);
  }

  function Sized(s: Rx, data: seq<byte>): Rx
    requires s.index < |s.files|
  {
    var f := s.files[s.index];
    s.(waiting := false, offset := 0, files := s.files[s.index := if |data| >= 8 then f.(size := LeSize(data)) else f])
  }

  // The reply to a size request; an empty file or a directory needs no range.
  function OnSize(s: Rx, data: seq<byte>, writes: bool): (Rx, seq<Request>)
    requires s.index < |s.files|
  {
    var s := Sized(s, data);
    var f := s.files[s.index];
    if f.isDir then Advance(s)
    else if f.size == 0 then Advance(if writes then Store(s, []) else s)
    else (s, [RangeRequest(s.index, 0, f.size)])
  }

  function Wrapped(n: nat): u64 { if n < TWO64 then n else n % TWO64 }

  // The reply to a range request; the first chunk replaces the file, later ones are appended.
  function OnRange(s: Rx, data: seq<byte>, writes: bool): (Rx, seq<Request>)
    requires s.index < |s.files|
  {
    if !writes then Advance(s)
    else
      var s := Store(s, if s.offset == 0 then data else Stored(s) + data).(offset := Wrapped(s.offset + |data|));
      var f := s.files[s.index];
      if s.offset >= f.size then Advance(s)
      else (s, [RangeRequest(s.index, s.offset, f.size - s.offset)])
  }

  // writes: whether the file system accepts the write this reply leads to.
  function OnReply(s: Rx, r: Reply, writes: bool): (Rx, seq<Request>)
  {
    if !s.active then (s, [])
    else if r.flags != 1 then Advance(s)
    else if s.index >= |s.files| then (Finalize(s).(active := false), [])
    else if s.waiting then OnSize(s, r.data, writes)
    else OnRange(s, r.data, writes)
  }

  // A parsed, accepted file list starts the transfer.
  function OnList(disk: map<Name, seq<byte>>, pasted: seq<seq<Name>>, files: seq<Entry>): (Rx, seq<Request>)
  {
    var n := NextFile(files, 0);
    var s := Rx(true, files, if n < |files| then n else 0, 0, true, disk, pasted);
    if n < |files| then (s, [SizeRequest(n)]) else (Finalize(s).(active := false), [])
  }

  // ----- the serving side -----

  datatype HostFile = HostFile(name: Name, isDir: bool, size: u64, content: seq<byte>)

  function Least(a: nat, b: nat): nat { if a <= b then a else b }

  // What the read returned: any nonempty part of what was asked for and is there.
  function Chunk(content: seq<byte>, pos: nat, n: nat, short: nat): seq<byte>
  {
    if pos >= |content| || n == 0 then []
    else content[pos..pos + Least(Least(n, |content| - pos), if short == 0 then 1 else short)]
  }

  function ServeRange(f: HostFile, pos: u64, count: nat, short: nat): Reply
  {
    var left := if pos <= f.size then f.size - pos else 0;
    var n := Least(Least(count, left), MAX_SERVED);
    if f.isDir then Reply(1, [])
    else
      var d := Chunk(f.content, pos, n, short);
      if d == [] && n > 0 then Reply(2, []) else Reply(1, d)
  }

  function Serve(host: seq<HostFile>, r: Request, short: nat): Reply
  {
    if r.index < 0 || r.index >= |host| then Reply(2, [])
    else
      var f := host[r.index];
      if r.flags == SIZE then Reply(1, Spell(0x100, 4, f.size) + Spell(0x100, 4, f.size / TWO32))
      else if r.flags == RANGE then ServeRange(f, Join(r.posHigh, r.posLow), r.count % TWO32, short)
      else Reply(2, [])
  }
}

module ClipRun {
  import opened MachineInts
  import opened Radix
  import opened Words
  import opened ClipSpec

  // The served files do not change, and no two of them land on the same path.
  ghost predicate Stable(host: seq<HostFile>)
  {
    && |host| < 0x8000_0000
    && (forall i :: 0 <= i < |host| && !host[i].isDir ==> host[i].size == |host[i].content|)
    && forall i, j :: 0 <= i < j < |host| && !host[i].isDir && !host[j].isDir ==>
         Path(host[i].name) != Path(host[j].name)
  }

  ghost predicate Listed(host: seq<HostFile>, files: seq<Entry>)
  {
    && |files| == |host|
    && forall i :: 0 <= i < |host| ==> files[i].name == host[i].name && files[i].isDir == host[i].isDir
  }

  // The first n entries have arrived whole.
  ghost predicate Delivered(host: seq<HostFile>, disk: map<Name, seq<byte>>, n: nat)
  {
    n <= |host| && forall j :: 0 <= j < n && !host[j].isDir ==>
                     Path(host[j].name) in disk && disk[Path(host[j].name)] == host[j].content
  }

  datatype Sys = Sys(rx: Rx, asked: seq<Request>)

  // Where the entry under way stands, and the one request out for it.
  ghost predicate UnderWay(host: seq<HostFile>, s: Sys)
    requires s.rx.index < |host| && |s.rx.files| == |host|
  {
    var x, f := s.rx, host[s.rx.index];
    if x.waiting then s.asked == [SizeRequest(x.index)]
    else
      && x.files[x.index].size == f.size == |f.content| && x.offset < f.size
      && s.asked == [RangeRequest(x.index, x.offset, f.size - x.offset)]
      && (x.offset > 0 ==> Stored(x) == f.content[..x.offset])
  }

  // The last entry that is a file is through. A list without files is given up at once.
  ghost predicate AtEnd(host: seq<HostFile>, x: Rx)
    requires |x.files| == |host|
  {
    x.active ==>
      && x.index < |host| && !host[x.index].isDir && NextFile(x.files, x.index + 1) >= |host|
      && Through(host, x)
  }

  predicate Through(host: seq<HostFile>, x: Rx)
    requires x.index < |host| == |x.files|
  {
    !x.waiting && x.offset == x.files[x.index].size == |host[x.index].content|
  }

  ghost predicate Good(host: seq<HostFile>, before: seq<seq<Name>>, s: Sys)
  {
    && Stable(host) && Listed(host, s.rx.files)
    && if s.asked == [] then
         Delivered(host, s.rx.disk, |host|) && s.rx.pasted == Pasted(before, s.rx.files) && AtEnd(host, s.rx)
       else
         && s.rx.active && s.rx.index < |host| && !host[s.rx.index].isDir && s.rx.pasted == before
         && Delivered(host, s.rx.disk, s.rx.index) && UnderWay(host, s)
  }

  function Pasted(before: seq<seq<Name>>, files: seq<Entry>): seq<seq<Name>>
  {
    if TopLevel(files) == [] then before else before + [TopLevel(files)]
  }

  // One exchange: the host answers the request, the receiver takes the reply.
  function Step(host: seq<HostFile>, s: Sys, short: nat): Sys
    requires s.asked != []
  {
    var (rx, out) := OnReply(s.rx, Serve(host, s.asked[0], short), true);
    Sys(rx, out)
  }

  function BytesLeft(x: Rx): nat
  {
    if x.index < |x.files| && x.offset < x.files[x.index].size then x.files[x.index].size - x.offset else 0
  }

  ghost predicate Smaller(x: Rx, y: Rx)
  {
    && |x.files| == |y.files|
    && (|| x.index > y.index
        || (x.index == y.index && !x.waiting && y.waiting)
        || (x.index == y.index && x.waiting == y.waiting && BytesLeft(x) < BytesLeft(y)))
  }

  lemma TopLevelNames(a: seq<Entry>, b: seq<Entry>)
    requires |a| == |b| && forall i :: 0 <= i < |a| ==> a[i].name == b[i].name
    ensures TopLevel(a) == TopLevel(b)
  {
    if a != [] { TopLevelNames(a[..|a| - 1], b[..|a| - 1]); }
  }

  // A finished entry hands over to the next one, or ends the run.
  lemma AdvanceGood(host: seq<HostFile>, before: seq<seq<Name>>, x: Rx)
    requires Stable(host) && Listed(host, x.files) && x.active && x.index < |host| && x.pasted == before
    requires Delivered(host, x.disk, x.index + 1) && !host[x.index].isDir && Through(host, x)
    ensures var (y, out) := Advance(x);
            && Good(host, before, Sys(y, out)) && |out| <= 1
            && (out != [] ==>
                  y.waiting && y.index == NextFile(x.files, x.index + 1) && y.files == x.files && y.index > x.index)
            && (out == [] ==> NextFile(x.files, x.index + 1) == |host|)
  {
    var n := NextFile(x.files, x.index + 1);
    DirectoriesPassed(host, x.disk, x.index + 1, n);
  }

  lemma DirectoriesPassed(host: seq<HostFile>, disk: map<Name, seq<byte>>, i: nat, n: nat)
    requires Delivered(host, disk, i) && i <= n <= |host| && forall j :: i <= j < n ==> host[j].isDir
    ensures Delivered(host, disk, n)
  {
  }

  lemma StoreDelivers(host: seq<HostFile>, x: Rx, data: seq<byte>)
    requires Stable(host) && Listed(host, x.files) && x.index < |host| && !host[x.index].isDir
    requires Delivered(host, x.disk, x.index)
    ensures Delivered(host, Store(x, data).disk, x.index) && Stored(Store(x, data)) == data
    ensures data == host[x.index].content ==> Delivered(host, Store(x, data).disk, x.index + 1)
  {
    var p := Path(host[x.index].name);
    forall j | 0 <= j < x.index && !host[j].isDir ensures Path(host[j].name) != p {
    }
  }

  lemma IndexSurvives(host: seq<HostFile>, i: nat)
    requires Stable(host) && i < |host|
    ensures ToI32(i) == i
  {
  }

  // The size arrives exactly.
  lemma SizeReply(size: u64)
    ensures var d := Spell(0x100, 4, size) + Spell(0x100, 4, size / TWO32); |d| == 8 && LeSize(d) == size
  {
    var a, b := Spell(0x100, 4, size), Spell(0x100, 4, size / TWO32);
    Eight();
    assert (a + b)[..8] == a + b;
    ValConcat(0x100, a, b);
    SpellMod(0x100, 4, size);
    SpellMod(0x100, 4, size / TWO32);
    assert Val(0x100, a) == size % TWO32 && Val(0x100, b) == size / TWO32;
  }

  lemma SizeServed(host: seq<HostFile>, i: nat, short: nat) returns (data: seq<byte>)
    requires Stable(host) && i < |host|
    ensures Serve(host, SizeRequest(i), short) == Reply(1, data) && |data| == 8 && LeSize(data) == host[i].size
  {
    IndexSurvives(host, i);
    SizeReply(host[i].size);
    data := Spell(0x100, 4, host[i].size) + Spell(0x100, 4, host[i].size / TWO32);
  }

  // What the size changes: nothing but the size.
  ghost predicate TookSize(host: seq<HostFile>, x: Rx, y: Rx)
  {
    && x.index < |host| == |x.files| && x.files[x.index].isDir == host[x.index].isDir
    && y == x.(waiting := false, offset := 0,
               files := x.files[x.index := x.files[x.index].(size := host[x.index].size)])
  }

  lemma SizeTaken(host: seq<HostFile>, s: Sys, data: seq<byte>) returns (y: Rx)
    requires s.rx.active && s.rx.waiting && s.rx.index < |host| && Listed(host, s.rx.files) && !host[s.rx.index].isDir
    requires |data| == 8 && LeSize(data) == host[s.rx.index].size
    ensures TookSize(host, s.rx, y)
    ensures OnReply(s.rx, Reply(1, data), true)
         == if host[s.rx.index].size == 0 then Advance(Store(y, []))
            else (y, [RangeRequest(y.index, 0, host[s.rx.index].size)])
  {
    y := Sized(s.rx, data);
  }

  lemma EmptyFileGood(host: seq<HostFile>, before: seq<seq<Name>>, s: Sys, y: Rx)
    requires Good(host, before, s) && s.asked != [] && s.rx.waiting && TookSize(host, s.rx, y)
    requires host[s.rx.index].size == 0
    ensures var t := Sys(Advance(Store(y, [])).0, Advance(Store(y, [])).1); Good(host, before, t) && Moved(s, t)
  {
    StoreDelivers(host, y, []);
    AdvanceGood(host, before, Store(y, []));
  }

  lemma SizedFileGood(host: seq<HostFile>, before: seq<seq<Name>>, s: Sys, y: Rx)
    requires Good(host, before, s) && s.asked != [] && s.rx.waiting && TookSize(host, s.rx, y)
    requires host[s.rx.index].size > 0
    ensures var t := Sys(y, [RangeRequest(y.index, 0, host[s.rx.index].size)]); Good(host, before, t) && Moved(s, t)
  {
  }

  lemma SizeStep(host: seq<HostFile>, before: seq<seq<Name>>, s: Sys, short: nat)
    requires Good(host, before, s) && s.asked != [] && s.rx.waiting
    ensures var t := Step(host, s, short); Good(host, before, t) && Moved(s, t)
  {
    var data := SizeServed(host, s.rx.index, short);
    StepFrom(host, s, short, Reply(1, data));
    var y := SizeTaken(host, s, data);
    if host[s.rx.index].size == 0 { EmptyFileGood(host, before, s, y); } else { SizedFileGood(host, before, s, y); }
  }

  // What is asked for is there, and at least one byte of it comes.
  lemma RangeServed(f: HostFile, offset: u64, count: nat, short: nat) returns (k: nat)
    requires !f.isDir && offset < f.size == |f.content| && count > 0
    ensures 0 < k <= f.size - offset
    ensures ServeRange(f, offset, count, short) == Reply(1, f.content[offset..offset + k])
  {
    var n := Least(Least(count, f.size - offset), MAX_SERVED);
    k := Least(Least(n, |f.content| - offset), if short == 0 then 1 else short);
  }

  lemma RangeReply(host: seq<HostFile>, i: nat, offset: u64, left: nat, short: nat)
    requires Stable(host) && i < |host|
    ensures Serve(host, RangeRequest(i, offset, left), short)
         == ServeRange(host[i], offset, if left <= CHUNK then left else CHUNK, short)
  {
    IndexSurvives(host, i);
    PositionSurvives(offset);
    var r := RangeRequest(i, offset, left);
    assert r.count % TWO32 == r.count;
  }

  // A chunk is stored behind what is already there.
  lemma RangeResult(x: Rx, d: seq<byte>)
    requires x.active && !x.waiting && x.index < |x.files| && x.offset + |d| < TWO64
    ensures var y := Store(x, if x.offset == 0 then d else Stored(x) + d).(offset := x.offset + |d|);
            var size := x.files[x.index].size;
            OnRange(x, d, true)
              == (if y.offset >= size then Advance(y) else (y, [RangeRequest(y.index, y.offset, size - y.offset)]))
  {
  }

  lemma RangeStored(host: seq<HostFile>, x: Rx, all: seq<byte>, offset: u64)
    requires Stable(host) && Listed(host, x.files) && x.index < |host| && !host[x.index].isDir
    requires Delivered(host, x.disk, x.index)
    requires offset <= host[x.index].size && all == host[x.index].content[..offset]
    ensures var y := Store(x, all).(offset := offset);
            && Listed(host, y.files) && Delivered(host, y.disk, y.index) && Stored(y) == all
            && (offset == host[x.index].size ==> Delivered(host, y.disk, y.index + 1))
  {
    StoreDelivers(host, x, all);
    var y := Store(x, all).(offset := offset);
    assert y.disk == Store(x, all).disk && Stored(y) == Stored(Store(x, all));
    if offset == host[x.index].size { assert all == host[x.index].content; }
  }

  lemma Extends(content: seq<byte>, offset: nat, k: nat)
    requires offset + k <= |content|
    ensures content[..offset] + content[offset..offset + k] == content[..offset + k]
    ensures offset == 0 ==> content[offset..offset + k] == content[..offset + k]
  {
  }

  // k more bytes of the file under way.
  ghost predicate Received(host: seq<HostFile>, x: Rx, k: nat, y: Rx)
    requires x.index < |host| && x.offset + k <= |host[x.index].content| < TWO64 && x.index < |x.files|
  {
    y == Store(x, host[x.index].content[..x.offset + k]).(offset := x.offset + k)
  }

  lemma RangeGoes(host: seq<HostFile>, before: seq<seq<Name>>, s: Sys, k: nat, y: Rx)
    requires Good(host, before, s) && s.asked != [] && !s.rx.waiting
    requires 0 < k && s.rx.offset + k <= host[s.rx.index].size && Received(host, s.rx, k, y)
    ensures var size := host[s.rx.index].size;
            var t := if y.offset < size then Sys(y, [RangeRequest(y.index, y.offset, size - y.offset)])
                     else Sys(Advance(y).0, Advance(y).1);
            Good(host, before, t) && Moved(s, t)
  {
    RangeStored(host, s.rx, host[s.rx.index].content[..s.rx.offset + k], s.rx.offset + k);
    if y.offset == host[s.rx.index].size { AdvanceGood(host, before, y); }
  }

  lemma RangeAnswered(host: seq<HostFile>, i: nat, offset: u64, r: Request, short: nat) returns (k: nat)
    requires i < |host| && !host[i].isDir && offset < host[i].size == |host[i].content|
    requires var left := host[i].size - offset;
             Serve(host, r, short) == ServeRange(host[i], offset, if left <= CHUNK then left else CHUNK, short)
    ensures 0 < k && offset + k <= |host[i].content|
    ensures Serve(host, r, short) == Reply(1, host[i].content[offset..offset + k])
  {
    var left := host[i].size - offset;
    k := RangeServed(host[i], offset, if left <= CHUNK then left else CHUNK, short);
  }

  lemma RangeStoredHere(x: Rx, content: seq<byte>, k: nat)
    requires x.active && !x.waiting && x.index < |x.files| && x.offset + k <= |content| < TWO64
    requires x.offset > 0 ==> Stored(x) == content[..x.offset]
    ensures var y := Store(x, content[..x.offset + k]).(offset := x.offset + k);
            var size := x.files[x.index].size;
            OnReply(x, Reply(1, content[x.offset..x.offset + k]), true)
              == (if y.offset >= size then Advance(y) else (y, [RangeRequest(y.index, y.offset, size - y.offset)]))
  {
    Extends(content, x.offset, k);
    RangeResult(x, content[x.offset..x.offset + k]);
  }

  // What matters of a receiver in the middle of a file.
  ghost predicate AtRange(host: seq<HostFile>, s: Sys)
  {
    && s.asked != [] && s.rx.active && !s.rx.waiting && s.rx.index < |host| && |s.rx.files| == |host|
    && !host[s.rx.index].isDir
    && s.rx.files[s.rx.index].size == host[s.rx.index].size == |host[s.rx.index].content|
    && s.rx.offset < host[s.rx.index].size
    && (s.rx.offset > 0 ==> Stored(s.rx) == host[s.rx.index].content[..s.rx.offset])
  }

  lemma GoodAtRange(host: seq<HostFile>, before: seq<seq<Name>>, s: Sys)
    requires Good(host, before, s) && s.asked != [] && !s.rx.waiting
    ensures AtRange(host, s) && s.asked[0] == RangeRequest(s.rx.index, s.rx.offset, host[s.rx.index].size - s.rx.offset)
  {
  }

  lemma RangeReceived(host: seq<HostFile>, s: Sys, short: nat) returns (k: nat, y: Rx)
    requires AtRange(host, s)
    requires var left := host[s.rx.index].size - s.rx.offset;
             Serve(host, s.asked[0], short)
               == ServeRange(host[s.rx.index], s.rx.offset, if left <= CHUNK then left else CHUNK, short)
    ensures 0 < k && s.rx.offset + k <= host[s.rx.index].size && Received(host, s.rx, k, y)
    ensures var size := host[s.rx.index].size;
            Step(host, s, short)
              == (if y.offset < size then Sys(y, [RangeRequest(y.index, y.offset, size - y.offset)])
                  else Sys(Advance(y).0, Advance(y).1))
  {
    k := RangeAnswered(host, s.rx.index, s.rx.offset, s.asked[0], short);
    y := Store(s.rx, host[s.rx.index].content[..s.rx.offset + k]).(offset := s.rx.offset + k);
    RangeCore(host, s, short, host[s.rx.index].content, k);
  }

  lemma RangeCore(host: seq<HostFile>, s: Sys, short: nat, content: seq<byte>, k: nat)
    requires s.asked != [] && s.rx.active && !s.rx.waiting && s.rx.index < |s.rx.files|
    requires s.rx.offset + k <= |content| < TWO64
    requires s.rx.offset > 0 ==> Stored(s.rx) == content[..s.rx.offset]
    requires Serve(host, s.asked[0], short) == Reply(1, content[s.rx.offset..s.rx.offset + k])
    ensures var y := Store(s.rx, content[..s.rx.offset + k]).(offset := s.rx.offset + k);
            var size := s.rx.files[s.rx.index].size;
            Step(host, s, short)
              == (if y.offset >= size then Sys(Advance(y).0, Advance(y).1)
                  else Sys(y, [RangeRequest(y.index, y.offset, size - y.offset)]))
  {
    RangeStoredHere(s.rx, content, k);
    StepFrom(host, s, short, Reply(1, content[s.rx.offset..s.rx.offset + k]));
  }

  lemma StepFrom(host: seq<HostFile>, s: Sys, short: nat, r: Reply)
    requires s.asked != [] && Serve(host, s.asked[0], short) == r
    ensures Step(host, s, short) == Sys(OnReply(s.rx, r, true).0, OnReply(s.rx, r, true).1)
  {
  }

  lemma RangeStep(host: seq<HostFile>, before: seq<seq<Name>>, s: Sys, short: nat)
    requires Good(host, before, s) && s.asked != [] && !s.rx.waiting
    ensures var t := Step(host, s, short); Good(host, before, t) && Moved(s, t)
  {
    GoodAtRange(host, before, s);
    RangeReply(host, s.rx.index, s.rx.offset, host[s.rx.index].size - s.rx.offset, short);
    var k, y := RangeReceived(host, s, short);
    RangeGoes(host, before, s, k, y);
  }

  // Either the run is over, or the next file is asked for its size, or more of the same file is.
  ghost predicate Moved(s: Sys, t: Sys)
    requires s.asked != []
  {
    && SameKinds(t.rx.files, s.rx.files)
    && if t.asked == [] then NextFile(t.rx.files, s.rx.index + 1) >= |t.rx.files|
       else
         && Smaller(t.rx, s.rx) && t.rx.index < |t.rx.files|
         && (t.rx.waiting ==> t.rx.index == NextFile(t.rx.files, s.rx.index + 1))
         && (!t.rx.waiting ==> t.rx.index == s.rx.index)
  }

  lemma StepGood(host: seq<HostFile>, before: seq<seq<Name>>, s: Sys, short: nat)
    requires Good(host, before, s) && s.asked != []
    ensures var t := Step(host, s, short); Good(host, before, t) && Moved(s, t)
  {
    if s.rx.waiting { SizeStep(host, before, s, short); } else { RangeStep(host, before, s, short); }
  }

  // The rest of a run, with every request it makes; what each read returns is up to shorts.
  ghost function Run(host: seq<HostFile>, before: seq<seq<Name>>, s: Sys, shorts: nat -> nat,
                     k: nat): (r: (Rx, seq<Request>))
    requires Good(host, before, s)
    decreases if s.asked == [] then 0 else 1, |host| - s.rx.index, s.rx.waiting, BytesLeft(s.rx)
  {
    if s.asked == [] then (s.rx, [])
    else
      StepGood(host, before, s, shorts(k));
      var (x, log) := Run(host, before, Step(host, s, shorts(k)), shorts, k + 1);
      (x, s.asked + log)
  }

  // The files a list holds from position i on.
  function FilesFrom(files: seq<Entry>, i: nat): seq<int>
    decreases |files| - i
  {
    var n := NextFile(files, i);
    if n >= |files| then [] else [n] + FilesFrom(files, n + 1)
  }

  function Fetches(log: seq<Request>): seq<int>
  {
    if log == [] then [] else (if log[0].flags == SIZE then [log[0].index] else []) + Fetches(log[1..])
  }

  function StillToFetch(x: Rx): seq<int>
  {
    if x.waiting then [x.index] + FilesFrom(x.files, x.index + 1) else FilesFrom(x.files, x.index + 1)
  }

  predicate SameKinds(a: seq<Entry>, b: seq<Entry>)
  {
    |a| == |b| && forall j :: 0 <= j < |a| ==> a[j].isDir == b[j].isDir
  }

  lemma FilesFromNext(files: seq<Entry>, i: nat, n: nat)
    requires n == NextFile(files, i)
    ensures FilesFrom(files, i) == if n >= |files| then [] else [n] + FilesFrom(files, n + 1)
  {
  }

  lemma NextIsLater(files: seq<Entry>, i: nat)
    requires NextFile(files, i) < |files|
    ensures i <= NextFile(files, i)
  {
  }

  lemma {:induction false} FilesFromSame(a: seq<Entry>, b: seq<Entry>, i: nat)
    requires SameKinds(a, b)
    ensures FilesFrom(a, i) == FilesFrom(b, i)
    decreases |a| - i
  {
    NextFileSame(a, b, i);
    var n := NextFile(a, i);
    if n < |a| {
      NextIsLater(a, i);
      FilesFromSame(a, b, n + 1);
    }
    SameRest(a, b, i, n);
  }

  lemma SameRest(a: seq<Entry>, b: seq<Entry>, i: nat, n: nat)
    requires n == NextFile(a, i) == NextFile(b, i) && |a| == |b|
    requires n < |a| ==> FilesFrom(a, n + 1) == FilesFrom(b, n + 1)
    ensures FilesFrom(a, i) == FilesFrom(b, i)
  {
    FilesFromNext(a, i, n);
    FilesFromNext(b, i, n);
  }

  lemma {:induction false} NextFileSame(a: seq<Entry>, b: seq<Entry>, i: nat)
    requires SameKinds(a, b)
    ensures NextFile(a, i) == NextFile(b, i)
    decreases |a| - i
  {
    if i < |a| && a[i].isDir { NextFileSame(a, b, i + 1); }
  }

  lemma FetchesCons(r: Request, log: seq<Request>)
    ensures Fetches([r] + log) == (if r.flags == SIZE then [r.index] else []) + Fetches(log)
  {
    assert ([r] + log)[1..] == log;
  }

  // One step fetches what the list says is next.
  lemma StepFetches(host: seq<HostFile>, before: seq<seq<Name>>, s: Sys, t: Sys, rest: seq<int>)
    requires Good(host, before, s) && s.asked != [] && Moved(s, t)
    requires rest == if t.asked == [] then [] else StillToFetch(t.rx)
    ensures (if s.asked[0].flags == SIZE then [s.asked[0].index] else []) + rest == StillToFetch(s.rx)
    ensures |s.asked| == 1
  {
    SameFiles(s, t);
    RestIs(s, t, rest);
    FetchOf(s.rx, s.asked, rest);
  }

  lemma SameFiles(s: Sys, t: Sys)
    requires s.asked != [] && Moved(s, t)
    ensures FilesFrom(s.rx.files, s.rx.index + 1) == FilesFrom(t.rx.files, s.rx.index + 1)
  {
    FilesFromSame(s.rx.files, t.rx.files, s.rx.index + 1);
  }

  lemma FetchOf(x: Rx, asked: seq<Request>, rest: seq<int>)
    requires x.index < 0x8000_0000 && rest == FilesFrom(x.files, x.index + 1)
    requires if x.waiting then asked == [SizeRequest(x.index)] else |asked| == 1 && asked[0].flags == RANGE
    ensures |asked| == 1 && (if asked[0].flags == SIZE then [asked[0].index] else []) + rest == StillToFetch(x)
  {
    assert ToI32(x.index) == x.index;
  }

  lemma RestIs(s: Sys, t: Sys, rest: seq<int>)
    requires s.asked != [] && Moved(s, t)
    requires FilesFrom(s.rx.files, s.rx.index + 1) == FilesFrom(t.rx.files, s.rx.index + 1)
    requires rest == if t.asked == [] then [] else StillToFetch(t.rx)
    ensures rest == FilesFrom(s.rx.files, s.rx.index + 1)
  {
  }

  // Every run that keeps being answered ends with all files whole on disk, each asked for once
  // and in order, and the clipboard set once.
  lemma {:induction false} RunDelivers(host: seq<HostFile>, before: seq<seq<Name>>, s: Sys, shorts: nat -> nat, k: nat)
    requires Good(host, before, s)
    ensures var (x, log) := Run(host, before, s, shorts, k);
            && Delivered(host, x.disk, |host|) && x.pasted == Pasted(before, x.files) && Listed(host, x.files)
            && Fetches(log) == if s.asked == [] then [] else StillToFetch(s.rx)
    decreases if s.asked == [] then 0 else 1, |host| - s.rx.index, s.rx.waiting, BytesLeft(s.rx)
  {
    if s.asked != [] {
      var t := Step(host, s, shorts(k));
      StepGood(host, before, s, shorts(k));
      RunDelivers(host, before, t, shorts, k + 1);
      StepFetches(host, before, s, t, if t.asked == [] then [] else StillToFetch(t.rx));
      FetchesCons(s.asked[0], Run(host, before, t, shorts, k + 1).1);
      assert s.asked == [s.asked[0]];
    }
  }

  lemma ListStarts(host: seq<HostFile>, before: seq<seq<Name>>, disk: map<Name, seq<byte>>, files: seq<Entry>)
    requires Stable(host) && Listed(host, files)
    ensures var (x, out) := OnList(disk, before, files);
            && Good(host, before, Sys(x, out)) && x.files == files
            && FilesFrom(files, 0) == if out == [] then [] else StillToFetch(x)
  {
    var n := NextFile(files, 0);
    assert forall j :: 0 <= j < n && j < |host| ==> host[j].isDir;
  }

  // The whole paste, whatever was on the disk before.
  lemma PasteDelivers(host: seq<HostFile>, before: seq<seq<Name>>, disk: map<Name, seq<byte>>, files: seq<Entry>,
                      shorts: nat -> nat)
    requires Stable(host) && Listed(host, files)
    ensures Good(host, before, Sys(OnList(disk, before, files).0, OnList(disk, before, files).1))
    ensures var (y, out) := OnList(disk, before, files);
            var (x, log) := Run(host, before, Sys(y, out), shorts, 0);
            && Delivered(host, x.disk, |host|) && x.pasted == Pasted(before, files)
            && Fetches(log) == FilesFrom(files, 0)
  {
    ListStarts(host, before, disk, files);
    var s := Sys(OnList(disk, before, files).0, OnList(disk, before, files).1);
    RunDelivers(host, before, s, shorts, 0);
    TopLevelNames(Run(host, before, s, shorts, 0).0.files, files);
  }

  // ----- against any peer -----

  // Something is still expected.
  ghost predicate Pending(x: Rx)
  {
    x.active && x.index < |x.files| && (x.waiting || x.offset < x.files[x.index].size)
  }

  // Any reply at all, an error included, brings the end nearer, except one: a successful but
  // empty answer to a range request, which is simply asked for again.
  lemma AnyReplyProgress(x: Rx, r: Reply, writes: bool)
    requires Pending(x) && x.offset + |r.data| < TWO64
    ensures var (y, out) := OnReply(x, r, writes);
            && |out| <= 1 && |y.files| == |x.files|
            && (out != [] ==>
                  Pending(y) && (Smaller(y, x) <==> !(r.flags == 1 && !x.waiting && r.data == [] && writes)))
            && (out == [] ==> y.pasted == Pasted(x.pasted, y.files))
  {
    if r.flags != 1 {
      AdvanceSmaller(x);
    } else if x.waiting {
      SizeSmaller(x, r.data, writes);
    } else {
      RangeSmaller(x, r.data, writes);
    }
  }

  lemma AdvanceSmaller(x: Rx)
    requires x.active && x.index < |x.files|
    ensures var (y, out) := Advance(x);
            && |out| <= 1 && y.files == x.files
            && (out != [] ==> Pending(y) && y.index > x.index) && (out == [] ==> y.pasted == Pasted(x.pasted, y.files))
  {
  }

  lemma SizeSmaller(x: Rx, data: seq<byte>, writes: bool)
    requires Pending(x) && x.waiting
    ensures var (y, out) := OnSize(x, data, writes);
            && |out| <= 1 && |y.files| == |x.files|
            && (out != [] ==> Pending(y) && Smaller(y, x)) && (out == [] ==> y.pasted == Pasted(x.pasted, y.files))
  {
    var z := Sized(x, data);
    AdvanceSmaller(z);
    AdvanceSmaller(Store(z, []));
  }

  lemma RangeSmaller(x: Rx, data: seq<byte>, writes: bool)
    requires Pending(x) && !x.waiting && x.offset + |data| < TWO64
    ensures var (y, out) := OnRange(x, data, writes);
            && |out| <= 1 && |y.files| == |x.files|
            && (out != [] ==> Pending(y) && (Smaller(y, x) <==> !(data == [] && writes)))
            && (out == [] ==> y.pasted == Pasted(x.pasted, y.files))
  {
    if writes {
      RangeResult(x, data);
      var z := Store(x, if x.offset == 0 then data else Stored(x) + data).(offset := x.offset + |data|);
      if z.offset >= z.files[z.index].size { AdvanceSmaller(z); }
    } else {
      AdvanceSmaller(x);
    }
  }

  // ----- replies nobody asked for -----

  // A run has ended: the last file is through, and what was written of it is there.
  ghost predicate Ended(x: Rx)
  {
    x.active ==>
      && x.index < |x.files| && !x.waiting && x.offset >= x.files[x.index].size
      && NextFile(x.files, x.index + 1) >= |x.files|
      && Path(x.files[x.index].name) in x.disk && (x.offset == 0 ==> Stored(x) == [])
  }

  // The state outlives its run: each further reply sets the clipboard again, if there is anything
  // to set, and the bytes of a successful one are appended to the last file.
  lemma StrayReply(x: Rx, r: Reply, writes: bool)
    requires Ended(x) && (r.flags == 1 ==> x.offset + |r.data| < TWO64)
    ensures var (y, out) := OnReply(x, r, writes);
            && out == [] && Ended(y) && y.files == x.files && y.index == x.index && y.active == x.active
            && (y.pasted != x.pasted <==> x.active && TopLevel(x.files) != [])
            && (x.active ==> y.pasted == Pasted(x.pasted, x.files))
            && (y.disk != x.disk <==> x.active && r.flags == 1 && writes && r.data != [])
            && (y.disk != x.disk ==> y.disk == x.disk[Path(x.files[x.index].name) := Stored(x) + r.data])
            && y.offset == if x.active && r.flags == 1 && writes then x.offset + |r.data| else x.offset
  {
    if x.active {
      assert AdvanceEnds(x) by { NothingNext(x); }
      if r.flags == 1 && writes { StrayBytes(x, r.data); }
    }
  }

  ghost predicate AdvanceEnds(x: Rx) { Advance(x) == (Finalize(x), []) }

  lemma NothingNext(x: Rx)
    requires NextFile(x.files, x.index + 1) >= |x.files|
    ensures AdvanceEnds(x)
  {
  }

  lemma StrayBytes(x: Rx, data: seq<byte>)
    requires Ended(x) && x.active && x.offset + |data| < TWO64
    ensures var y := x.(disk := x.disk[Path(x.files[x.index].name) := Stored(x) + data], offset := x.offset + |data|);
            OnRange(x, data, true) == (Finalize(y), []) && Ended(y) && (y.disk != x.disk <==> data != [])
  {
    var p := Path(x.files[x.index].name);
    RangeResult(x, data);
    assert x.offset == 0 ==> Stored(x) + data == data;
    assert data == [] ==> Stored(x) + data == Stored(x) && x.disk[p := Stored(x)] == x.disk;
    assert data != [] ==> |Stored(x) + data| != |Stored(x)|;
  }

  function Strays(x: Rx, rs: seq<Reply>): Rx
  {
    if rs == [] then x else OnReply(Strays(x, rs[..|rs| - 1]), rs[|rs| - 1], true).0
  }

  function Bytes(rs: seq<Reply>): seq<byte>
  {
    if rs == [] then []
    else Bytes(rs[..|rs| - 1]) + (if rs[|rs| - 1].flags == 1 then rs[|rs| - 1].data else [])
  }

  function Times(n: nat, names: seq<Name>): seq<seq<Name>>
  {
    if n == 0 || names == [] then [] else Times(n - 1, names) + [names]
  }

  ghost predicate Strayed(x: Rx, y: Rx, n: nat, bytes: seq<byte>)
  {
    && Ended(y) && y.active && y.files == x.files && y.index == x.index && y.offset == x.offset + |bytes|
    && y.disk == x.disk[Path(x.files[x.index].name) := Stored(x) + bytes]
    && y.pasted == x.pasted + Times(n, TopLevel(x.files))
  }

  // Any number of them.
  lemma {:induction false} StrayReplies(x: Rx, rs: seq<Reply>)
    requires Ended(x) && x.active && x.offset + |Bytes(rs)| < TWO64
    ensures Strayed(x, Strays(x, rs), |rs|, Bytes(rs))
  {
    if rs == [] {
      assert Stored(x) + [] == Stored(x) && x.pasted + [] == x.pasted;
      assert x.disk[Path(x.files[x.index].name) := Stored(x)] == x.disk;
    } else {
      var n := |rs| - 1;
      StrayReplies(x, rs[..n]);
      OneMore(x, Strays(x, rs[..n]), n, Bytes(rs[..n]), rs[n]);
    }
  }

  lemma OneMore(x: Rx, y: Rx, n: nat, bytes: seq<byte>, r: Reply)
    requires Ended(x) && x.active && Strayed(x, y, n, bytes) && (r.flags == 1 ==> y.offset + |r.data| < TWO64)
    ensures Strayed(x, OnReply(y, r, true).0, n + 1, bytes + if r.flags == 1 then r.data else [])
  {
    StrayReply(y, r, true);
    if r.flags == 1 && r.data != [] {
      AppendedTwice(x.disk, Path(x.files[x.index].name), Stored(x), bytes, r.data);
    } else {
      assert bytes + [] == bytes;
    }
    OnceMore(x.pasted, n, TopLevel(x.files));
  }

  lemma AppendedTwice(disk: map<Name, seq<byte>>, p: Name, d: seq<byte>, a: seq<byte>, b: seq<byte>)
    ensures disk[p := d + a][p := (d + a) + b] == disk[p := d + (a + b)]
  {
    assert (d + a) + b == d + (a + b);
  }

  lemma OnceMore(before: seq<seq<Name>>, n: nat, t: seq<Name>)
    ensures before + Times(n + 1, t) == if t == [] then before + Times(n, t) else (before + Times(n, t)) + [t]
  {
  }

  lemma GoodEnds(host: seq<HostFile>, before: seq<seq<Name>>, s: Sys)
    requires Good(host, before, s) && s.asked == []
    ensures Ended(s.rx)
    ensures s.rx.active ==> s.rx.index < |host| && !host[s.rx.index].isDir && Stored(s.rx) == host[s.rx.index].content
                            && s.rx.offset == |Stored(s.rx)|
  {
  }

  // A finished paste and one more reply: all files stay whole exactly if it is not a success with
  // bytes in it, and the clipboard is set a second time exactly if it was set at all.
  lemma StrayAfterRun(host: seq<HostFile>, before: seq<seq<Name>>, s: Sys, shorts: nat -> nat, k: nat, r: Reply)
    requires Good(host, before, s) && (r.flags == 1 ==> Run(host, before, s, shorts, k).0.offset + |r.data| < TWO64)
    ensures var x := Run(host, before, s, shorts, k).0;
            var y := OnReply(x, r, true).0;
            && x.pasted == before + Times(1, TopLevel(x.files)) && Delivered(host, x.disk, |host|)
            && y.pasted == before + Times(if x.active then 2 else 1, TopLevel(x.files))
            && (Delivered(host, y.disk, |host|) <==> !(x.active && r.flags == 1 && r.data != []))
  {
    RunDelivers(host, before, s, shorts, k);
    RunEnds(host, before, s, shorts, k);
    StrayAtEnd(host, before, Run(host, before, s, shorts, k).0, r);
  }

  lemma StrayAtEnd(host: seq<HostFile>, before: seq<seq<Name>>, x: Rx, r: Reply)
    requires Good(host, before, Sys(x, [])) && (r.flags == 1 ==> x.offset + |r.data| < TWO64)
    ensures var y := OnReply(x, r, true).0;
            && x.pasted == before + Times(1, TopLevel(x.files))
            && y.pasted == before + Times(if x.active then 2 else 1, TopLevel(x.files))
            && (Delivered(host, y.disk, |host|) <==> !(x.active && r.flags == 1 && r.data != []))
  {
    GoodEnds(host, before, Sys(x, []));
    StrayReply(x, r, true);
    TwiceIs(before, TopLevel(x.files));
    if x.active && r.flags == 1 && r.data != [] { assert |Stored(x) + r.data| != |Stored(x)|; }
  }

  lemma TwiceIs(before: seq<seq<Name>>, t: seq<Name>)
    ensures Times(1, t) == if t == [] then [] else [t]
    ensures t != [] ==> before + Times(2, t) == (before + Times(1, t)) + [t]
    ensures t == [] ==> before + Times(2, t) == before == before + Times(1, t)
  {
    assert Times(0, t) == [] && Times(2, t) == Times(1 + 1, t);
    assert t != [] ==> Times(2, t) == Times(1, t) + [t];
  }

  lemma {:induction false} RunEnds(host: seq<HostFile>, before: seq<seq<Name>>, s: Sys, shorts: nat -> nat, k: nat)
    requires Good(host, before, s)
    ensures Good(host, before, Sys(Run(host, before, s, shorts, k).0, []))
    decreases if s.asked == [] then 0 else 1, |host| - s.rx.index, s.rx.waiting, BytesLeft(s.rx)
  {
    if s.asked != [] {
      StepGood(host, before, s, shorts(k));
      RunEnds(host, before, Step(host, s, shorts(k)), shorts, k + 1);
    }
  }
}
