// What a paste puts on the clipboard and where, and what goes over the wire for it.

module ClipLaws {
  import opened MachineInts
  import opened DivMod
  import opened Radix
  import opened Words
  import opened ClipSpec
  import opened ClipRun

  // ----- the clipboard -----

  // Exactly the entries at the top level, in the order of the list.
  ghost predicate Picks(files: seq<Entry>, idx: seq<int>)
  {
    && (forall k :: 0 <= k < |idx| ==> 0 <= idx[k] < |files|)
    && (forall k, l :: 0 <= k < l < |idx| ==> idx[k] < idx[l])
    && forall i :: 0 <= i < |files| ==> (i in idx <==> 0x5C !in files[i].name)
  }

  ghost predicate NamesAt(files: seq<Entry>, idx: seq<int>, names: seq<Name>)
  {
    |names| == |idx| && forall k :: 0 <= k < |idx| ==> 0 <= idx[k] < |files| && names[k] == files[idx[k]].name
  }

  lemma {:induction false} TopLevelPicks(files: seq<Entry>) returns (idx: seq<int>)
    ensures Picks(files, idx) && NamesAt(files, idx, TopLevel(files))
  {
    if files == [] {
      idx := [];
    } else {
      var n := |files| - 1;
      var before := TopLevelPicks(files[..n]);
      if 0x5C !in files[n].name {
        idx := before + [n];
        PickLast(files, before);
        NameLast(files, before, TopLevel(files[..n]));
      } else {
        idx := before;
        PassLast(files, before);
        assert TopLevel(files) == TopLevel(files[..n]);
      }
    }
  }

  lemma PickLast(files: seq<Entry>, before: seq<int>)
    requires files != [] && Picks(files[..|files| - 1], before) && 0x5C !in files[|files| - 1].name
    ensures Picks(files, before + [|files| - 1])
  {
    var n := |files| - 1;
    var idx := before + [n];
    forall i | 0 <= i < |files| ensures i in idx <==> 0x5C !in files[i].name {
      InSnoc(before, n, i);
      if i < n { assert files[..n][i] == files[i]; }
    }
  }

  lemma InSnoc(s: seq<int>, x: int, y: int)
    ensures y in s + [x] <==> y in s || y == x
  {
  }

  lemma PassLast(files: seq<Entry>, idx: seq<int>)
    requires files != [] && Picks(files[..|files| - 1], idx) && 0x5C in files[|files| - 1].name
    ensures Picks(files, idx)
  {
    var n := |files| - 1;
    forall i | 0 <= i < |files| ensures i in idx <==> 0x5C !in files[i].name {
      if i < n { assert files[..n][i] == files[i]; }
    }
  }

  lemma NameLast(files: seq<Entry>, idx: seq<int>, names: seq<Name>)
    requires files != [] && NamesAt(files[..|files| - 1], idx, names)
    ensures NamesAt(files, idx + [|files| - 1], names + [files[|files| - 1].name])
  {
  }

  // A name is set exactly if it is listed without a backslash in it.
  lemma SetExactly(files: seq<Entry>, name: Name)
    ensures name in TopLevel(files) <==> 0x5C !in name && exists i :: 0 <= i < |files| && files[i].name == name
  {
    var idx := TopLevelPicks(files);
    forall i | 0 <= i < |files| && 0x5C !in files[i].name ensures files[i].name in TopLevel(files) {
      var k :| 0 <= k < |idx| && idx[k] == i;
      assert TopLevel(files)[k] == files[i].name;
    }
  }

  // A finished paste has set the clipboard once, to the listed names without a backslash, in their
  // order and as often as they are listed; or never, if there is none.
  lemma PasteSets(host: seq<HostFile>, before: seq<seq<Name>>, disk: map<Name, seq<byte>>, files: seq<Entry>,
                  shorts: nat -> nat) returns (idx: seq<int>, names: seq<Name>)
    requires Stable(host) && Listed(host, files)
    ensures Picks(files, idx) && NamesAt(files, idx, names)
    ensures Good(host, before, Sys(OnList(disk, before, files).0, OnList(disk, before, files).1))
    ensures Run(host, before, Sys(OnList(disk, before, files).0, OnList(disk, before, files).1), shorts, 0).0.pasted
         == if names == [] then before else before + [names]
  {
    idx := TopLevelPicks(files);
    names := TopLevel(files);
    PasteDelivers(host, before, disk, files, shorts);
  }

  // ----- paths -----

  predicate Bar(u: u16) { u == 0x2F || u == 0x5C }

  // Two names go to one place exactly if they differ at most in how their separators are written.
  lemma PathsEqual(a: Name, b: Name)
    ensures Path(a) == Path(b)
       <==> |a| == |b| && forall i :: 0 <= i < |a| ==> a[i] == b[i] || (Bar(a[i]) && Bar(b[i]))
  {
    if Path(a) == Path(b) {
      forall i | 0 <= i < |a| ensures a[i] == b[i] || (Bar(a[i]) && Bar(b[i])) { assert Path(a)[i] == Path(b)[i]; }
    }
  }

  lemma PathKept(n: Name)
    ensures 0x2F !in Path(n) && (0x2F !in n ==> Path(n) == n)
  {
  }

  // ----- the wire -----

  // The size goes out in eight bytes, least significant first.
  lemma ServedSize(host: seq<HostFile>, i: nat, lo: i32, hi: i32, n: i32, short: nat)
    requires i < |host| < 0x8000_0000
    ensures var r := Serve(host, Request(i, 1, lo, hi, n), short);
            r.flags == 1 && |r.data| == 8 && Val(0x100, r.data) == host[i].size
  {
    var size := host[i].size as int;
    Eight();
    SpellLow(size);
    SpellValue(0x100, 4, size / TWO32);
    ValConcat(0x100, Spell(0x100, 4, size), Spell(0x100, 4, size / TWO32));
  }

  lemma SpellLow(x: int)
    requires 0 <= x
    ensures Val(0x100, Spell(0x100, 4, x)) == x % TWO32
  {
    SpellMod(0x100, 4, x);
    Eight();
  }

  // A range is answered with a nonempty part of what was asked for, at most 256 KiB of it; there
  // is nothing behind the end, and an entry that is not there is an error.
  lemma ServedRange(host: seq<HostFile>, i: i32, pos: u64, n: i32, short: nat)
    ensures var r := Serve(host, Request(i, 2, ToI32(pos), ToI32(pos / TWO32), n), short);
            && (r.flags == 1 <==> 0 <= i < |host| && (host[i].isDir || r.data != [] || n == 0 || pos >= host[i].size))
            && (0 <= i < |host| && !host[i].isDir && pos < host[i].size == |host[i].content| && n != 0 ==>
                  && 0 < |r.data| <= 0x4_0000 && |r.data| <= n % TWO32 && pos + |r.data| <= |host[i].content|
                  && r.data == host[i].content[pos..pos + |r.data|])
  {
    PositionSurvives(pos);
  }

  // A size, or up to 4 MiB from where the file stands.
  predicate Asks(y: Rx, q: Request)
  {
    && q.index == y.index < |y.files|
    && (y.waiting ==> q.flags == 1 && q.count == 8)
    && (!y.waiting && y.offset <= y.files[y.index].size ==>
          && q.flags == 2 && Join(q.posHigh, q.posLow) == y.offset
          && q.count == Least(y.files[y.index].size - y.offset, 0x40_0000))
  }

  lemma RangeAsks(y: Rx)
    requires !y.waiting && y.index < |y.files| < 0x8000_0000 && y.offset <= y.files[y.index].size
    ensures Asks(y, RangeRequest(y.index, y.offset, y.files[y.index].size - y.offset))
  {
    PositionSurvives(y.offset);
  }

  lemma AdvanceAsks(x: Rx)
    requires |x.files| < 0x8000_0000
    ensures var (y, out) := Advance(x); out == [] || (|out| == 1 && Asks(y, out[0]))
  {
  }

  lemma SizeAsks(x: Rx, data: seq<byte>, writes: bool)
    requires x.index < |x.files| < 0x8000_0000
    ensures var (y, out) := OnSize(x, data, writes); out == [] || (|out| == 1 && Asks(y, out[0]))
  {
    var z := Sized(x, data);
    AdvanceAsks(z);
    AdvanceAsks(Store(z, []));
    RangeAsks(z);
  }

  // Whatever comes in, at most one request goes out, and it is for what is missing next.
  lemma AsksForNext(x: Rx, r: Reply, writes: bool)
    requires |x.files| < 0x8000_0000
    ensures var (y, out) := OnReply(x, r, writes); out == [] || (|out| == 1 && Asks(y, out[0]))
  {
    AdvanceAsks(x);
    if x.active && r.flags == 1 && x.index < |x.files| {
      if x.waiting { SizeAsks(x, r.data, writes); } else { NextRangeAsks(x, r.data, writes); }
    }
  }

  lemma NextRangeAsks(x: Rx, data: seq<byte>, writes: bool)
    requires !x.waiting && x.index < |x.files| < 0x8000_0000
    ensures var (y, out) := OnRange(x, data, writes); out == [] || (|out| == 1 && Asks(y, out[0]))
  {
    var z := Store(x, if x.offset == 0 then data else Stored(x) + data).(offset := Wrapped(x.offset + |data|));
    AdvanceAsks(x);
    AdvanceAsks(z);
    if z.offset < z.files[z.index].size { RangeAsks(z); }
  }

  // A size of eight bytes replaces the listed one, a shorter reply leaves it; no other entry changes.
  lemma SizeTaken(x: Rx, data: seq<byte>)
    requires x.index < |x.files|
    ensures var y := Sized(x, data);
            && |y.files| == |x.files| && !y.waiting && y.offset == 0
            && (forall i :: 0 <= i < |x.files| && i != x.index ==> y.files[i] == x.files[i])
            && y.files[x.index].name == x.files[x.index].name && y.files[x.index].isDir == x.files[x.index].isDir
            && y.files[x.index].size == if |data| >= 8 then Val(0x100, data[..8]) else x.files[x.index].size
  {
  }

  // An error, or a block that cannot be written, gives the file up as it is: nothing is written, and
  // the next file's size is asked for, or the clipboard set.
  lemma GivenUp(x: Rx, r: Reply, writes: bool)
    requires x.active && x.index < |x.files| && (r.flags != 1 || (!x.waiting && !writes))
    ensures var (y, out) := OnReply(x, r, writes);
            && y.disk == x.disk && y.files == x.files
            && (out == [] ==> (forall i :: x.index < i < |x.files| ==> x.files[i].isDir)
                              && y.pasted == Pasted(x.pasted, x.files))
            && (out != [] ==> x.index < y.index < |x.files| && !x.files[y.index].isDir && y.waiting
                              && y.pasted == x.pasted
                              && forall i :: x.index < i < y.index ==> x.files[i].isDir)
  {
  }
}
