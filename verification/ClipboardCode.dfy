// The message handlers of src/clipboard_file.rs as they run, against ClipSpec.

module ClipCode {
  import opened MachineInts
  import opened Radix
  import opened Words
  import opened ClipSpec
  import Bits

  // RECV_STATE, the temporary directory's files and the clipboard.
  class Receiver {
    var active: bool
    var files: seq<Entry>
    var currentIndex: nat
    var currentOffset: u64
    var waitingSize: bool
    var disk: map<Name, seq<byte>>
    var pasted: seq<seq<Name>>

    constructor (disk: map<Name, seq<byte>>)
      ensures !active && this.disk == disk && pasted == []
    {
      active, files, currentIndex, currentOffset, waitingSize := false, [], 0, 0, false;
      this.disk, pasted := disk, [];
    }

    ghost function View(): Rx
      reads this
    {
      Rx(active, files, currentIndex, currentOffset, waitingSize, disk, pasted)
    }

    method FinalizeReceivedFiles()
      modifies this`pasted
      ensures View() == Finalize(old(View()))
    {
      var topLevel: seq<Name> := [];
      assert files[..0] == [];
      for i := 0 to |files|
        invariant topLevel == TopLevel(files[..i])
      {
        assert files[..i + 1][..i] == files[..i];
        if 0x5C !in files[i].name {
          topLevel := topLevel + [files[i].name];
        }
      }
      assert files[..|files|] == files;
      if topLevel != [] {
        pasted := pasted + [topLevel];
      }
    }

    method AdvanceToNextFile() returns (out: seq<Request>)
      modifies this
      ensures (View(), out) == Advance(old(View()))
    {
      var next := currentIndex + 1;
      while next < |files| && files[next].isDir
        invariant NextFile(files, next) == NextFile(files, currentIndex + 1)
      {
        next := next + 1;
      }
      if next < |files| {
        currentIndex, currentOffset, waitingSize := next, 0, true;
        out := [Request(ToI32(next), SIZE, 0, 0, 8)];
      } else {
        FinalizeReceivedFiles();
        out := [];
      }
    }

    // handle_format_data_response once the list is parsed and its names are accepted.
    method StartTransfer(entries: seq<Entry>) returns (out: seq<Request>)
      modifies this
      ensures (View(), out) == OnList(old(disk), old(pasted), entries)
    {
      var first := 0;
      while first < |entries| && entries[first].isDir
        invariant NextFile(entries, first) == NextFile(entries, 0)
      {
        first := first + 1;
      }
      active, files, currentOffset, waitingSize := true, entries, 0, true;
      if first < |entries| {
        currentIndex := first;
        out := [Request(ToI32(first), SIZE, 0, 0, 8)];
      } else {
        currentIndex := 0;
        FinalizeReceivedFiles();
        active := false;
        out := [];
      }
    }

    method HandleFileContentsResponse(resp: Reply, writes: bool) returns (out: seq<Request>)
      modifies this
      ensures (View(), out) == OnReply(old(View()), resp, writes)
    {
      if !active { return []; }
      if resp.flags != 1 {
        out := AdvanceToNextFile();
        return;
      }
      if currentIndex >= |files| {
        FinalizeReceivedFiles();
        active := false;
        return [];
      }
      if waitingSize {
        out := TakeSize(resp.data, writes);
      } else {
        out := TakeRange(resp.data, writes);
      }
    }

    method TakeSize(data: seq<byte>, writes: bool) returns (out: seq<Request>)
      requires currentIndex < |files|
      modifies this
      ensures (View(), out) == OnSize(old(View()), data, writes)
    {
      var idx := currentIndex;
      if |data| >= 8 {
        var size := TwoWords(data);
        files := files[idx := files[idx].(size := size)];
      }
      waitingSize, currentOffset := false, 0;
      ghost var sized := View();
      assert sized == Sized(old(View()), data);
      if files[idx].size == 0 || files[idx].isDir {
        if !files[idx].isDir && writes {
          disk := disk[Path(files[idx].name) := []];
          assert View() == Store(sized, []);
        }
        out := AdvanceToNextFile();
        return;
      }
      var chunk := if files[idx].size <= CHUNK then files[idx].size else CHUNK;
      out := [Request(ToI32(idx), RANGE, 0, 0, chunk)];
      assert ToI32(0) == 0;
    }

    method TakeRange(data: seq<byte>, writes: bool) returns (out: seq<Request>)
      requires currentIndex < |files|
      modifies this
      ensures (View(), out) == OnRange(old(View()), data, writes)
    {
      if !writes {
        out := AdvanceToNextFile();
        return;
      }
      WriteChunk(data);
      var idx := currentIndex;
      if currentOffset >= files[idx].size {
        out := AdvanceToNextFile();
        return;
      }
      var remaining := files[idx].size - currentOffset;
      var chunk := if remaining <= CHUNK then remaining else CHUNK;
      out := [Request(ToI32(idx), RANGE, ToI32(currentOffset), ToI32(currentOffset / TWO32), chunk)];
    }

    // The first chunk replaces the file, later ones are appended.
    method WriteChunk(data: seq<byte>)
      requires currentIndex < |files|
      modifies this`disk, this`currentOffset
      ensures var s := old(View());
              var stored := if s.offset == 0 then data else Stored(s) + data;
              View() == Store(s, stored).(offset := Wrapped(s.offset + |data|))
    {
      var path := Path(files[currentIndex].name);
      if currentOffset == 0 {
        disk := disk[path := data];
      } else {
        disk := disk[path := (if path in disk then disk[path] else []) + data];
      }
      currentOffset := Wrapped(currentOffset + |data|);
    }
  }

  // Two little-endian words, low first: (high << 32) | low.
  method TwoWords(data: seq<byte>) returns (size: u64)
    requires |data| >= 8
    ensures size == LeSize(data)
  {
    var low, high := Val(0x100, data[..4]), Val(0x100, data[4..8]);
    Words8(data);
    Pow2At32();
    Bits.OrComm(low, high * TWO32);
    Bits.OrFields(low, high, 32);
    size := Bits.Or(high * TWO32, low);
  }

  lemma Words8(data: seq<byte>)
    requires |data| >= 8
    ensures 0 <= Val(0x100, data[..4]) < TWO32 && LeSize(data) == Val(0x100, data[..4]) + TWO32 * Val(0x100, data[4..8])
  {
    Eight();
    ValRange(0x100, data[..4]);
    ValConcat(0x100, data[..4], data[4..8]);
    assert data[..4] + data[4..8] == data[..8];
  }

  // A read of at most size bytes; short says how many the file system felt like returning.
  method ReadFileChunk(content: seq<byte>, offset: u64, size: nat, short: nat) returns (d: seq<byte>)
    ensures d == Chunk(content, offset, size, short)
  {
    if offset >= |content| || size == 0 { return []; }
    var there := |content| - offset;
    var n := if size <= there then size else there;
    var some := if short == 0 then 1 else short;
    d := content[offset..offset + (if n <= some then n else some)];
  }

  method HandleFileContentsRequest(files: seq<HostFile>, req: Request, short: nat) returns (r: Reply)
    ensures r == Serve(files, req, short)
  {
    if req.index < 0 || req.index >= |files| { return Reply(2, []); }
    var file := files[req.index];
    if req.flags == SIZE {
      r := Reply(1, Spell(0x100, 4, file.size) + Spell(0x100, 4, file.size / TWO32));
    } else if req.flags == RANGE {
      JoinFields(req.posHigh, req.posLow);
      var position: u64 := Bits.Or(AsU64(req.posHigh) * TWO32 % TWO64, Bits.And(AsU64(req.posLow), TWO32 - 1));
      r := AnswerRange(file, position, req.count % TWO32, short);
    } else {
      r := Reply(2, []);
    }
  }

  method AnswerRange(file: HostFile, position: u64, count: u32, short: nat) returns (r: Reply)
    ensures r == ServeRange(file, position, count, short)
  {
    var left := if position <= file.size then file.size - position else 0;
    var requested := if count <= left then count else left;
    if requested > MAX_SERVED { requested := MAX_SERVED; }
    if file.isDir { return Reply(1, []); }
    // at most 256 KiB is served, so the 16 MiB limit is never met
    if requested > MAX_RANGE { assert false; }
    var data := ReadFileChunk(file.content, position, requested, short);
    if data == [] && requested > 0 { return Reply(2, []); }
    r := Reply(1, data);
  }
}
