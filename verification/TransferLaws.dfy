// Single steps of a transfer in terms of the bytes of files: blocks read and written, a transfer
// taken up in the middle, cancelled, or of a file that cannot be read.

module TransferLaws {
  import opened Wrappers
  import opened MachineInts
  import opened DivMod
  import opened Radix
  import opened TransferSpec
  import opened TransferQueue
  import opened TransferSend
  import opened TransferReceive

  // ----- blocks -----

  // A read gives something as long as there is something, at most 128 KiB, from where it is asked.
  lemma ReadPart(files: Files, path: Path, offset: nat, short: nat)
    ensures var r := ReadBlock(files, path, offset, short);
            && (r.Some? <==> path in files)
            && (r.Some? ==> |r.value| <= 0x2_0000 && (r.value == [] <==> offset >= |files[path]|)
                            && (r.value != [] ==> offset + |r.value| <= |files[path]|
                                                  && r.value == files[path][offset..offset + |r.value|]))
  {
  }

  // What a write leaves: the data where it belongs, in front of it and behind what was there, and
  // zeros in between; at offset 0 nothing of what was there. No other file changes.
  lemma WriteBytes(disk: Files, path: Path, data: seq<byte>, offset: nat)
    requires data != []
    ensures var was := if path in disk && offset != 0 then disk[path] else [];
            var after := WriteBlock(disk, path, data, offset);
            && path in after && |after[path]| == (if |was| > offset + |data| then |was| else offset + |data|)
            && (forall i :: 0 <= i < |after[path]| ==>
                  after[path][i] == if offset <= i < offset + |data| then data[i - offset]
                                    else if i < |was| then was[i] else 0)
            && forall q :: q != path ==> SameAt(after, disk, q)
  {
    var was := if path in disk && offset != 0 then disk[path] else [];
    var head := if |was| >= offset then was[..offset] else was + Zeros(offset - |was|);
    var tail := if |was| >= offset + |data| then was[offset + |data|..] else [];
    assert WriteBlock(disk, path, data, offset) == disk[path := head + data + tail];
    forall i | |was| <= i < |head| ensures head[i] == 0 { ZeroAt(offset - |was|, i - |was|); }
  }

  lemma ZeroAt(n: nat, k: nat)
    requires k < n
    ensures Zeros(n)[k] == 0
  {
  }

  // ----- taking up a transfer -----

  // A job visited n times.
  function Visited(files: Files, j: SendJob, shorts: nat -> nat, n: nat): (SendJob, seq<Response>)
  {
    if n == 0 then (j, [])
    else
      var (j', out) := Visited(files, j, shorts, n - 1);
      var (j'', more) := Visit(files, j', shorts(n - 1));
      (j'', out + more)
  }

  // The job of a file as it is, confirmed from some offset on.
  ghost predicate Going(files: Files, j: SendJob)
  {
    j.path in files && j.fileSize == |files[j.path]| && j.confirmed && !j.done
  }

  function Start(files: Files, j: SendJob): nat
    requires j.path in files
  {
    if j.offset <= |files[j.path]| then j.offset else |files[j.path]|
  }

  // What has been sent is what lies between the start and the offset, and if it is done a Done
  // came last, and only then.
  ghost predicate Sent(files: Files, j: SendJob, from: nat, j': SendJob, out: seq<Response>, n: nat)
    requires j.path in files
  {
    && j'.path == j.path && j'.fileSize == j.fileSize && j'.confirmed && j'.id == j.id && j'.fileNum == j.fileNum
    && from <= Start(files, j') && Data(out, j.id, j.fileNum) == files[j.path][from..Start(files, j')]
    && (j'.done ==> Start(files, j') == |files[j.path]| && out != [] && out[|out| - 1] == Done(j.id, j.fileNum))
    && (!j'.done ==> Start(files, j') >= from + n)
    && (forall i :: 0 <= i < |out| && out[i].Done? ==> i == |out| - 1 && j'.done)
  }

  lemma {:induction false} VisitedSends(files: Files, j: SendJob, shorts: nat -> nat, n: nat)
    requires Going(files, j)
    ensures var (j', out) := Visited(files, j, shorts, n); Sent(files, j, Start(files, j), j', out, n)
  {
    if n > 0 {
      var (j', out) := Visited(files, j, shorts, n - 1);
      VisitedSends(files, j, shorts, n - 1);
      VisitSends(files, j, Start(files, j), j', out, shorts(n - 1), n);
    }
  }

  lemma VisitSends(files: Files, j: SendJob, from: nat, j': SendJob, out: seq<Response>, short: nat, n: nat)
    requires Going(files, j) && n > 0 && Sent(files, j, from, j', out, n - 1)
    ensures var (j'', more) := Visit(files, j', short); Sent(files, j, from, j'', out + more, n)
  {
    if j'.done {
      assert out + [] == out;
    } else if j'.offset >= j'.fileSize {
      DataSnoc(out, Done(j.id, j.fileNum), j.id, j.fileNum);
    } else {
      BlockSends(files, j, from, j', out, short, n);
    }
  }

  lemma BlockSends(files: Files, j: SendJob, from: nat, j': SendJob, out: seq<Response>, short: nat, n: nat)
    requires Going(files, j) && n > 0 && Sent(files, j, from, j', out, n - 1) && !j'.done && j'.offset < j'.fileSize
    ensures var (j'', more) := Visit(files, j', short); Sent(files, j, from, j'', out + more, n)
  {
    ReadPart(files, j'.path, j'.offset, short);
    var d := ReadBlock(files, j'.path, j'.offset, short).value;
    BlockSent(files, j, from, j', out, d, n);
  }

  lemma BlockSent(files: Files, j: SendJob, from: nat, j': SendJob, out: seq<Response>, d: seq<byte>, n: nat)
    requires Going(files, j) && n > 0 && Sent(files, j, from, j', out, n - 1) && !j'.done && j'.offset < j'.fileSize
    requires 0 < |d| && j'.offset + |d| <= |files[j.path]| && d == files[j.path][j'.offset..j'.offset + |d|]
    ensures Sent(files, j, from, Moved(j', |d|), out + [Block(j.id, j.fileNum, d, j'.blkId)], n)
  {
    var m := Block(j.id, j.fileNum, d, j'.blkId);
    DataSnoc(out, m, j.id, j.fileNum);
    Slices(files[j.path], from, j'.offset, j'.offset + |d|);
    NoDoneYet(out, m);
  }

  lemma Slices(f: seq<byte>, a: nat, b: nat, c: nat)
    requires a <= b <= c <= |f|
    ensures f[a..b] + f[b..c] == f[a..c]
  {
  }

  lemma NoDoneYet(out: seq<Response>, m: Response)
    requires !m.Done? && forall i :: 0 <= i < |out| ==> !out[i].Done?
    ensures forall i :: 0 <= i < |out + [m]| ==> !(out + [m])[i].Done?
  {
  }

  // What taking up a transfer at block b does to its job.
  lemma TakesUp(s: Sender, id: i32, f: nat, b: u32)
    requires id * 1000 + f in s.jobs
    ensures var t, k := SendConfirm(s, id, f, OffsetBlk(b)), id * 1000 + f;
            && t.log == s.log
            && t.jobs == s.jobs[k := s.jobs[k].(confirmed := true, offset := 0x2_0000 * b, blkId := b)]
  {
  }

  // It then sends the file from byte 131072 b on, and nothing else of it: always a prefix of that,
  // and after one visit more than there are bytes all of it and a Done.
  lemma TakenUp(files: Files, job: SendJob, b: u32, shorts: nat -> nat, n: nat)
    requires job.path in files && job.fileSize == |files[job.path]| && !job.done
    ensures var j := job.(confirmed := true, offset := 0x2_0000 * b, blkId := b);
            var (j', out) := Visited(files, j, shorts, n);
            Resumed(Data(out, job.id, job.fileNum), files[job.path], 0x2_0000 * b, n, j'.done)
    ensures var j := job.(confirmed := true, offset := 0x2_0000 * b, blkId := b);
            var (j', out) := Visited(files, j, shorts, n);
            j'.done ==> out != [] && out[|out| - 1] == Done(job.id, job.fileNum)
  {
    var j := job.(confirmed := true, offset := 0x2_0000 * b, blkId := b);
    VisitedSends(files, j, shorts, n);
    var (j', out) := Visited(files, j, shorts, n);
    ResumedFrom(Data(out, job.id, job.fileNum), files[job.path], j.offset, Start(files, j'), n, j'.done);
  }

  predicate Resumed(sent: seq<byte>, content: seq<byte>, at: nat, n: nat, done: bool)
  {
    var rest := if at <= |content| then content[at..] else [];
    sent <= rest && (n > |rest| ==> done) && (done ==> sent == rest)
  }

  lemma ResumedFrom(sent: seq<byte>, content: seq<byte>, at: nat, to: nat, n: nat, done: bool)
    requires var from := if at <= |content| then at else |content|;
             && from <= to <= |content| && sent == content[from..to]
             && (!done ==> to >= from + n) && (done ==> to == |content|)
    ensures Resumed(sent, content, at, n, done)
  {
  }

  // Nothing but blocks, numbered one after the other, up to the last message.
  ghost predicate Counted(j: SendJob, j': SendJob, out: seq<Response>)
  {
    && (forall i :: 0 <= i < |out| - 1 ==> BlockNo(out[i], j.blkId + i))
    && (out != [] ==> out[|out| - 1].Block? ==> BlockNo(out[|out| - 1], j.blkId + |out| - 1))
    && (!j'.done ==>
          j'.blkId == (j.blkId + |out|) % TWO32 && forall i :: 0 <= i < |out| ==> BlockNo(out[i], j.blkId + i))
  }

  predicate BlockNo(m: Response, n: nat) { m.Block? && m.blkId == n % TWO32 }

  lemma {:induction false} Numbered(files: Files, j: SendJob, shorts: nat -> nat, n: nat)
    requires Going(files, j)
    ensures Counted(j, Visited(files, j, shorts, n).0, Visited(files, j, shorts, n).1)
  {
    if n > 0 {
      Numbered(files, j, shorts, n - 1);
      VisitedSends(files, j, shorts, n - 1);
      var (j', out) := Visited(files, j, shorts, n - 1);
      VisitCounts(files, j, j', out, shorts(n - 1));
    }
  }

  lemma VisitCounts(files: Files, j: SendJob, j': SendJob, out: seq<Response>, short: nat)
    requires Counted(j, j', out) && j'.confirmed && j'.path in files
    ensures var (j'', more) := Visit(files, j', short); Counted(j, j'', out + more)
  {
    var (j'', more) := Visit(files, j', short);
    if j'.done {
      assert more == [] && out + more == out;
    } else {
      assert more == [more[0]];
      OneCounted(j, j', j'', out, more[0]);
    }
  }

  lemma OneCounted(j: SendJob, j': SendJob, j'': SendJob, out: seq<Response>, m: Response)
    requires Counted(j, j', out) && !j'.done && (m.Block? ==> m.blkId == j'.blkId)
    requires !j''.done ==> m.Block? && j''.blkId == if j'.blkId + 1 < TWO32 then j'.blkId + 1 else 0
    ensures Counted(j, j'', out + [m])
  {
    Wrap(j.blkId + |out|);
    forall i | 0 <= i < |out| ensures (out + [m])[i] == out[i] && BlockNo(out[i], j.blkId + i) { }
  }

  lemma Wrap(x: nat)
    ensures var y := x % TWO32; (x + 1) % TWO32 == if y + 1 < TWO32 then y + 1 else 0
  {
    var q := x / TWO32;
    assert x == TWO32 * q + x % TWO32;
    if x % TWO32 + 1 < TWO32 {
      QuotRem(x + 1, q, x % TWO32 + 1, TWO32);
    } else {
      QuotRem(x + 1, q + 1, 0, TWO32);
    }
  }

  // A file that cannot be read is answered with one Error and leaves the map.
  lemma Unreadable(files: Files, j: SendJob, short: nat)
    requires j.path !in files && j.confirmed && !j.done && j.offset < j.fileSize
    ensures var (j', out) := Visit(files, j, short); j'.done && out == [Error(j.id, j.fileNum)]
  {
  }

  // A cancellation takes exactly the jobs of its id away and says nothing.
  lemma Cancelled(tree: Tree, s: Sender, id: i32)
    ensures var t := Handle(tree, s, Cancel(id));
            && t.log == s.log
            && forall k :: (k in t.jobs <==> k in s.jobs && s.jobs[k].id != id)
                           && (k in t.jobs ==> t.jobs[k] == s.jobs[k])
  {
  }

  // What is asked for is announced, and every file of it waits for its confirmation from the start.
  lemma Asked(tree: Tree, s: Sender, id: i32, root: Path, f: nat)
    requires FileAt(tree(root), f)
    ensures var t := Handle(tree, s, Ask(id, root));
            && t.log == s.log + [Dir(id, tree(root))] && id * 1000 + f in t.jobs
            && t.jobs[id * 1000 + f]
               == SendJob(Located(root, tree(root)[f].name), tree(root)[f].size, 0, false, false, id, f, 0)
  {
    QueueListing(s.jobs, id, root, tree(root), Key(id, f));
    assert Under(s.jobs, id, root, tree(root), Queue(s.jobs, Listing(id, root, tree(root))), Key(id, f));
  }

  // ----- the client -----

  // Where a block of a job goes: to the file's own path, or to the destination for want of one, at
  // the offset of the file, which moves on.
  lemma BlockTaken(r: Receiver, id: i32, f: nat, data: seq<byte>)
    requires id in r.jobs && data != []
    ensures var j, y := r.jobs[id], OnBlock(r, id, f, data);
            var path := if f < |j.files| && j.files[f] != "" then j.files[f] else j.dest;
            var at := if f < |j.offsets| then j.offsets[f] else 0;
            && y.disk == WriteBlock(r.disk, path, data, at) && y.finished == r.finished
            && id in y.jobs && f < |y.jobs[id].offsets| && y.jobs[id].offsets[f] == at + |data|
            && y.jobs[id].files == j.files && y.jobs[id].doneCount == j.doneCount
            && forall i :: i in r.jobs && i != id ==> i in y.jobs && y.jobs[i] == r.jobs[i]
  {
  }

  // A Done ends a job when it is the last one its list waits for, or when there is no such job or
  // list; each time the window is told.
  lemma DoneTaken(r: Receiver, id: i32)
    ensures var y := OnDone(r, id);
            var ends := id !in r.jobs || r.jobs[id].files == [] || r.jobs[id].doneCount + 1 >= |r.jobs[id].files|;
            && y.disk == r.disk && (id in y.jobs <==> !ends)
            && y.finished == (if ends then r.finished + [id] else r.finished)
            && (!ends ==> y.jobs[id] == r.jobs[id].(doneCount := r.jobs[id].doneCount + 1))
  {
  }
}
