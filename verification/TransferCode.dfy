// The transfer handlers of src/server.rs, src/remote.rs and src/file_transfer.rs as they run.

module TransferCode {
  import opened Wrappers
  import opened MachineInts
  import opened Radix
  import opened TransferSpec
  import opened TransferQueue

  class FileServer {
    var sendJobs: Jobs
    var sent: seq<Response>

    constructor ()
      ensures View() == Sender(map[], [])
    {
      sendJobs, sent := map[], [];
    }

    ghost function View(): Sender
      reads this
    {
      Sender(sendJobs, sent)
    }

    method QueueFile(id: i32, fileNum: nat, path: Path, size: u64)
      modifies this`sendJobs
      ensures sendJobs == Queue(old(sendJobs), [Listed(id, fileNum, path, size)])
    {
      QueueSnoc(sendJobs, [], Listed(id, fileNum, path, size));
      sendJobs := sendJobs[Key(id, fileNum) := SendJob(path, size, 0, false, false, id, fileNum, 0)];
    }

    // A directory asked for: every file of its listing under its place in the listing.
    method QueueListing(id: i32, root: Path, entries: seq<Entry>)
      modifies this`sendJobs
      ensures sendJobs == Queue(old(sendJobs), Listing(id, root, entries))
    {
      for i := 0 to |entries|
        invariant sendJobs == Queue(old(sendJobs), Listing(id, root, entries[..i]))
      {
        assert entries[..i + 1][..i] == entries[..i];
        if entries[i].isFile {
          var path := Located(root, entries[i].name);
          QueueSnoc(old(sendJobs), Listing(id, root, entries[..i]), Listed(id, i, path, entries[i].size));
          sendJobs := sendJobs[Key(id, i) := SendJob(path, entries[i].size, 0, false, false, id, i, 0)];
        } else {
          assert Listing(id, root, entries[..i]) + [] == Listing(id, root, entries[..i]);
        }
      }
      assert entries[..|entries|] == entries;
    }

    // What is asked for is announced and queued: a file by itself, or a directory's files.
    method HandleSend(tree: Tree, id: i32, root: Path)
      modifies this
      ensures View() == Handle(tree, old(View()), Ask(id, root))
    {
      var entries := tree(root);
      sent := sent + [Dir(id, entries)];
      if |entries| == 1 && entries[0] == Entry("", true, entries[0].size) {
        AloneListed(id, root, entries);
        QueueFile(id, 0, root, entries[0].size);
      } else {
        QueueListing(id, root, entries);
      }
    }

    method HandleCancel(tree: Tree, id: i32)
      modifies this`sendJobs
      ensures View() == Handle(tree, old(View()), Cancel(id))
    {
      sendJobs := map k | k in sendJobs && sendJobs[k].id != id :: sendJobs[k];
    }

    // A turn of the loop: what was read, if anything, and a pass.
    method Turn(files: Files, tree: Tree, e: Event, order: seq<int>, shorts: nat -> nat)
      modifies this
      ensures View() == Turned(files, tree, old(View()), e, order, shorts)
    {
      match e {
        case Quiet =>
        case Ask(id, root) => HandleSend(tree, id, root);
        case Confirm(id, fileNum, c) => HandleSendConfirm(id, fileNum, c);
        case Cancel(id) => HandleCancel(tree, id);
      }
      SendPendingBlocks(files, order, shorts);
    }

    method HandleSendConfirm(id: i32, fileNum: nat, c: Choice)
      modifies this
      ensures View() == SendConfirm(old(View()), id, fileNum, c)
    {
      var key := Key(id, fileNum);
      if key in sendJobs {
        var job := sendJobs[key].(confirmed := true);
        match c {
          case Skip =>
            job := job.(done := true);
            sent := sent + [Done(job.id, job.fileNum)];
          case OffsetBlk(offset) =>
            job := job.(offset := offset * BLOCK_SIZE, blkId := offset);
          case FromStart =>
        }
        sendJobs := sendJobs[key := job];
      }
    }

    // One pass over the jobs, in the order the hash map gives its keys.
    method SendPendingBlocks(files: Files, order: seq<int>, shorts: nat -> nat)
      modifies this
      ensures View() == SendPending(files, old(View()), order, shorts)
    {
      assert order[..0] == [] && sent + [] == sent;
      for i := 0 to |order|
        invariant sendJobs == Visits(files, old(sendJobs), order[..i], shorts).0
        invariant sent == old(sent) + Visits(files, old(sendJobs), order[..i], shorts).1
      {
        ghost var out := Visits(files, old(sendJobs), order[..i], shorts).1;
        ghost var was := sendJobs;
        assert order[..i + 1][..i] == order[..i];
        if order[i] in sendJobs {
          SendOne(files, order[i], shorts(i));
          Assoc(old(sent), out, Visit(files, was[order[i]], shorts(i)).1);
        }
      }
      assert order[..|order|] == order;
      sendJobs := map k | k in sendJobs && !sendJobs[k].done :: sendJobs[k];
    }

    method SendOne(files: Files, key: int, short: nat)
      requires key in sendJobs
      modifies this
      ensures var (j, out) := Visit(files, old(sendJobs)[key], short);
              sendJobs == old(sendJobs)[key := j] && sent == old(sent) + out
    {
      var job := sendJobs[key];
      if job.done || !job.confirmed {
        assert sendJobs == sendJobs[key := job] && sent == sent + [];
        return;
      }
      if job.offset >= job.fileSize {
        sent := sent + [Done(job.id, job.fileNum)];
        sendJobs := sendJobs[key := job.(done := true)];
        return;
      }
      var data := ReadFileBlock(files, job.path, job.offset, short);
      match data
      case Some(d) =>
        sent := sent + [Block(job.id, job.fileNum, d, job.blkId)];
        sendJobs := sendJobs[key := Moved(job, |d|)];
      case None =>
        sent := sent + [Error(job.id, job.fileNum)];
        sendJobs := sendJobs[key := job.(done := true)];
    }
  }

  lemma AloneListed(id: i32, root: Path, entries: seq<Entry>)
    requires |entries| == 1 && entries[0].name == "" && entries[0].isFile
    ensures Listing(id, root, entries) == [Listed(id, 0, root, entries[0].size)]
  {
    assert Listing(id, root, entries[..0]) == [];
  }

  // Seek, read at most one block, and keep what the read returned.
  method ReadFileBlock(files: Files, path: Path, offset: nat, short: nat) returns (r: Option<seq<byte>>)
    ensures r == ReadBlock(files, path, offset, short)
  {
    if path !in files { return None; }
    var f := files[path];
    if offset >= |f| { return Some([]); }
    var n := |f| - offset;
    if n > BLOCK_SIZE { n := BLOCK_SIZE; }
    if short == 0 { n := 1; } else if short < n { n := short; }
    r := Some(f[offset..offset + n]);
  }

  // Create, truncate at offset 0, seek, write.
  method WriteFileBlock(disk: Files, path: Path, data: seq<byte>, offset: nat) returns (r: Files)
    ensures r == WriteBlock(disk, path, data, offset)
  {
    if |data| == 0 { return disk; }
    var f: seq<byte> := if path in disk then disk[path] else [];
    if offset == 0 { f := []; }
    if |f| < offset {
      f := f + Zeros(offset - |f|);
      assert f[..offset] == f;
    }
    var end := offset + |data|;
    f := f[..offset] + data + (if |f| >= end then f[end..] else []);
    r := disk[path := f];
  }

  class FileReceiver {
    var jobs: map<i32, WriteJob>
    var disk: Files
    var finished: seq<i32>
    var up: seq<Event>    // sent to the server

    constructor (disk: Files)
      ensures View() == Receiver(map[], disk, []) && up == []
    {
      jobs, this.disk, finished, up := map[], disk, [], [];
    }

    ghost function View(): Receiver
      reads this
    {
      Receiver(jobs, disk, finished)
    }

    method StartDownload(id: i32, dest: Path, root: Path)
      modifies this`jobs, this`up
      ensures View() == Opened(old(View()), id, dest) && up == old(up) + [Ask(id, root)]
    {
      jobs := jobs[id := WriteJob(dest, [], [], 0)];
      up := up + [Ask(id, root)];
    }

    // The list of a job: an unsafe one ends it, otherwise every file gets its destination.
    method HandleDir(id: i32, entries: seq<Entry>)
      modifies this`jobs, this`up
      ensures View() == OnDir(old(View()), id, entries)
      ensures up == old(up) + Refusal(old(View()), Dir(id, entries))
    {
      assert up + [] == up;
      if id in jobs && !NamesSafe(entries) {
        jobs := jobs - {id};
        up := up + [Cancel(id)];
        return;
      }
      if id in jobs {
        var base := jobs[id].dest;
        var paths: seq<Path> := [];
        for i := 0 to |entries|
          invariant |paths| == i && forall f :: 0 <= f < i ==> paths[f] == Destination(base, entries[f])
        {
          var entry := entries[i];
          if entry.isFile {
            if entry.name == "" { paths := paths + [base]; } else { paths := paths + [Join(base, entry.name)]; }
          } else {
            paths := paths + [""];
          }
        }
        assert paths == Destinations(base, entries);
        jobs := jobs[id := jobs[id].(files := paths, offsets := seq(|entries|, _ => 0))];
      }
    }

    method HandleBlock(id: i32, fileNum: nat, data: seq<byte>)
      modifies this`jobs, this`disk
      ensures View() == if id in old(jobs) then OnBlock(old(View()), id, fileNum, data) else old(View())
    {
      if id in jobs {
        var job := jobs[id];
        var path := job.dest;
        if job.files != [] && fileNum < |job.files| && job.files[fileNum] != "" { path := job.files[fileNum]; }
        var offsets := job.offsets;
        while |offsets| <= fileNum
          invariant offsets == job.offsets || (|job.offsets| <= |offsets| <= fileNum + 1)
          invariant |job.offsets| <= |offsets| && offsets == job.offsets + seq(|offsets| - |job.offsets|, _ => 0)
        {
          offsets := offsets + [0];
        }
        assert offsets == Stretched(job.offsets, fileNum);
        disk := WriteFileBlock(disk, path, data, offsets[fileNum]);
        jobs := jobs[id := job.(offsets := offsets[fileNum := offsets[fileNum] + |data|])];
      }
    }

    method HandleDone(id: i32)
      modifies this`jobs, this`finished
      ensures View() == OnDone(old(View()), id)
    {
      var allDone := true;
      if id in jobs {
        var job := jobs[id];
        job := job.(doneCount := job.doneCount + 1);
        jobs := jobs[id := job];
        allDone := job.files == [] || job.doneCount >= |job.files|;
      }
      if allDone {
        jobs := jobs - {id};
        finished := finished + [id];
      }
    }

    method ProcessFileResponses(responses: seq<Response>)
      modifies this
      ensures View() == Drain(old(View()), responses)
      ensures up == old(up) + Refusals(old(View()), responses)
    {
      assert responses[..0] == [] && up + [] == up;
      for i := 0 to |responses|
        invariant View() == Drain(old(View()), responses[..i])
        invariant up == old(up) + Refusals(old(View()), responses[..i])
      {
        assert responses[..i + 1][..i] == responses[..i];
        Assoc(old(up), Refusals(old(View()), responses[..i]), Refusal(View(), responses[i]));
        assert up + [] == up;
        match responses[i] {
          case Block(id, fileNum, data, _) => HandleBlock(id, fileNum, data);
          case Done(id, _) => HandleDone(id);
          case Error(_, _) =>
          case Dir(id, entries) => HandleDir(id, entries);
        }
      }
      assert responses[..|responses|] == responses;
    }
  }
}
