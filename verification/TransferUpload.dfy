// The upload direction: the writing jobs of src/server.rs handle_file_response_server.

module TransferUpload {
  import opened Wrappers
  import opened MachineInts
  import opened TransferSpec
  import opened TransferSend
  import opened TransferQueue
  import opened TransferReceive

  datatype UpJob = UpJob(path: Path, offset: nat, id: i32, fileNum: nat, done: bool)

  datatype Uploads = Uploads(jobs: map<int, UpJob>, disk: Files, echoes: seq<Response>)

  // The job a Done is taken for: its own, or else some unfinished job of the same id, whichever
  // the hash map offers first.
  ghost predicate Resolves(jobs: map<int, UpJob>, m: Response, k: Option<int>)
    requires !m.Dir?
  {
    if Key(m.id, m.fileNum) in jobs then k == Some(Key(m.id, m.fileNum))
    else if k.Some? then k.value in jobs && jobs[k.value].id == m.id && !jobs[k.value].done
    else forall j :: j in jobs ==> jobs[j].id != m.id || jobs[j].done
  }

  function OnBlockUp(u: Uploads, key: int, data: seq<byte>): Uploads
    requires key in u.jobs
  {
    var j := u.jobs[key];
    if j.done then u
    else u.(disk := WriteBlock(u.disk, j.path, data, j.offset), jobs := u.jobs[key := j.(offset := j.offset + |data|)])
  }

  function OnDoneUp(u: Uploads, k: Option<int>): Uploads
    requires k.Some? ==> k.value in u.jobs
  {
    match k
    case None => u
    case Some(key) =>
      var j := u.jobs[key];
      u.(jobs := u.jobs[key := j.(done := true)], echoes := u.echoes + [Done(j.id, j.fileNum)])
  }

  // k is only looked at for a Done.
  function OnUpload(u: Uploads, m: Response, k: Option<int>): Uploads
    requires k.Some? ==> k.value in u.jobs
  {
    match m
    case Block(id, f, data, _) => if Key(id, f) in u.jobs then OnBlockUp(u, Key(id, f), data) else u
    case Done(_, _) => OnDoneUp(u, k)
    case Error(_, _) => u
    case Dir(_, _) => u
  }

  predicate Named(jobs: map<int, UpJob>, log: seq<Response>)
  {
    forall i :: 0 <= i < |log| ==> !log[i].Dir? && Key(log[i].id, log[i].fileNum) in jobs
  }

  // Every message finds its own job.
  function Upload(u: Uploads, log: seq<Response>): Uploads
    requires Named(u.jobs, log)
    ensures Upload(u, log).jobs.Keys == u.jobs.Keys
  {
    if log == [] then u
    else
      var n := |log| - 1;
      OnUpload(Upload(u, log[..n]), log[n], Some(Key(log[n].id, log[n].fileNum)))
  }

  ghost predicate UpKeyed(jobs: map<int, UpJob>) { forall k :: k in jobs ==> k == Key(jobs[k].id, jobs[k].fileNum) }

  ghost predicate Apart(jobs: map<int, UpJob>)
  {
    && UpKeyed(jobs) && (forall k :: k in jobs ==> jobs[k].offset == 0 && !jobs[k].done)
    && forall k, l :: k in jobs && l in jobs && k != l ==> jobs[k].path != jobs[l].path
  }

  ghost predicate UpHas(jobs: map<int, UpJob>, id: int, fileNum: int)
  {
    Key(id, fileNum) in jobs && jobs[Key(id, fileNum)].id == id && jobs[Key(id, fileNum)].fileNum == fileNum
  }

  ghost predicate Concerns(jobs: map<int, UpJob>, m: Response) { !m.Error? && !m.Dir? && UpHas(jobs, m.id, m.fileNum) }

  // Where one job stands after log.
  ghost predicate JobStands(j0: UpJob, j: UpJob, disk: Files, log: seq<Response>)
  {
    var sofar := Data(log, j0.id, j0.fileNum);
    && j == j0.(offset := |sofar|, done := j.done) && (j.done <==> SaidDone(log, j0.id, j0.fileNum))
    && (sofar != [] ==> j0.path in disk && disk[j0.path] == sofar)
  }

  function Dones(log: seq<Response>): seq<Response>
  {
    if log == [] then [] else Dones(log[..|log| - 1]) + (if log[|log| - 1].Done? then [log[|log| - 1]] else [])
  }

  ghost predicate Stands(u0: Uploads, u: Uploads, log: seq<Response>)
  {
    && u.jobs.Keys == u0.jobs.Keys && u.echoes == u0.echoes + Dones(log)
    && forall k :: k in u0.jobs ==> JobStands(u0.jobs[k], u.jobs[k], u.disk, log)
  }

  lemma OwnMessage(u0: Uploads, m: Response, k: int)
    requires Apart(u0.jobs) && Concerns(u0.jobs, m) && k in u0.jobs
    ensures Of(m, u0.jobs[k].id, u0.jobs[k].fileNum) <==> k == Key(m.id, m.fileNum)
  {
  }

  lemma BlockStands(u0: Uploads, u: Uploads, log: seq<Response>, m: Response, k: int)
    requires Apart(u0.jobs) && Stands(u0, u, log) && Concerns(u0.jobs, m) && m.Block? && k in u0.jobs
    requires !SaidDone(log, m.id, m.fileNum)
    ensures var v := OnUpload(u, m, None); k in v.jobs && JobStands(u0.jobs[k], v.jobs[k], v.disk, log + [m])
  {
    var own := Key(m.id, m.fileNum);
    OwnMessage(u0, m, k);
    OwnMessage(u0, m, own);
    var j := u0.jobs[k];
    DataSnoc(log, m, j.id, j.fileNum);
    DoneSnoc(log, m, j.id, j.fileNum);
    if m.data != [] { WriteAppends(u.disk, u0.jobs[own].path, Data(log, m.id, m.fileNum), m.data); }
  }

  lemma DoneStands(u0: Uploads, u: Uploads, log: seq<Response>, m: Response, k: int)
    requires Apart(u0.jobs) && Stands(u0, u, log) && Concerns(u0.jobs, m) && m.Done? && k in u0.jobs
    ensures var v := OnDoneUp(u, Some(Key(m.id, m.fileNum)));
            k in v.jobs && JobStands(u0.jobs[k], v.jobs[k], v.disk, log + [m])
  {
    OwnMessage(u0, m, k);
    var j := u0.jobs[k];
    DataSnoc(log, m, j.id, j.fileNum);
    DoneSnoc(log, m, j.id, j.fileNum);
  }

  lemma DonesSnoc(log: seq<Response>, m: Response)
    ensures Dones(log + [m]) == Dones(log) + (if m.Done? then [m] else [])
  {
    assert (log + [m])[..|log|] == log;
  }

  lemma MessageStands(u0: Uploads, u: Uploads, log: seq<Response>, m: Response)
    requires Apart(u0.jobs) && Stands(u0, u, log) && Concerns(u0.jobs, m) && !SaidDone(log, m.id, m.fileNum)
    ensures Key(m.id, m.fileNum) in u.jobs && Stands(u0, OnUpload(u, m, Some(Key(m.id, m.fileNum))), log + [m])
  {
    var v := OnUpload(u, m, Some(Key(m.id, m.fileNum)));
    OwnJob(u0, u, log, m);
    DonesSnoc(log, m);
    EchoesStand(u, m, u0.echoes, Dones(log));
    forall k | k in u0.jobs ensures k in v.jobs && JobStands(u0.jobs[k], v.jobs[k], v.disk, log + [m]) {
      if m.Block? { BlockStands(u0, u, log, m, k); } else { DoneStands(u0, u, log, m, k); }
    }
  }

  lemma OwnJob(u0: Uploads, u: Uploads, log: seq<Response>, m: Response)
    requires Apart(u0.jobs) && Stands(u0, u, log) && Concerns(u0.jobs, m)
    ensures var key := Key(m.id, m.fileNum); key in u.jobs && u.jobs[key].id == m.id && u.jobs[key].fileNum == m.fileNum
  {
    var key := Key(m.id, m.fileNum);
    OwnMessage(u0, m, key);
    assert JobStands(u0.jobs[key], u.jobs[key], u.disk, log);
  }

  lemma EchoesStand(u: Uploads, m: Response, before: seq<Response>, dones: seq<Response>)
    requires !m.Dir? && UpHas(u.jobs, m.id, m.fileNum)
    requires u.echoes == before + dones
    ensures var v := OnUpload(u, m, Some(Key(m.id, m.fileNum)));
            v.jobs.Keys == u.jobs.Keys && v.echoes == before + (dones + (if m.Done? then [m] else []))
  {
    Assoc(before, dones, [m]);
    assert dones + [] == dones;
  }

  // Messages about known files only, and about none after its Done.
  ghost predicate Civil(jobs: map<int, UpJob>, log: seq<Response>)
  {
    Orderly(log) && forall i :: 0 <= i < |log| ==> Concerns(jobs, log[i])
  }

  lemma CivilPrefix(jobs: map<int, UpJob>, log: seq<Response>)
    requires Civil(jobs, log)
    ensures Named(jobs, log)
    ensures var n := |log| - 1;
            n >= 0 ==> Civil(jobs, log[..n]) && Concerns(jobs, log[n]) && log == log[..n] + [log[n]]
                       && !SaidDone(log[..n], log[n].id, log[n].fileNum)
  {
  }

  // A client that is civil gets every file written byte for byte, its jobs done exactly where it
  // said so, and one echo for every Done, in order.
  lemma {:induction false} UploadRebuilds(u0: Uploads, log: seq<Response>)
    requires Apart(u0.jobs) && Civil(u0.jobs, log)
    ensures Named(u0.jobs, log) && Stands(u0, Upload(u0, log), log)
  {
    CivilPrefix(u0.jobs, log);
    if log == [] {
      assert u0.echoes + [] == u0.echoes;
    } else {
      var n := |log| - 1;
      UploadRebuilds(u0, log[..n]);
      MessageStands(u0, Upload(u0, log[..n]), log[..n], log[n]);
    }
  }

  // ----- messages that reach another file's job -----

  predicate About(j: UpJob, id: i32, fileNum: nat) { j.id == id && j.fileNum == fileNum }

  // All files but one are left alone: their jobs, what is on disk, and nothing is said of them.
  ghost predicate OthersAlone(u: Uploads, v: Uploads, id: i32, fileNum: nat)
  {
    && (forall k :: k in u.jobs && !About(u.jobs[k], id, fileNum) ==> k in v.jobs && v.jobs[k] == u.jobs[k])
    && (forall p: Path :: !SameAt(v.disk, u.disk, p) ==>
          exists k :: k in u.jobs && About(u.jobs[k], id, fileNum) && u.jobs[k].path == p)
    && u.echoes <= v.echoes && forall i :: |u.echoes| <= i < |v.echoes| ==> Of(v.echoes[i], id, fileNum)
  }

  // A Done leaves all other files alone exactly if it finds a job of its own id under its key,
  // or no job there and nothing unfinished of its id.
  lemma DoneTouches(u: Uploads, m: Response, k: Option<int>)
    requires m.Done? && UpKeyed(u.jobs) && Resolves(u.jobs, m, k)
    ensures OthersAlone(u, OnDoneUp(u, k), m.id, m.fileNum)
       <==> if Key(m.id, m.fileNum) in u.jobs then u.jobs[Key(m.id, m.fileNum)].id == m.id
            else forall j :: j in u.jobs ==> u.jobs[j].id != m.id || u.jobs[j].done
  {
    if k.Some? {
      var v := OnDoneUp(u, k);
      assert v.echoes[|u.echoes|] == Done(u.jobs[k.value].id, u.jobs[k.value].fileNum);
    }
  }

  // File 0 of job 2 alone is being uploaded. The Done of file 1000 of job 1, and that of any
  // unknown file of job 2, end it and are echoed as its own.
  lemma DoneAstray(path: Path, disk: Files, m: Response, k: Option<int>)
    requires m == Done(1, 1000) || (m.Done? && m.id == 2 && m.fileNum != 0)
    requires Resolves(map[2000 := UpJob(path, 0, 2, 0, false)], m, k)
    ensures OnDoneUp(Uploads(map[2000 := UpJob(path, 0, 2, 0, false)], disk, []), k)
         == Uploads(map[2000 := UpJob(path, 0, 2, 0, true)], disk, [Done(2, 0)])
  {
    var jobs := map[2000 := UpJob(path, 0, 2, 0, false)];
    assert 2000 in jobs;
    if k.None? { assert false; }
    assert k.value in jobs;
    assert jobs[2000 := jobs[2000].(done := true)] == map[2000 := UpJob(path, 0, 2, 0, true)];
  }

  // A block leaves all other files alone exactly if its key is free or its own, or the job
  // there is done, or it is empty.
  lemma BlockTouches(u: Uploads, m: Response)
    requires m.Block? && UpKeyed(u.jobs)
    ensures OthersAlone(u, OnUpload(u, m, None), m.id, m.fileNum)
       <==> (var key := Key(m.id, m.fileNum);
             key !in u.jobs || u.jobs[key].id == m.id || u.jobs[key].done || m.data == [])
  {
    var key := Key(m.id, m.fileNum);
    if key in u.jobs && !u.jobs[key].done {
      var v := OnBlockUp(u, key, m.data);
      forall p: Path | p != u.jobs[key].path ensures SameAt(v.disk, u.disk, p) { }
      assert m.data == [] ==> v == u.(jobs := u.jobs[key := u.jobs[key]]);
    }
  }

  // Otherwise it is appended to the other job's file.
  lemma BlockAstray(u: Uploads, m: Response)
    requires m.Block? && m.data != [] && Key(m.id, m.fileNum) in u.jobs
    requires var j := u.jobs[Key(m.id, m.fileNum)];
             j.id != m.id && !j.done && j.path in u.disk && |u.disk[j.path]| == j.offset
    ensures var j := u.jobs[Key(m.id, m.fileNum)];
            OnUpload(u, m, None).disk == u.disk[j.path := u.disk[j.path] + m.data]
  {
    var j := u.jobs[Key(m.id, m.fileNum)];
    WriteAppends(u.disk, j.path, u.disk[j.path], m.data);
  }

  // ----- queueing uploads -----

  function NewUp(x: Listed): UpJob { UpJob(x.path, 0, x.id, x.fileNum, false) }

  function UpQueue(jobs: map<int, UpJob>, xs: seq<Listed>): map<int, UpJob>
  {
    if xs == [] then jobs
    else
      var n := |xs| - 1;
      UpQueue(jobs, xs[..n])[KeyOf(xs[n]) := NewUp(xs[n])]
  }

  lemma UpQueueSnoc(jobs: map<int, UpJob>, xs: seq<Listed>, x: Listed)
    ensures UpQueue(jobs, xs + [x]) == UpQueue(jobs, xs)[KeyOf(x) := NewUp(x)]
    ensures [] + [x] == [x]
  {
    assert (xs + [x])[..|xs|] == xs;
  }

  predicate Marker(name: string) { name != "" && name[|name| - 1] == '/' }

  // Directory markers are passed over.
  function Uploaded(id: i32, dest: Path, names: seq<string>): seq<Listed>
  {
    if names == [] then []
    else
      var n := |names| - 1;
      Uploaded(id, dest, names[..n]) + (if Marker(names[n]) then [] else [Listed(id, n, Join(dest, names[n]), 0)])
  }

  // No name, or an empty one, means the destination itself.
  function Requested(id: i32, dest: Path, names: seq<string>): seq<Listed>
  {
    if names == [] || names == [""] then [Listed(id, 0, dest, 0)] else Uploaded(id, dest, names)
  }

  // The queue of uploads mirrors that of downloads.
  lemma {:induction false} UpQueueIs(xs: seq<Listed>)
    ensures UpQueue(map[], xs).Keys == Queue(map[], xs).Keys
    ensures forall k :: k in Queue(map[], xs) ==>
              (var j := Queue(map[], xs)[k]; UpQueue(map[], xs)[k] == UpJob(j.path, 0, j.id, j.fileNum, false))
  {
    if xs != [] { UpQueueIs(xs[..|xs| - 1]); }
  }

  ghost predicate PathsTell(xs: seq<Listed>)
  {
    forall x, y :: x in xs && y in xs && x.path == y.path ==> KeyOf(x) == KeyOf(y)
  }

  // Files that share no path are kept apart, and each is known exactly if the keys tell it from
  // the others.
  lemma UpQueueApart(xs: seq<Listed>)
    requires PathsTell(xs) && forall x :: x in xs ==> x.size == 0
    ensures Apart(UpQueue(map[], xs))
    ensures (forall x :: x in xs ==> KeyOf(x) in UpQueue(map[], xs) && UpQueue(map[], xs)[KeyOf(x)] == NewUp(x))
       <==> KeysTell(xs)
  {
    UpQueueIs(xs);
    QueueOrigin(xs);
    AllKept(map[], xs);
  }

  ghost predicate Speaks(xs: seq<Listed>, m: Response)
  {
    !m.Error? && !m.Dir? && exists x :: x in xs && Of(m, x.id, x.fileNum)
  }

  // Uploads from request to disk.
  lemma UploadsArrive(xs: seq<Listed>, disk: Files, log: seq<Response>)
    requires PathsTell(xs) && KeysTell(xs) && (forall x :: x in xs ==> x.size == 0) && Orderly(log)
    requires forall i :: 0 <= i < |log| ==> Speaks(xs, log[i])
    ensures var u0 := Uploads(UpQueue(map[], xs), disk, []);
            Named(u0.jobs, log) && forall x :: x in xs ==> UploadStands(u0, Upload(u0, log), log, x)
  {
    var u0 := Uploads(UpQueue(map[], xs), disk, []);
    UpQueueApart(xs);
    forall i | 0 <= i < |log| ensures Concerns(u0.jobs, log[i]) {
      assert Speaks(xs, log[i]);
      var x :| x in xs && Of(log[i], x.id, x.fileNum);
      assert KeyOf(x) in u0.jobs && u0.jobs[KeyOf(x)] == NewUp(x);
    }
    UploadRebuilds(u0, log);
  }

  // A file's job and what is on its path say what the log says of it.
  ghost predicate UploadStands(u0: Uploads, u: Uploads, log: seq<Response>, x: Listed)
  {
    var sofar := Data(log, x.id, x.fileNum);
    && KeyOf(x) in u.jobs && u.jobs[KeyOf(x)] == UpJob(x.path, |sofar|, x.id, x.fileNum, u.jobs[KeyOf(x)].done)
    && (u.jobs[KeyOf(x)].done <==> SaidDone(log, x.id, x.fileNum))
    && (sofar != [] ==> x.path in u.disk && u.disk[x.path] == sofar)
  }

  // ----- as it runs -----

  class UploadServer {
    var writeJobs: map<int, UpJob>
    var disk: Files
    var echoes: seq<Response>

    constructor (disk: Files)
      ensures View() == Uploads(map[], disk, [])
    {
      writeJobs, this.disk, echoes := map[], disk, [];
    }

    ghost function View(): Uploads
      reads this
    {
      Uploads(writeJobs, disk, echoes)
    }

    method HandleReceive(id: i32, dest: Path, names: seq<string>)
      modifies this`writeJobs
      ensures writeJobs == UpQueue(old(writeJobs), Requested(id, dest, names))
    {
      if |names| <= 1 && (|names| == 0 || names[0] == "") {
        UpQueueSnoc(writeJobs, [], Listed(id, 0, dest, 0));
        writeJobs := writeJobs[Key(id, 0) := UpJob(dest, 0, id, 0, false)];
        return;
      }
      for i := 0 to |names|
        invariant writeJobs == UpQueue(old(writeJobs), Uploaded(id, dest, names[..i]))
      {
        assert names[..i + 1][..i] == names[..i];
        ghost var before := Uploaded(id, dest, names[..i]);
        if Marker(names[i]) {
          assert before + [] == before;
        } else {
          UpQueueSnoc(old(writeJobs), before, Listed(id, i, Join(dest, names[i]), 0));
          writeJobs := writeJobs[Key(id, i) := UpJob(Join(dest, names[i]), 0, id, i, false)];
        }
      }
      assert names[..|names|] == names;
    }

    method HandleBlock(id: i32, fileNum: nat, data: seq<byte>)
      modifies this
      ensures View()
           == if Key(id, fileNum) in old(writeJobs) then OnBlockUp(old(View()), Key(id, fileNum), data) else old(View())
    {
      var key := Key(id, fileNum);
      if key in writeJobs {
        var job := writeJobs[key];
        if job.done { return; }
        disk := WriteBlock(disk, job.path, data, job.offset);
        writeJobs := writeJobs[key := job.(offset := job.offset + |data|)];
      }
    }

    // write_jobs.iter().find(...): the keys in the order the hash map gives them.
    method FindUnfinished(id: i32, order: seq<int>) returns (k: Option<int>)
      requires (forall i :: 0 <= i < |order| ==> order[i] in writeJobs) && forall j :: j in writeJobs ==> j in order
      ensures k.Some? ==> k.value in writeJobs && writeJobs[k.value].id == id && !writeJobs[k.value].done
      ensures k.None? ==> forall j :: j in writeJobs ==> writeJobs[j].id != id || writeJobs[j].done
    {
      for i := 0 to |order|
        invariant forall j :: 0 <= j < i ==> writeJobs[order[j]].id != id || writeJobs[order[j]].done
      {
        if writeJobs[order[i]].id == id && !writeJobs[order[i]].done { return Some(order[i]); }
      }
      k := None;
    }

    method HandleDone(id: i32, fileNum: nat, order: seq<int>) returns (ghost k: Option<int>)
      requires (forall i :: 0 <= i < |order| ==> order[i] in writeJobs) && forall j :: j in writeJobs ==> j in order
      modifies this
      ensures Resolves(old(writeJobs), Done(id, fileNum), k)
      ensures View() == OnDoneUp(old(View()), k)
    {
      var resolved := Some(Key(id, fileNum));
      if Key(id, fileNum) !in writeJobs { resolved := FindUnfinished(id, order); }
      k := resolved;
      if resolved.Some? {
        var job := writeJobs[resolved.value];
        writeJobs := writeJobs[resolved.value := job.(done := true)];
        echoes := echoes + [Done(job.id, job.fileNum)];
      }
    }
  }
}
