// What the receiving side of a transfer makes of the sender's log.

module TransferReceive {
  import opened MachineInts
  import opened TransferSpec
  import opened TransferSend
  import opened TransferList

  // ----- counting the files of a job that are done -----

  function DoneSet(log: seq<Response>, id: i32): set<nat>
  {
    if log == [] then {}
    else
      var n := |log| - 1;
      DoneSet(log[..n], id) + (if log[n].Done? && log[n].id == id then {log[n].fileNum} else {})
  }

  lemma DoneSetSnoc(log: seq<Response>, m: Response, id: i32)
    ensures DoneSet(log + [m], id) == DoneSet(log, id) + (if m.Done? && m.id == id then {m.fileNum} else {})
  {
    assert (log + [m])[..|log|] == log;
  }

  lemma {:induction false} DoneSetIs(log: seq<Response>, id: i32, f: nat)
    ensures f in DoneSet(log, id) <==> SaidDone(log, id, f)
  {
    if log != [] {
      var n := |log| - 1;
      DoneSetIs(log[..n], id, f);
      assert log == log[..n] + [log[n]];
      DoneSnoc(log[..n], log[n], id, f);
    }
  }

  function Below(n: nat): (s: set<nat>)
    ensures forall x: nat :: x in s <==> x < n
    ensures |s| == n
  {
    if n == 0 then {} else Below(n - 1) + {n - 1}
  }

  lemma {:induction false} SubsetSize(a: set<nat>, b: set<nat>)
    requires a <= b
    ensures |a| <= |b| && (|a| == |b| ==> a == b)
  {
    if a == {} {
      if |b| == 0 { assert b == {}; }
    } else {
      var x :| x in a;
      SubsetSize(a - {x}, b - {x});
      assert a == (a - {x}) + {x} && b == (b - {x}) + {x};
    }
  }

  // A file still missing means the count is not full.
  lemma MissingOne(s: set<nat>, n: nat, f: nat)
    requires s <= Below(n) && f < n && f !in s
    ensures |s| < n
  {
    SubsetSize(s, Below(n));
  }

  // ----- the receiver's jobs -----

  // Where the job stands after log: without a list yet, open with its offsets, or finished once.
  ghost predicate JobAfter(asks: Downloads, r: Receiver, log: seq<Response>, id: i32)
    requires id in asks
  {
    var d, n := asks[id], |asks[id].entries|;
    if id !in Announced(log) then
      id in r.jobs && r.jobs[id] == WriteJob(d.dest, [], [], 0) && multiset(r.finished)[id] == 0
    else
      && DoneSet(log, id) <= Below(n)
      && if n == 0 || |DoneSet(log, id)| < n then
           && id in r.jobs && r.jobs[id].files == Destinations(d.dest, d.entries) && |r.jobs[id].offsets| == n
           && r.jobs[id].doneCount == |DoneSet(log, id)|
           && (forall f :: 0 <= f < n ==> r.jobs[id].offsets[f] == |Data(log, id, f)|)
           && multiset(r.finished)[id] == 0
         else id !in r.jobs && multiset(r.finished)[id] == 1
  }

  predicate SameAt(d: Files, d0: Files, p: Path) { if p in d0 then p in d && d[p] == d0[p] else p !in d }

  ghost predicate Target(asks: Downloads, log: seq<Response>, p: Path)
  {
    exists id: i32, f: nat :: Awaited(asks, log, id, f) && Data(log, id, f) != [] && Place(asks[id], f) == p
  }

  // Everything sent for a file so far is what its place holds; nothing else was written.
  ghost predicate Rebuilt(asks: Downloads, disk0: Files, r: Receiver, log: seq<Response>)
  {
    && (forall id: i32, f: nat :: Awaited(asks, log, id, f) && Data(log, id, f) != [] ==>
          Place(asks[id], f) in r.disk && r.disk[Place(asks[id], f)] == Data(log, id, f))
    && forall p: Path :: !Target(asks, log, p) ==> SameAt(r.disk, disk0, p)
  }

  ghost predicate After(asks: Downloads, disk0: Files, r: Receiver, log: seq<Response>)
  {
    && Rebuilt(asks, disk0, r, log) && (forall id :: id in asks ==> JobAfter(asks, r, log, id))
    && forall i :: 0 <= i < |r.finished| ==> r.finished[i] in asks
  }

  // Writing a block at the end of what is there appends it.
  lemma WriteAppends(disk: Files, path: Path, sofar: seq<byte>, data: seq<byte>)
    requires sofar != [] ==> path in disk && disk[path] == sofar
    requires data != []
    ensures WriteBlock(disk, path, data, |sofar|) == disk[path := sofar + data]
  {
    var before := if path in disk && |sofar| != 0 then disk[path] else [];
    assert before == sofar;
    assert sofar[..|sofar|] == sofar;
    assert sofar + data + [] == sofar + data;
  }

  // Until its Done, the job a file belongs to is open.
  lemma StillOpen(asks: Downloads, r: Receiver, log: seq<Response>, id: i32, f: nat)
    requires Awaited(asks, log, id, f) && JobAfter(asks, r, log, id) && !SaidDone(log, id, f)
    ensures id in r.jobs && |DoneSet(log, id)| < |asks[id].entries|
  {
    DoneSetIs(log, id, f);
    MissingOne(DoneSet(log, id), |asks[id].entries|, f);
  }

  lemma TargetGrows(asks: Downloads, log: seq<Response>, m: Response, p: Path)
    requires Target(asks, log, p)
    ensures Target(asks, log + [m], p)
  {
    var id: i32, f: nat :| Awaited(asks, log, id, f) && Data(log, id, f) != [] && Place(asks[id], f) == p;
    DataSnoc(log, m, id, f);
    AnnouncedSnoc(log, m);
  }

  // ----- a block -----

  // Where the block of an open job goes.
  lemma BlockGoes(asks: Downloads, disk0: Files, r: Receiver, log: seq<Response>, m: Response)
    requires Sensible(asks) && After(asks, disk0, r, log) && m.Block? && Next(asks, log, m)
    ensures var sofar, path := Data(log, m.id, m.fileNum), Place(asks[m.id], m.fileNum);
            && m.id in r.jobs && OnResponse(r, m).disk == WriteBlock(r.disk, path, m.data, |sofar|)
            && (m.data != [] ==> OnResponse(r, m).disk == r.disk[path := sofar + m.data])
  {
    StillOpen(asks, r, log, m.id, m.fileNum);
    assert JobAfter(asks, r, log, m.id) && Acceptable(asks[m.id]);
    if m.data != [] { WriteAppends(r.disk, Place(asks[m.id], m.fileNum), Data(log, m.id, m.fileNum), m.data); }
  }

  lemma BlockRebuilds(asks: Downloads, disk0: Files, r: Receiver, log: seq<Response>, m: Response)
    requires Sensible(asks) && After(asks, disk0, r, log) && m.Block? && Next(asks, log, m)
    ensures Rebuilt(asks, disk0, OnResponse(r, m), log + [m])
  {
    BlockGoes(asks, disk0, r, log, m);
    AnnouncedSnoc(log, m);
    DataSnoc(log, m, m.id, m.fileNum);
    forall id: i32, f: nat | Awaited(asks, log + [m], id, f) && Data(log + [m], id, f) != []
      ensures Place(asks[id], f) in OnResponse(r, m).disk
      ensures OnResponse(r, m).disk[Place(asks[id], f)] == Data(log + [m], id, f)
    {
      assert Awaited(asks, log, id, f);
      DataSnoc(log, m, id, f);
      if !Of(m, id, f) { PlacesDiffer(asks, id, f, m.id, m.fileNum); }
    }
    forall p: Path | !Target(asks, log + [m], p) ensures SameAt(OnResponse(r, m).disk, disk0, p) {
      BlockSpares(asks, disk0, r, log, m, p);
    }
  }

  lemma BlockSpares(asks: Downloads, disk0: Files, r: Receiver, log: seq<Response>, m: Response, p: Path)
    requires Sensible(asks) && After(asks, disk0, r, log) && m.Block? && Next(asks, log, m)
    requires !Target(asks, log + [m], p)
    ensures SameAt(OnResponse(r, m).disk, disk0, p)
  {
    BlockGoes(asks, disk0, r, log, m);
    if Target(asks, log, p) { TargetGrows(asks, log, m, p); }
    if m.data != [] {
      AnnouncedSnoc(log, m);
      DataSnoc(log, m, m.id, m.fileNum);
      assert Awaited(asks, log + [m], m.id, m.fileNum);
      assert p != Place(asks[m.id], m.fileNum);
    }
  }

  // Nothing happened to the job.
  lemma SameJob(asks: Downloads, r: Receiver, r': Receiver, log: seq<Response>, log': seq<Response>, id: i32)
    requires id in asks && JobAfter(asks, r, log, id)
    requires (id in r.jobs <==> id in r'.jobs) && (id in r.jobs ==> r'.jobs[id] == r.jobs[id])
    requires multiset(r'.finished)[id] == multiset(r.finished)[id]
    requires DoneSet(log', id) == DoneSet(log, id) && (id in Announced(log') <==> id in Announced(log))
    requires forall f: nat :: Data(log', id, f) == Data(log, id, f)
    ensures JobAfter(asks, r', log', id)
  {
  }

  lemma ElsewhereJob(asks: Downloads, r: Receiver, log: seq<Response>, m: Response, id: i32)
    requires !m.Error? && id in asks && m.id != id && JobAfter(asks, r, log, id)
    ensures JobAfter(asks, OnResponse(r, m), log + [m], id)
  {
    DoneSetSnoc(log, m, id);
    AnnouncedSnoc(log, m);
    forall f: nat ensures Data(log + [m], id, f) == Data(log, id, f) { DataSnoc(log, m, id, f); }
    SparesJob(r, m, id);
    SameJob(asks, r, OnResponse(r, m), log, log + [m], id);
  }

  lemma SparesJob(r: Receiver, m: Response, id: i32)
    requires m.id != id
    ensures var r' := OnResponse(r, m);
            && (id in r.jobs <==> id in r'.jobs) && (id in r.jobs ==> r'.jobs[id] == r.jobs[id])
            && multiset(r'.finished)[id] == multiset(r.finished)[id]
  {
  }

  lemma BlockJob(asks: Downloads, r: Receiver, log: seq<Response>, m: Response)
    requires m.Block? && Next(asks, log, m) && JobAfter(asks, r, log, m.id)
    ensures JobAfter(asks, OnResponse(r, m), log + [m], m.id)
  {
    StillOpen(asks, r, log, m.id, m.fileNum);
    DoneSetSnoc(log, m, m.id);
    AnnouncedSnoc(log, m);
    BlockOffsets(asks, r, log, m);
  }

  lemma BlockOffsets(asks: Downloads, r: Receiver, log: seq<Response>, m: Response)
    requires m.Block? && m.id in asks && m.id in r.jobs && m.fileNum < |asks[m.id].entries| == |r.jobs[m.id].offsets|
    requires forall f :: 0 <= f < |asks[m.id].entries| ==> r.jobs[m.id].offsets[f] == |Data(log, m.id, f)|
    ensures var r' := OnResponse(r, m);
            && m.id in r'.jobs && |r'.jobs[m.id].offsets| == |asks[m.id].entries| && r'.finished == r.finished
            && r'.jobs[m.id].files == r.jobs[m.id].files && r'.jobs[m.id].doneCount == r.jobs[m.id].doneCount
            && forall f :: 0 <= f < |asks[m.id].entries| ==> r'.jobs[m.id].offsets[f] == |Data(log + [m], m.id, f)|
  {
    forall f: nat
      ensures |Data(log + [m], m.id, f)| == |Data(log, m.id, f)| + (if f == m.fileNum then |m.data| else 0)
    {
      DataSnoc(log, m, m.id, f);
    }
  }

  // ----- a Done, a list -----

  lemma SameData(log: seq<Response>, m: Response, id: i32)
    requires !m.Block?
    ensures forall f: nat :: Data(log + [m], id, f) == Data(log, id, f)
  {
    forall f: nat ensures Data(log + [m], id, f) == Data(log, id, f) { DataSnoc(log, m, id, f); }
  }

  lemma SentBefore(asks: Downloads, log: seq<Response>, m: Response, id: i32, f: nat)
    requires Sound(asks, log) && !m.Block? && Awaited(asks, log + [m], id, f) && Data(log + [m], id, f) != []
    ensures Awaited(asks, log, id, f) && Data(log, id, f) == Data(log + [m], id, f)
  {
    DataSnoc(log, m, id, f);
    if id !in Announced(log) { NothingYet(asks, log, id, f); }
  }

  // Neither writes anything.
  lemma OtherRebuilds(asks: Downloads, disk0: Files, r: Receiver, log: seq<Response>, m: Response)
    requires After(asks, disk0, r, log) && Sound(asks, log) && !m.Block? && Next(asks, log, m)
    ensures Rebuilt(asks, disk0, OnResponse(r, m), log + [m])
  {
    AnnouncedSnoc(log, m);
    forall id: i32, f: nat | Awaited(asks, log + [m], id, f) && Data(log + [m], id, f) != []
      ensures Awaited(asks, log, id, f) && Data(log, id, f) == Data(log + [m], id, f)
    {
      SentBefore(asks, log, m, id, f);
    }
    forall p: Path | Target(asks, log, p) ensures Target(asks, log + [m], p) { TargetGrows(asks, log, m, p); }
  }

  lemma AddOne(s: set<nat>, n: nat, f: nat)
    requires s <= Below(n) && f < n && f !in s
    ensures s + {f} <= Below(n) && |s + {f}| == |s| + 1 <= n
  {
    MissingOne(s, n, f);
  }

  lemma DoneJob(asks: Downloads, r: Receiver, log: seq<Response>, m: Response)
    requires m.Done? && Next(asks, log, m) && JobAfter(asks, r, log, m.id)
    ensures JobAfter(asks, OnResponse(r, m), log + [m], m.id)
  {
    StillOpen(asks, r, log, m.id, m.fileNum);
    DoneSetIs(log, m.id, m.fileNum);
    DoneSetSnoc(log, m, m.id);
    AnnouncedSnoc(log, m);
    AddOne(DoneSet(log, m.id), |asks[m.id].entries|, m.fileNum);
    SameData(log, m, m.id);
  }

  lemma {:induction false} NoneDone(asks: Downloads, log: seq<Response>, id: i32)
    requires Sound(asks, log) && id !in Announced(log)
    ensures DoneSet(log, id) == {}
  {
    if log != [] { NoneDone(asks, log[..|log| - 1], id); }
  }

  lemma DirJob(asks: Downloads, r: Receiver, log: seq<Response>, m: Response)
    requires Sound(asks, log) && m.Dir? && Next(asks, log, m) && JobAfter(asks, r, log, m.id) && Acceptable(asks[m.id])
    ensures JobAfter(asks, OnResponse(r, m), log + [m], m.id)
  {
    NoneDone(asks, log, m.id);
    DoneSetSnoc(log, m, m.id);
    AnnouncedSnoc(log, m);
    forall f: nat ensures |Data(log + [m], m.id, f)| == 0 {
      DataSnoc(log, m, m.id, f);
      NothingYet(asks, log, m.id, f);
    }
    ListOpens(asks, r, m);
  }

  lemma ListOpens(asks: Downloads, r: Receiver, m: Response)
    requires m.Dir? && m.id in asks && m.entries == asks[m.id].entries && Acceptable(asks[m.id])
    requires m.id in r.jobs && r.jobs[m.id] == WriteJob(asks[m.id].dest, [], [], 0)
    ensures var r' := OnResponse(r, m);
            && m.id in r'.jobs && r'.jobs[m.id].files == Destinations(asks[m.id].dest, asks[m.id].entries)
            && r'.jobs[m.id].offsets == seq(|asks[m.id].entries|, _ => 0) && r'.jobs[m.id].doneCount == 0
            && r'.finished == r.finished
  {
  }

  // ----- every message -----

  // Taking the next message of a sound log.
  lemma TakeKeeps(asks: Downloads, disk0: Files, r: Receiver, log: seq<Response>, m: Response)
    requires Sensible(asks) && Sound(asks, log) && After(asks, disk0, r, log) && Next(asks, log, m)
    ensures After(asks, disk0, OnResponse(r, m), log + [m])
  {
    if m.Block? { BlockRebuilds(asks, disk0, r, log, m); } else { OtherRebuilds(asks, disk0, r, log, m); }
    forall id | id in asks ensures JobAfter(asks, OnResponse(r, m), log + [m], id) { TakeJob(asks, r, log, m, id); }
    FinishedKnown(asks, r, m);
  }

  lemma TakeJob(asks: Downloads, r: Receiver, log: seq<Response>, m: Response, id: i32)
    requires Sound(asks, log) && Next(asks, log, m) && id in asks && JobAfter(asks, r, log, id) && Acceptable(asks[id])
    ensures JobAfter(asks, OnResponse(r, m), log + [m], id)
  {
    if id != m.id { ElsewhereJob(asks, r, log, m, id); }
    else if m.Block? { BlockJob(asks, r, log, m); }
    else if m.Done? { DoneJob(asks, r, log, m); }
    else { DirJob(asks, r, log, m); }
  }

  lemma FinishedKnown(asks: Downloads, r: Receiver, m: Response)
    requires m.id in asks && forall i :: 0 <= i < |r.finished| ==> r.finished[i] in asks
    ensures var f := OnResponse(r, m).finished; forall i :: 0 <= i < |f| ==> f[i] in asks
  {
  }

  // Opening a job before anything is said of it.
  lemma WantKeeps(asks: Downloads, disk0: Files, r: Receiver, log: seq<Response>, id: i32, d: Download)
    requires After(asks, disk0, r, log) && Sound(asks, log) && id !in asks
    ensures After(asks[id := d], disk0, Opened(r, id, d.dest), log)
  {
    var more := asks[id := d];
    SoundMore(asks, more, log);
    MoreRebuilt(asks, more, disk0, r, Opened(r, id, d.dest), log);
    forall i | i in more ensures JobAfter(more, Opened(r, id, d.dest), log, i) {
      if i != id { MoreJob(asks, more, r, Opened(r, id, d.dest), log, i); } else { JobOpens(asks, r, log, id, d); }
    }
  }

  lemma JobOpens(asks: Downloads, r: Receiver, log: seq<Response>, id: i32, d: Download)
    requires id !in asks && id !in Announced(log) && id !in r.finished
    ensures JobAfter(asks[id := d], Opened(r, id, d.dest), log, id)
  {
    NoCount(r.finished, id);
  }

  lemma NoCount(s: seq<i32>, id: i32)
    requires id !in s
    ensures multiset(s)[id] == 0
  {
  }

  lemma MoreJob(asks: Downloads, more: Downloads, r: Receiver, r': Receiver, log: seq<Response>, id: i32)
    requires id in asks && id in more && more[id] == asks[id] && JobAfter(asks, r, log, id)
    requires (id in r.jobs <==> id in r'.jobs) && (id in r.jobs ==> r'.jobs[id] == r.jobs[id])
    requires r'.finished == r.finished
    ensures JobAfter(more, r', log, id)
  {
  }

  lemma MoreRebuilt(asks: Downloads, more: Downloads, disk0: Files, r: Receiver, r': Receiver, log: seq<Response>)
    requires Rebuilt(asks, disk0, r, log) && r'.disk == r.disk
    requires Announced(log) <= asks.Keys && forall id :: id in asks ==> id in more && more[id] == asks[id]
    ensures Rebuilt(more, disk0, r', log)
  {
    forall id: i32, f: nat | Awaited(more, log, id, f) ensures Awaited(asks, log, id, f) { }
    forall p: Path ensures Target(more, log, p) <==> Target(asks, log, p) { SameTarget(asks, more, log, p); }
  }

  lemma SameTarget(asks: Downloads, more: Downloads, log: seq<Response>, p: Path)
    requires forall id :: id in asks ==> id in more && more[id] == asks[id]
    requires Announced(log) <= asks.Keys
    ensures Target(more, log, p) <==> Target(asks, log, p)
  {
    if Target(more, log, p) {
      var id: i32, f: nat :| Awaited(more, log, id, f) && Data(log, id, f) != [] && Place(more[id], f) == p;
      assert Awaited(asks, log, id, f) && Place(asks[id], f) == p;
    }
    if Target(asks, log, p) {
      var id: i32, f: nat :| Awaited(asks, log, id, f) && Data(log, id, f) != [] && Place(asks[id], f) == p;
      assert Awaited(more, log, id, f) && Place(more[id], f) == p;
    }
  }

  // The next message of a log.
  lemma TakeNext(asks: Downloads, disk0: Files, r: Receiver, log: seq<Response>, n: nat)
    requires n < |log| && Sensible(asks) && Sound(asks, log) && After(asks, disk0, r, log[..n])
    ensures After(asks, disk0, OnResponse(r, log[n]), log[..n + 1])
  {
    SoundPrefix(asks, log, n);
    TakeKeeps(asks, disk0, r, log[..n], log[n]);
    OneLonger(log, n);
  }

  lemma OneLonger(log: seq<Response>, n: nat)
    requires n < |log|
    ensures log[..n + 1] == log[..n] + [log[n]] && log[..n + 1][..n] == log[..n]
  {
  }

  // Draining part of a log into a client with its jobs open.
  lemma {:induction false} DrainRebuilds(asks: Downloads, disk0: Files, r: Receiver, log: seq<Response>, n: nat)
    requires Sensible(asks) && After(asks, disk0, r, []) && Sound(asks, log) && n <= |log|
    ensures After(asks, disk0, Drain(r, log[..n]), log[..n])
  {
    if n > 0 {
      DrainRebuilds(asks, disk0, r, log, n - 1);
      OneLonger(log, n - 1);
      TakeNext(asks, disk0, Drain(r, log[..n - 1]), log, n - 1);
    }
  }
}
