// The sending side over whole runs of its loop: what every turn keeps.

module TransferSend {
  import opened Wrappers
  import opened MachineInts
  import opened TransferSpec
  import opened TransferQueue

  // ----- what a log says of one file -----

  ghost predicate SaidDone(log: seq<Response>, id: i32, fileNum: nat)
  {
    exists i :: 0 <= i < |log| && log[i] == Done(id, fileNum)
  }

  lemma DataSnoc(log: seq<Response>, m: Response, id: i32, f: nat)
    ensures Data(log + [m], id, f) == Data(log, id, f) + (if m.Block? && Of(m, id, f) then m.data else [])
  {
    assert (log + [m])[..|log|] == log;
  }

  lemma DoneSnoc(log: seq<Response>, m: Response, id: i32, f: nat)
    ensures SaidDone(log + [m], id, f) <==> SaidDone(log, id, f) || m == Done(id, f)
  {
    if SaidDone(log, id, f) {
      var i :| 0 <= i < |log| && log[i] == Done(id, f);
      assert (log + [m])[i] == Done(id, f);
    }
    if m == Done(id, f) { assert (log + [m])[|log|] == m; }
  }

  // ----- what may be said -----

  // A job of the client: where to, from where, and what that is listed as.
  datatype Download = Download(dest: Path, root: Path, entries: seq<Entry>)

  type Downloads = map<i32, Download>

  // A file of a job.
  type Name = (i32, nat)

  function Announced(log: seq<Response>): set<i32>
  {
    if log == [] then {}
    else
      var n := |log| - 1;
      Announced(log[..n]) + (if log[n].Dir? then {log[n].id} else {})
  }

  lemma AnnouncedSnoc(log: seq<Response>, m: Response)
    ensures Announced(log + [m]) == Announced(log) + (if m.Dir? then {m.id} else {})
  {
    assert (log + [m])[..|log|] == log;
  }

  // The list with this file in it has been sent.
  predicate Awaited(asks: Downloads, log: seq<Response>, id: i32, f: nat)
  {
    id in Announced(log) && id in asks && FileAt(asks[id].entries, f)
  }

  // One list for each job; blocks of listed files, and a Done for each, behind which nothing
  // more is said of it.
  ghost predicate Next(asks: Downloads, log: seq<Response>, m: Response)
  {
    match m
    case Dir(id, es) => id in asks && es == asks[id].entries && id !in Announced(log)
    case Block(id, f, _, _) => Awaited(asks, log, id, f) && !SaidDone(log, id, f)
    case Done(id, f) => Awaited(asks, log, id, f) && !SaidDone(log, id, f)
    case Error(_, _) => false
  }

  ghost predicate Sound(asks: Downloads, log: seq<Response>)
  {
    log == [] || (Sound(asks, log[..|log| - 1]) && Next(asks, log[..|log| - 1], log[|log| - 1]))
  }

  lemma SoundSnoc(asks: Downloads, log: seq<Response>, m: Response)
    requires Sound(asks, log) && Next(asks, log, m)
    ensures Sound(asks, log + [m])
  {
    assert (log + [m])[..|log|] == log;
  }

  lemma {:induction false} SoundPrefix(asks: Downloads, log: seq<Response>, n: nat)
    requires Sound(asks, log) && n <= |log|
    ensures Sound(asks, log[..n]) && (n < |log| ==> Next(asks, log[..n], log[n]))
    decreases |log|
  {
    if n < |log| {
      var l := |log| - 1;
      if n < l {
        SoundPrefix(asks, log[..l], n);
        assert log[..l][..n] == log[..n] && log[..l][n] == log[n];
      }
    } else {
      assert log[..n] == log;
    }
  }

  // Of a job without a list nothing has been said.
  lemma {:induction false} NothingYet(asks: Downloads, log: seq<Response>, id: i32, f: nat)
    requires Sound(asks, log) && id !in Announced(log)
    ensures Data(log, id, f) == [] && !SaidDone(log, id, f)
  {
    if log != [] {
      var n := |log| - 1;
      NothingYet(asks, log[..n], id, f);
      assert log == log[..n] + [log[n]];
      DoneSnoc(log[..n], log[n], id, f);
    }
  }

  lemma {:induction false} SoundMore(asks: Downloads, more: Downloads, log: seq<Response>)
    requires Sound(asks, log) && forall id :: id in asks ==> id in more && more[id] == asks[id]
    ensures Sound(more, log) && Announced(log) <= asks.Keys
  {
    if log != [] { SoundMore(asks, more, log[..|log| - 1]); }
  }

  // In particular a file has at most one Done, and nothing behind it.
  lemma {:induction false} SoundOrderly(asks: Downloads, log: seq<Response>)
    requires Sound(asks, log)
    ensures Orderly(log)
  {
    if log != [] {
      var n := |log| - 1;
      SoundOrderly(asks, log[..n]);
      forall i, j | 0 <= i < j < |log| && log[i].Done? ensures !Of(log[j], log[i].id, log[i].fileNum) {
        if j < n {
          assert log[..n][i] == log[i] && log[..n][j] == log[j];
        } else {
          assert log[..n][i] == Done(log[i].id, log[i].fileNum);
        }
      }
    }
  }

  // ----- the invariant -----

  // The job stored under a file's key is that file's own.
  predicate Has(jobs: Jobs, id: int, fileNum: int)
  {
    Key(id, fileNum) in jobs && jobs[Key(id, fileNum)].id == id && jobs[Key(id, fileNum)].fileNum == fileNum
  }

  // Done was said and, unless the file was skipped or moved, all of it was sent before.
  ghost predicate Complete(files: Files, x: Listed, log: seq<Response>, loose: bool)
    requires x.path in files
  {
    SaidDone(log, x.id, x.fileNum) && (loose || Data(log, x.id, x.fileNum) == files[x.path])
  }

  ghost predicate Sending(files: Files, x: Listed, j: SendJob, log: seq<Response>)
    requires x.path in files
  {
    && j.offset <= |files[x.path]| && (!j.confirmed ==> j.offset == 0)
    && Data(log, x.id, x.fileNum) == files[x.path][..j.offset]
  }

  ghost predicate UnderWay(files: Files, x: Listed, j: SendJob, log: seq<Response>, loose: bool)
    requires x.path in files
  {
    && j.path == x.path && j.fileSize == x.size == |files[x.path]| && j.id == x.id && j.fileNum == x.fileNum
    && (loose ==> j.confirmed)
    && if j.done then Complete(files, x, log, loose)
       else !SaidDone(log, x.id, x.fileNum) && (loose || Sending(files, x, j, log))
  }

  // Dropped for good, under way, or completed.
  ghost predicate Stands(files: Files, x: Listed, js: Jobs, log: seq<Response>, dropped: bool, loose: bool)
  {
    && x.path in files && |files[x.path]| == x.size
    && if dropped then !Has(js, x.id, x.fileNum) && !SaidDone(log, x.id, x.fileNum)
       else if Has(js, x.id, x.fileNum) then UnderWay(files, x, js[KeyOf(x)], log, loose)
       else Complete(files, x, log, loose)
  }

  function FileIn(asks: Downloads, id: i32, f: nat): Listed
    requires id in asks && f < |asks[id].entries|
  {
    FileOf(id, asks[id].root, asks[id].entries, f)
  }

  predicate Owned(asks: Downloads, log: seq<Response>, k: int, j: SendJob)
  {
    k == Key(j.id, j.fileNum) && Awaited(asks, log, j.id, j.fileNum)
  }

  ghost predicate AllStand(files: Files, asks: Downloads, js: Jobs, log: seq<Response>, dropped: set<Name>,
                           loose: set<Name>)
  {
    forall id: i32, f: nat :: Awaited(asks, log, id, f) ==>
      Stands(files, FileIn(asks, id, f), js, log, (id, f) in dropped, (id, f) in loose)
  }

  // What holds at any moment, inside a turn too.
  ghost predicate Inv(files: Files, asks: Downloads, js: Jobs, log: seq<Response>, dropped: set<Name>, loose: set<Name>)
  {
    && Sound(asks, log) && AllStand(files, asks, js, log, dropped, loose)
    && (forall k :: k in js ==> Owned(asks, log, k, js[k]))
    && (forall n :: n in dropped ==> Awaited(asks, log, n.0, n.1))
    && (forall n :: n in loose ==> Awaited(asks, log, n.0, n.1))
  }

  // Between turns every done job has been swept out.
  predicate Swept(js: Jobs) { forall k :: k in js ==> !js[k].done }

  // ----- one message -----

  lemma OtherStands(files: Files, x: Listed, js: Jobs, js': Jobs, log: seq<Response>, m: Response, dropped: bool,
                    loose: bool)
    requires Stands(files, x, js, log, dropped, loose) && !Of(m, x.id, x.fileNum)
    requires Has(js, x.id, x.fileNum) <==> Has(js', x.id, x.fileNum)
    requires Has(js, x.id, x.fileNum) ==> js'[KeyOf(x)] == js[KeyOf(x)]
    ensures Stands(files, x, js', log + [m], dropped, loose)
  {
    DataSnoc(log, m, x.id, x.fileNum);
    DoneSnoc(log, m, x.id, x.fileNum);
  }

  ghost predicate Says(m: Response, id: i32, f: nat) { Of(m, id, f) && !m.Error? }

  lemma SaysNext(asks: Downloads, log: seq<Response>, m: Response, id: i32, f: nat)
    requires Sound(asks, log) && Awaited(asks, log, id, f) && Says(m, id, f) && !SaidDone(log, id, f)
    ensures Sound(asks, log + [m]) && Announced(log + [m]) == Announced(log)
  {
    SoundSnoc(asks, log, m);
    AnnouncedSnoc(log, m);
  }

  lemma OwnStands(files: Files, x: Listed, js: Jobs, log: seq<Response>, key: int, j: SendJob, m: Response,
                  dropped: bool,
                  loose: bool)
    requires Stands(files, x, js, log, dropped, loose) && key in js && key == KeyOf(x)
    requires js[key].id == j.id == x.id && js[key].fileNum == j.fileNum == x.fileNum
    requires UnderWay(files, x, j, log + [m], loose)
    ensures Stands(files, x, js[key := j], log + [m], dropped, loose)
  {
  }

  // One more message about one file, whose job then stands as j says.
  lemma SayKeeps(files: Files, asks: Downloads, js: Jobs, log: seq<Response>, dropped: set<Name>, loose: set<Name>,
                 key: int, j: SendJob, m: Response)
    requires Inv(files, asks, js, log, dropped, loose) && key in js
    requires j.id == js[key].id && j.fileNum == js[key].fileNum && Says(m, j.id, j.fileNum)
    requires !SaidDone(log, j.id, j.fileNum)
    requires var x := FileIn(asks, j.id, j.fileNum);
             x.path in files && UnderWay(files, x, j, log + [m], (j.id, j.fileNum) in loose)
    ensures Inv(files, asks, js[key := j], log + [m], dropped, loose)
  {
    SaysNext(asks, log, m, j.id, j.fileNum);
    forall id: i32, f: nat | Awaited(asks, log, id, f)
      ensures Stands(files, FileIn(asks, id, f), js[key := j], log + [m], (id, f) in dropped, (id, f) in loose)
    {
      assert Stands(files, FileIn(asks, id, f), js, log, (id, f) in dropped, (id, f) in loose);
      assert Owned(asks, log, key, js[key]);
      if id != j.id || f != j.fileNum {
        assert Has(js, id, f) <==> Has(js[key := j], id, f);
        OtherStands(files, FileIn(asks, id, f), js, js[key := j], log, m, (id, f) in dropped, (id, f) in loose);
      } else {
        OwnStands(files, FileIn(asks, id, f), js, log, key, j, m, (id, f) in dropped, (id, f) in loose);
      }
    }
    var js' := js[key := j];
    forall k | k in js' ensures Owned(asks, log + [m], k, js'[k]) { assert Owned(asks, log, k, js[k]); }
  }

  // ----- a pass -----

  // Visits a job still needs at most, the one that says Done included.
  function Left(j: SendJob): nat
  {
    if j.done then 0 else if j.offset <= j.fileSize then j.fileSize - j.offset + 1 else 1
  }

  // What one visit says about its own file.
  lemma VisitSays(files: Files, x: Listed, j: SendJob, log: seq<Response>, short: nat, loose: bool)
    requires x.path in files && UnderWay(files, x, j, log, loose)
    ensures var (j', more) := Visit(files, j, short);
            && |more| <= 1 && (more == [] ==> j' == j) && j'.id == j.id && j'.fileNum == j.fileNum
            && (more != [] ==> !j.done && Says(more[0], x.id, x.fileNum))
            && (more != [] ==> UnderWay(files, x, j', log + [more[0]], loose))
            && Left(j') <= Left(j) && (j.confirmed && !j.done ==> Left(j') < Left(j)) && j'.confirmed == j.confirmed
  {
    if j.confirmed && !j.done {
      if j.offset >= j.fileSize { EndSays(files, x, j, log, loose); }
      else { BlockSays(files, x, j, log, short, loose); }
    }
  }

  lemma EndSays(files: Files, x: Listed, j: SendJob, log: seq<Response>, loose: bool)
    requires x.path in files && UnderWay(files, x, j, log, loose) && j.confirmed && !j.done && j.offset >= j.fileSize
    ensures UnderWay(files, x, j.(done := true), log + [Done(j.id, j.fileNum)], loose)
  {
    DataSnoc(log, Done(j.id, j.fileNum), j.id, j.fileNum);
    DoneSnoc(log, Done(j.id, j.fileNum), j.id, j.fileNum);
  }

  lemma BlockSays(files: Files, x: Listed, j: SendJob, log: seq<Response>, short: nat, loose: bool)
    requires x.path in files && UnderWay(files, x, j, log, loose) && j.confirmed && !j.done && j.offset < j.fileSize
    ensures var (j', more) := Visit(files, j, short);
            && |more| == 1 && more[0].Block? && Of(more[0], j.id, j.fileNum)
            && UnderWay(files, x, j', log + more, loose)
            && j'.id == j.id && j'.fileNum == j.fileNum && j'.confirmed && Left(j') < Left(j)
  {
    var n := SomeRead(files, j.path, j.offset, short);
    var data := files[j.path][j.offset..j.offset + n];
    var m := Block(j.id, j.fileNum, data, j.blkId);
    assert Visit(files, j, short) == (Moved(j, n), [m]);
    DataSnoc(log, m, j.id, j.fileNum);
    DoneSnoc(log, m, j.id, j.fileNum);
    assert files[j.path][..j.offset] + data == files[j.path][..j.offset + n];
  }

  lemma SomeRead(files: Files, path: Path, offset: nat, short: nat) returns (n: nat)
    requires path in files && offset < |files[path]|
    ensures 0 < n && offset + n <= |files[path]|
    ensures ReadBlock(files, path, offset, short) == Some(files[path][offset..offset + n])
  {
    n := |ReadBlock(files, path, offset, short).value|;
  }

  // A job in the map is under way.
  lemma JobUnderWay(files: Files, asks: Downloads, js: Jobs, log: seq<Response>, dropped: set<Name>, loose: set<Name>,
                    key: int)
    requires Inv(files, asks, js, log, dropped, loose) && key in js
    ensures Awaited(asks, log, js[key].id, js[key].fileNum) && (js[key].id, js[key].fileNum) !in dropped
    ensures var x := FileIn(asks, js[key].id, js[key].fileNum);
            x.path in files && UnderWay(files, x, js[key], log, (x.id, x.fileNum) in loose)
  {
    var j := js[key];
    assert Owned(asks, log, key, j);
    assert Stands(files, FileIn(asks, j.id, j.fileNum), js, log, (j.id, j.fileNum) in dropped,
                  (j.id, j.fileNum) in loose);
  }

  lemma VisitKeeps(files: Files, asks: Downloads, js: Jobs, log: seq<Response>, dropped: set<Name>, loose: set<Name>,
                   key: int, short: nat)
    requires Inv(files, asks, js, log, dropped, loose) && key in js
    ensures var (j, more) := Visit(files, js[key], short);
            Inv(files, asks, js[key := j], log + more, dropped, loose)
  {
    var (j, more) := Visit(files, js[key], short);
    JobUnderWay(files, asks, js, log, dropped, loose, key);
    VisitSays(files, FileIn(asks, j.id, j.fileNum), js[key], log, short, (j.id, j.fileNum) in loose);
    if more == [] {
      assert log + more == log;
      assert js[key := j] == js;
    } else {
      assert more == [more[0]];
      SayKeeps(files, asks, js, log, dropped, loose, key, j, more[0]);
    }
  }

  lemma {:induction false} VisitsKeep(files: Files, asks: Downloads, js: Jobs, log: seq<Response>, dropped: set<Name>,
                                      loose: set<Name>, order: seq<int>, shorts: nat -> nat)
    requires Inv(files, asks, js, log, dropped, loose)
    ensures var (js', out) := Visits(files, js, order, shorts);
            Inv(files, asks, js', log + out, dropped, loose) && js'.Keys == js.Keys
  {
    if order == [] {
      assert log + [] == log;
    } else {
      var n := |order| - 1;
      var (js', out) := Visits(files, js, order[..n], shorts);
      VisitsKeep(files, asks, js, log, dropped, loose, order[..n], shorts);
      if order[n] in js' {
        VisitKeeps(files, asks, js', log + out, dropped, loose, order[n], shorts(n));
        Assoc(log, out, Visit(files, js'[order[n]], shorts(n)).1);
      }
    }
  }

  // Sweeping out what is done.
  lemma SweepKeeps(files: Files, asks: Downloads, js: Jobs, log: seq<Response>, dropped: set<Name>, loose: set<Name>)
    requires Inv(files, asks, js, log, dropped, loose)
    ensures Inv(files, asks, Unfinished(js), log, dropped, loose) && Swept(Unfinished(js))
  {
  }

  lemma PassKeeps(files: Files, asks: Downloads, s: Sender, dropped: set<Name>, loose: set<Name>, order: seq<int>,
                  shorts: nat -> nat)
    requires Inv(files, asks, s.jobs, s.log, dropped, loose)
    ensures var t := SendPending(files, s, order, shorts);
            Inv(files, asks, t.jobs, t.log, dropped, loose) && Swept(t.jobs)
  {
    VisitsKeep(files, asks, s.jobs, s.log, dropped, loose, order, shorts);
    var (js, out) := Visits(files, s.jobs, order, shorts);
    SweepKeeps(files, asks, js, s.log + out, dropped, loose);
  }

  // ----- the messages handled -----

  function NameOf(j: SendJob): Name { (j.id, j.fileNum) }

  // The file whose job a confirmation does not let go on where it stands: a skip, or another
  // offset.
  function Loosened(s: Sender, e: Event): set<Name>
  {
    if e.Confirm? && Key(e.id, e.fileNum) in s.jobs then
      var j := s.jobs[Key(e.id, e.fileNum)];
      match e.c
      case FromStart => {}
      case OffsetBlk(b) => if j.offset == b * BLOCK_SIZE then {} else {NameOf(j)}
      case Skip => {NameOf(j)}
    else {}
  }

  // The files whose jobs are displaced by a list on the same keys, or cancelled.
  function Dropped(tree: Tree, s: Sender, e: Event): set<Name>
  {
    match e
    case Ask(id, root) => Names(Displaced(s.jobs, id, tree(root)))
    case Cancel(id) => Names(map k | k in s.jobs && s.jobs[k].id == id :: s.jobs[k])
    case _ => {}
  }

  function Names(js: Jobs): set<Name> { set k | k in js :: NameOf(js[k]) }

  // The jobs on the keys of a list of job id, and those beside them.
  function Displaced(jobs: Jobs, id: i32, es: seq<Entry>): Jobs
  {
    map k | k in jobs && FileAt(es, k - 1000 * id) :: jobs[k]
  }

  function Cleared(jobs: Jobs, id: i32, es: seq<Entry>): Jobs
  {
    map k | k in jobs && !FileAt(es, k - 1000 * id) :: jobs[k]
  }

  ghost predicate Parted(js: Jobs, kept: Jobs, out: Jobs)
  {
    && (forall k :: k in js <==> k in kept || k in out) && (forall k :: k in kept ==> k !in out)
    && (forall k :: k in kept ==> kept[k] == js[k]) && forall k :: k in out ==> out[k] == js[k]
  }

  lemma Looser(files: Files, asks: Downloads, js: Jobs, log: seq<Response>, dropped: set<Name>, loose: set<Name>,
               key: int)
    requires Inv(files, asks, js, log, dropped, loose) && key in js && js[key].confirmed
    ensures Inv(files, asks, js, log, dropped, loose + {NameOf(js[key])})
  {
    JobUnderWay(files, asks, js, log, dropped, loose, key);
    forall id: i32, f: nat | Awaited(asks, log, id, f)
      ensures Stands(files, FileIn(asks, id, f), js, log, (id, f) in dropped, (id, f) in loose + {NameOf(js[key])})
    {
      assert Stands(files, FileIn(asks, id, f), js, log, (id, f) in dropped, (id, f) in loose);
    }
  }

  // A job that changes without a message.
  lemma JobKeeps(files: Files, asks: Downloads, js: Jobs, log: seq<Response>, dropped: set<Name>, loose: set<Name>,
                 key: int, j: SendJob)
    requires Inv(files, asks, js, log, dropped, loose) && key in js && NameOf(j) == NameOf(js[key])
    requires var x := FileIn(asks, j.id, j.fileNum);
             x.path in files && UnderWay(files, x, j, log, NameOf(j) in loose)
    ensures Inv(files, asks, js[key := j], log, dropped, loose)
  {
    JobUnderWay(files, asks, js, log, dropped, loose, key);
    forall id: i32, f: nat | Awaited(asks, log, id, f)
      ensures Stands(files, FileIn(asks, id, f), js[key := j], log, (id, f) in dropped, (id, f) in loose)
    {
      assert Stands(files, FileIn(asks, id, f), js, log, (id, f) in dropped, (id, f) in loose);
    }
  }

  lemma ConfirmKeeps(files: Files, asks: Downloads, s: Sender, dropped: set<Name>, loose: set<Name>, id: i32, f: nat,
                     c: Choice)
    requires Inv(files, asks, s.jobs, s.log, dropped, loose) && Swept(s.jobs)
    ensures var t := SendConfirm(s, id, f, c);
            Inv(files, asks, t.jobs, t.log, dropped, loose + Loosened(s, Confirm(id, f, c)))
  {
    if Key(id, f) !in s.jobs {
      NothingMore(loose, {}, {}, {});
    } else {
      match c
      case FromStart => ConfirmStart(files, asks, s, dropped, loose, id, f);
      case OffsetBlk(b) => ConfirmMove(files, asks, s, dropped, loose, id, f, b);
      case Skip => ConfirmSkip(files, asks, s, dropped, loose, id, f);
    }
  }

  lemma ConfirmStart(files: Files, asks: Downloads, s: Sender, dropped: set<Name>, loose: set<Name>, id: i32, f: nat)
    requires Inv(files, asks, s.jobs, s.log, dropped, loose) && Swept(s.jobs) && Key(id, f) in s.jobs
    ensures var t := SendConfirm(s, id, f, FromStart);
            Inv(files, asks, t.jobs, t.log, dropped, loose + Loosened(s, Confirm(id, f, FromStart)))
  {
    StartKeeps(files, asks, s.jobs, s.log, dropped, loose, Key(id, f));
    NothingMore(loose, {}, {}, {});
  }

  lemma ConfirmMove(files: Files, asks: Downloads, s: Sender, dropped: set<Name>, loose: set<Name>, id: i32, f: nat,
                    b: u32)
    requires Inv(files, asks, s.jobs, s.log, dropped, loose) && Swept(s.jobs) && Key(id, f) in s.jobs
    ensures var t := SendConfirm(s, id, f, OffsetBlk(b));
            Inv(files, asks, t.jobs, t.log, dropped, loose + Loosened(s, Confirm(id, f, OffsetBlk(b))))
  {
    var key := Key(id, f);
    StartKeeps(files, asks, s.jobs, s.log, dropped, loose, key);
    MoveKeeps(files, asks, s.jobs[key := s.jobs[key].(confirmed := true)], s.log, dropped, loose, key, b);
    MovedIs(s, id, f, b);
  }

  lemma MovedIs(s: Sender, id: i32, f: nat, b: u32)
    requires Key(id, f) in s.jobs
    ensures var key := Key(id, f);
            var j := s.jobs[key].(confirmed := true);
            var js := s.jobs[key := j];
            && SendConfirm(s, id, f, OffsetBlk(b))
               == Sender(js[key := js[key].(offset := b * BLOCK_SIZE, blkId := b)], s.log)
            && Loosened(s, Confirm(id, f, OffsetBlk(b)))
               == if js[key].offset == b * BLOCK_SIZE then {} else {NameOf(js[key])}
  {
    var key := Key(id, f);
    var j := s.jobs[key].(confirmed := true);
    Twice(s.jobs, key, j, j.(offset := b * BLOCK_SIZE, blkId := b));
  }

  lemma ConfirmSkip(files: Files, asks: Downloads, s: Sender, dropped: set<Name>, loose: set<Name>, id: i32, f: nat)
    requires Inv(files, asks, s.jobs, s.log, dropped, loose) && Swept(s.jobs) && Key(id, f) in s.jobs
    ensures var t := SendConfirm(s, id, f, Skip);
            Inv(files, asks, t.jobs, t.log, dropped, loose + Loosened(s, Confirm(id, f, Skip)))
  {
    var key := Key(id, f);
    var js := s.jobs[key := s.jobs[key].(confirmed := true)];
    StartKeeps(files, asks, s.jobs, s.log, dropped, loose, key);
    SkipKeeps(files, asks, js, s.log, dropped, loose, key);
    Twice(s.jobs, key, js[key], js[key].(done := true));
  }

  lemma Twice(js: Jobs, key: int, j: SendJob, j': SendJob)
    ensures js[key := j][key := j'] == js[key := j']
  {
  }

  lemma StartKeeps(files: Files, asks: Downloads, js: Jobs, log: seq<Response>, dropped: set<Name>, loose: set<Name>,
                   key: int)
    requires Inv(files, asks, js, log, dropped, loose) && key in js && !js[key].done
    ensures Inv(files, asks, js[key := js[key].(confirmed := true)], log, dropped, loose)
  {
    JobUnderWay(files, asks, js, log, dropped, loose, key);
    JobKeeps(files, asks, js, log, dropped, loose, key, js[key].(confirmed := true));
  }

  lemma MoveKeeps(files: Files, asks: Downloads, js: Jobs, log: seq<Response>, dropped: set<Name>, loose: set<Name>,
                  key: int, b: u32)
    requires Inv(files, asks, js, log, dropped, loose) && key in js && js[key].confirmed && !js[key].done
    ensures var j := js[key];
            Inv(files, asks, js[key := j.(offset := b * BLOCK_SIZE, blkId := b)], log, dropped,
                loose + if j.offset == b * BLOCK_SIZE then {} else {NameOf(j)})
  {
    var j := js[key].(offset := b * BLOCK_SIZE, blkId := b);
    JobUnderWay(files, asks, js, log, dropped, loose, key);
    if js[key].offset == j.offset {
      assert loose + {} == loose;
      JobKeeps(files, asks, js, log, dropped, loose, key, j);
    } else {
      Looser(files, asks, js, log, dropped, loose, key);
      JobKeeps(files, asks, js, log, dropped, loose + {NameOf(j)}, key, j);
    }
  }

  lemma SkipKeeps(files: Files, asks: Downloads, js: Jobs, log: seq<Response>, dropped: set<Name>, loose: set<Name>,
                  key: int)
    requires Inv(files, asks, js, log, dropped, loose) && key in js && js[key].confirmed && !js[key].done
    ensures var j := js[key];
            Inv(files, asks, js[key := j.(done := true)], log + [Done(j.id, j.fileNum)], dropped, loose + {NameOf(j)})
  {
    var j := js[key];
    JobUnderWay(files, asks, js, log, dropped, loose, key);
    Looser(files, asks, js, log, dropped, loose, key);
    DoneSnoc(log, Done(j.id, j.fileNum), j.id, j.fileNum);
    SayKeeps(files, asks, js, log, dropped, loose + {NameOf(j)}, key, j.(done := true), Done(j.id, j.fileNum));
  }

  lemma CancelKeeps(files: Files, asks: Downloads, tree: Tree, s: Sender, dropped: set<Name>, loose: set<Name>, id: i32)
    requires Inv(files, asks, s.jobs, s.log, dropped, loose) && Swept(s.jobs)
    ensures var t := Handle(tree, s, Cancel(id));
            Inv(files, asks, t.jobs, t.log, dropped + Dropped(tree, s, Cancel(id)), loose)
  {
    var t := Handle(tree, s, Cancel(id));
    Removed(files, asks, s.jobs, t.jobs, map k | k in s.jobs && s.jobs[k].id == id :: s.jobs[k], s.log, dropped, loose);
  }

  // Taking out jobs that are not done.
  lemma Removed(files: Files, asks: Downloads, js: Jobs, kept: Jobs, out: Jobs, log: seq<Response>, dropped: set<Name>,
                loose: set<Name>)
    requires Inv(files, asks, js, log, dropped, loose) && Swept(js) && Parted(js, kept, out)
    ensures Inv(files, asks, kept, log, dropped + Names(out), loose)
  {
    forall id: i32, f: nat | Awaited(asks, log, id, f)
      ensures Stands(files, FileIn(asks, id, f), kept, log, (id, f) in dropped + Names(out), (id, f) in loose)
    {
      assert Stands(files, FileIn(asks, id, f), js, log, (id, f) in dropped, (id, f) in loose);
      OutHas(asks, js, kept, out, log, id, f);
    }
    forall n | n in Names(out) ensures Awaited(asks, log, n.0, n.1) {
      var k :| k in out && NameOf(out[k]) == n;
      assert Owned(asks, log, k, js[k]);
    }
    forall k | k in kept ensures Owned(asks, log, k, kept[k]) { assert Owned(asks, log, k, js[k]); }
  }

  // The job of a file is on one side or the other.
  lemma OutHas(asks: Downloads, js: Jobs, kept: Jobs, out: Jobs, log: seq<Response>, id: i32, f: nat)
    requires Parted(js, kept, out) && forall k :: k in js ==> Owned(asks, log, k, js[k])
    ensures (id, f) in Names(out) <==> Has(out, id, f)
    ensures Has(js, id, f) <==> Has(kept, id, f) || Has(out, id, f)
    ensures !(Has(kept, id, f) && Has(out, id, f))
  {
    if (id, f) in Names(out) {
      var k :| k in out && NameOf(out[k]) == (id, f);
      assert Owned(asks, log, k, js[k]);
    }
    if Has(out, id, f) { assert NameOf(out[Key(id, f)]) == (id, f); }
  }

  // A new list: its files take their keys.
  lemma AskKeeps(files: Files, asks: Downloads, tree: Tree, s: Sender, dropped: set<Name>, loose: set<Name>, id: i32,
                 root: Path)
    requires Inv(files, asks, s.jobs, s.log, dropped, loose) && Swept(s.jobs)
    requires Fresh(files, asks, tree, s.log, id, root)
    ensures var t := Handle(tree, s, Ask(id, root));
            Inv(files, asks, t.jobs, t.log, dropped + Dropped(tree, s, Ask(id, root)), loose)
  {
    var js, out := Cleared(s.jobs, id, tree(root)), Displaced(s.jobs, id, tree(root));
    Removed(files, asks, s.jobs, js, out, s.log, dropped, loose);
    QueueFills(s.jobs, id, root, tree(root));
    FillKeeps(files, asks, js, Handle(tree, s, Ask(id, root)).jobs, s.log, dropped + Names(out), loose, id);
  }

  // The client has a job for it, no list has been sent, and the listing is true.
  ghost predicate Fresh(files: Files, asks: Downloads, tree: Tree, log: seq<Response>, id: i32, root: Path)
  {
    && id in asks && asks[id].root == root && asks[id].entries == tree(root)
    && id !in Announced(log) && True(files, root, tree(root))
  }

  // Listed files are there with their sizes.
  ghost predicate True(files: Files, root: Path, es: seq<Entry>)
  {
    forall f :: FileAt(es, f) ==> Located(root, es[f].name) in files && |files[Located(root, es[f].name)]| == es[f].size
  }

  // js with the list's files on keys that were free.
  ghost predicate Filled(js: Jobs, id: i32, root: Path, es: seq<Entry>, js': Jobs)
  {
    && (forall f: nat :: FileAt(es, f) ==> Key(id, f) in js' && js'[Key(id, f)] == NewJob(FileOf(id, root, es, f)))
    && (forall k :: k in js ==> k in js' && js'[k] == js[k])
    && forall k :: k in js' && k !in js ==>
         js'[k].id == id && FileAt(es, js'[k].fileNum) && k == Key(id, js'[k].fileNum)
  }

  lemma QueueFills(jobs: Jobs, id: i32, root: Path, es: seq<Entry>)
    ensures Filled(Cleared(jobs, id, es), id, root, es, Queue(jobs, Listing(id, root, es)))
  {
    var js, js' := Cleared(jobs, id, es), Queue(jobs, Listing(id, root, es));
    forall k ensures Under(jobs, id, root, es, js', k) { QueueListing(jobs, id, root, es, k); }
    UnderFills(jobs, id, root, es, js');
  }

  lemma UnderFills(jobs: Jobs, id: i32, root: Path, es: seq<Entry>, js': Jobs)
    requires forall k :: Under(jobs, id, root, es, js', k)
    ensures Filled(Cleared(jobs, id, es), id, root, es, js')
  {
    forall f: nat | FileAt(es, f) ensures Key(id, f) in js' && js'[Key(id, f)] == NewJob(FileOf(id, root, es, f)) {
      assert Under(jobs, id, root, es, js', Key(id, f));
    }
    forall k | k in js' || k in Cleared(jobs, id, es)
      ensures k in js' && (k in Cleared(jobs, id, es) ==> js'[k] == jobs[k])
      ensures k !in Cleared(jobs, id, es) ==>
                js'[k].id == id && FileAt(es, js'[k].fileNum) && k == Key(id, js'[k].fileNum)
    {
      assert Under(jobs, id, root, es, js', k);
    }
  }

  lemma FillKeeps(files: Files, asks: Downloads, js: Jobs, js': Jobs, log: seq<Response>, dropped: set<Name>,
                  loose: set<Name>, id: i32)
    requires Inv(files, asks, js, log, dropped, loose) && id in asks && id !in Announced(log)
    requires True(files, asks[id].root, asks[id].entries) && Filled(js, id, asks[id].root, asks[id].entries, js')
    ensures Inv(files, asks, js', log + [Dir(id, asks[id].entries)], dropped, loose)
  {
    var m := Dir(id, asks[id].entries);
    SoundSnoc(asks, log, m);
    AnnouncedSnoc(log, m);
    forall id': i32, f: nat | Awaited(asks, log + [m], id', f)
      ensures Stands(files, FileIn(asks, id', f), js', log + [m], (id', f) in dropped, (id', f) in loose)
    {
      if id' == id {
        NewStands(files, asks, js', log, id, f);
      } else {
        OldStands(files, asks, js, js', log, dropped, loose, id, id', f);
      }
    }
    forall k | k in js' ensures Owned(asks, log + [m], k, js'[k]) {
      assert k in js ==> Owned(asks, log, k, js[k]);
    }
  }

  lemma OldStands(files: Files, asks: Downloads, js: Jobs, js': Jobs, log: seq<Response>, dropped: set<Name>,
                  loose: set<Name>, id: i32, id': i32, f: nat)
    requires Inv(files, asks, js, log, dropped, loose) && id in asks && id' != id && Awaited(asks, log, id', f)
    requires Filled(js, id, asks[id].root, asks[id].entries, js')
    ensures Stands(files, FileIn(asks, id', f), js', log + [Dir(id, asks[id].entries)], (id', f) in dropped,
                   (id', f) in loose)
  {
    assert Stands(files, FileIn(asks, id', f), js, log, (id', f) in dropped, (id', f) in loose);
    assert Has(js, id', f) <==> Has(js', id', f);
    OtherStands(files, FileIn(asks, id', f), js, js', log, Dir(id, asks[id].entries), (id', f) in dropped,
                (id', f) in loose);
  }

  lemma NewStands(files: Files, asks: Downloads, js: Jobs, log: seq<Response>, id: i32, f: nat)
    requires Sound(asks, log) && id !in Announced(log) && id in asks && FileAt(asks[id].entries, f)
    requires True(files, asks[id].root, asks[id].entries)
    requires Key(id, f) in js && js[Key(id, f)] == NewJob(FileIn(asks, id, f))
    ensures Stands(files, FileIn(asks, id, f), js, log + [Dir(id, asks[id].entries)], false, false)
  {
    NothingYet(asks, log, id, f);
    DataSnoc(log, Dir(id, asks[id].entries), id, f);
    DoneSnoc(log, Dir(id, asks[id].entries), id, f);
  }

  // ----- a turn -----

  // What a turn reads is possible.
  ghost predicate Possible(files: Files, asks: Downloads, tree: Tree, log: seq<Response>, e: Event)
  {
    e.Ask? ==> Fresh(files, asks, tree, log, e.id, e.root)
  }

  lemma HandleKeeps(files: Files, asks: Downloads, tree: Tree, s: Sender, dropped: set<Name>, loose: set<Name>,
                    e: Event)
    requires Inv(files, asks, s.jobs, s.log, dropped, loose) && Swept(s.jobs) && Possible(files, asks, tree, s.log, e)
    ensures var t := Handle(tree, s, e);
            Inv(files, asks, t.jobs, t.log, dropped + Dropped(tree, s, e), loose + Loosened(s, e))
  {
    match e
    case Quiet => NothingMore(dropped, loose, {}, {});
    case Ask(id, root) =>
      AskKeeps(files, asks, tree, s, dropped, loose, id, root);
      NothingMore({}, loose, {}, Loosened(s, e));
    case Confirm(id, f, c) =>
      ConfirmKeeps(files, asks, s, dropped, loose, id, f, c);
      NothingMore(dropped, {}, Dropped(tree, s, e), {});
    case Cancel(id) =>
      CancelKeeps(files, asks, tree, s, dropped, loose, id);
      NothingMore({}, loose, {}, Loosened(s, e));
  }

  lemma NothingMore(a: set<Name>, b: set<Name>, c: set<Name>, d: set<Name>)
    requires c == {} && d == {}
    ensures a + c == a && b + d == b
  {
  }

  // A turn of the loop, whatever it reads and however its pass goes.
  lemma TurnKeeps(files: Files, asks: Downloads, tree: Tree, s: Sender, dropped: set<Name>, loose: set<Name>, e: Event,
                  order: seq<int>, shorts: nat -> nat)
    requires Inv(files, asks, s.jobs, s.log, dropped, loose) && Swept(s.jobs) && Possible(files, asks, tree, s.log, e)
    ensures var t := Turned(files, tree, s, e, order, shorts);
            Inv(files, asks, t.jobs, t.log, dropped + Dropped(tree, s, e), loose + Loosened(s, e)) && Swept(t.jobs)
  {
    HandleKeeps(files, asks, tree, s, dropped, loose, e);
    PassKeeps(files, asks, Handle(tree, s, e), dropped + Dropped(tree, s, e), loose + Loosened(s, e), order, shorts);
  }
}
