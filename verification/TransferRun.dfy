// Downloads from the window to the disk: the client of src/remote.rs and src/ui/remote.html and the
// loop of src/server.rs with the messages between them, over all their interleavings.

module TransferRun {
  import opened Wrappers
  import opened MachineInts
  import opened TransferSpec
  import opened TransferQueue
  import opened TransferSend
  import opened TransferList
  import opened TransferReceive

  // The window's next job number; requests not yet read; the server; how many of its messages
  // the client has taken; the client. The rest is history: the jobs asked for, the files that
  // lost their job, and those that were skipped or moved.
  datatype System = System(next: int, up: seq<Event>, s: Sender, taken: nat, r: Receiver,
                           asks: Downloads, dropped: set<Name>, loose: set<Name>)

  datatype Act =
    | Want(dest: Path, root: Path)                                // a download is opened and asked for
    | Upload                                                      // an upload takes a number as well
    | Decide(id: i32, fileNum: nat, c: Choice)                    // a confirmation is sent
    | Stop(id: i32)                                               // a cancellation is sent
    | Serve(heard: bool, order: seq<int>, shorts: nat -> nat)     // a turn of the server
    | Take                                                        // the client takes one message

  function Start(disk: Files): System
  {
    System(1, [], Sender(map[], []), 0, Receiver(map[], disk, []), map[], {}, {})
  }

  function Heard(y: System, heard: bool): Event { if heard && y.up != [] then y.up[0] else Quiet }

  // A pass goes over the keys that are there after the message.
  predicate CanServe(tree: Tree, y: System, heard: bool, order: seq<int>)
  {
    Enumerates(order, Handle(tree, y.s, Heard(y, heard)).jobs)
  }

  function Served(files: Files, tree: Tree, y: System, heard: bool, order: seq<int>, shorts: nat -> nat): System
  {
    var e := Heard(y, heard);
    y.(up := if heard && y.up != [] then y.up[1..] else y.up,
       s := Turned(files, tree, y.s, e, order, shorts),
       dropped := y.dropped + Dropped(tree, y.s, e), loose := y.loose + Loosened(y.s, e))
  }

  function Wanted(tree: Tree, y: System, id: i32, dest: Path, root: Path): System
  {
    y.(next := y.next + 1, up := y.up + [Ask(id, root)], r := Opened(y.r, id, dest),
       asks := y.asks[id := Download(dest, root, tree(root))])
  }

  function Taken(y: System): System
    requires y.taken < |y.s.log|
  {
    var m := y.s.log[y.taken];
    y.(taken := y.taken + 1, r := OnResponse(y.r, m),
       up := y.up + Refusal(y.r, m))
  }

  function Step(files: Files, tree: Tree, y: System, a: Act): System
  {
    match a
    case Want(dest, root) => if 0 <= y.next < 0x8000_0000 then Wanted(tree, y, y.next, dest, root) else y
    case Upload => y.(next := y.next + 1)
    case Decide(id, f, c) => y.(up := y.up + [Confirm(id, f, c)])
    case Stop(id) => y.(up := y.up + [Cancel(id)])
    case Serve(heard, order, shorts) =>
      if CanServe(tree, y, heard, order) then Served(files, tree, y, heard, order, shorts) else y
    case Take => if y.taken < |y.s.log| then Taken(y) else y
  }

  function Run(files: Files, tree: Tree, y: System, acts: seq<Act>): System
  {
    if acts == [] then y
    else Step(files, tree, Run(files, tree, y, acts[..|acts| - 1]), acts[|acts| - 1])
  }

  // What is listed is there, and stays as it is.
  ghost predicate Truthful(files: Files, tree: Tree) { forall root :: True(files, root, tree(root)) }

  // ----- the invariant -----

  predicate AskAt(up: seq<Event>, i: int) { 0 <= i < |up| && up[i].Ask? }

  // Requests under way: each for a job of the client that has no list yet, and one for each.
  ghost predicate Requests(asks: Downloads, log: seq<Response>, up: seq<Event>)
  {
    && (forall i :: AskAt(up, i) ==>
          up[i].id in asks && asks[up[i].id].root == up[i].root && up[i].id !in Announced(log))
    && (forall i, j :: AskAt(up, i) && AskAt(up, j) && i != j ==> up[i].id != up[j].id)
    && forall id :: id in asks ==> id in Announced(log) || exists i :: AskAt(up, i) && up[i].id == id
  }

  ghost predicate Numbered(tree: Tree, y: System)
  {
    forall id :: id in y.asks ==> id < y.next && y.asks[id].entries == tree(y.asks[id].root)
  }

  ghost predicate Good(files: Files, tree: Tree, disk: Files, y: System)
  {
    && Inv(files, y.asks, y.s.jobs, y.s.log, y.dropped, y.loose) && Swept(y.s.jobs)
    && Numbered(tree, y) && Requests(y.asks, y.s.log, y.up)
    && Followed(y.asks, disk, y.r, y.s.log, y.taken)
  }

  // The client stands where the messages it has taken say.
  ghost predicate Followed(asks: Downloads, disk: Files, r: Receiver, log: seq<Response>, n: nat)
  {
    n <= |log| && (Sensible(asks) ==> After(asks, disk, r, log[..n]))
  }

  lemma StartGood(files: Files, tree: Tree, disk: Files)
    ensures Good(files, tree, disk, Start(disk))
  {
  }

  // ----- a request -----

  lemma InvMore(files: Files, asks: Downloads, more: Downloads, js: Jobs, log: seq<Response>, dropped: set<Name>,
                loose: set<Name>)
    requires Inv(files, asks, js, log, dropped, loose) && forall id :: id in asks ==> id in more && more[id] == asks[id]
    ensures Inv(files, more, js, log, dropped, loose) && Announced(log) <= asks.Keys
  {
    SoundMore(asks, more, log);
    forall id: i32, f: nat ensures Awaited(more, log, id, f) <==> Awaited(asks, log, id, f) { }
    forall id: i32, f: nat | Awaited(more, log, id, f)
      ensures Stands(files, FileIn(more, id, f), js, log, (id, f) in dropped, (id, f) in loose)
    {
      assert Stands(files, FileIn(asks, id, f), js, log, (id, f) in dropped, (id, f) in loose);
    }
    forall k | k in js ensures Owned(more, log, k, js[k]) { assert Owned(asks, log, k, js[k]); }
  }

  lemma WantGood(files: Files, tree: Tree, disk: Files, y: System, dest: Path, root: Path)
    requires Good(files, tree, disk, y) && 0 <= y.next < 0x8000_0000
    ensures Good(files, tree, disk, Wanted(tree, y, y.next, dest, root))
  {
    var id: i32, d := y.next, Download(dest, root, tree(root));
    var z := Wanted(tree, y, id, dest, root);
    InvMore(files, y.asks, z.asks, y.s.jobs, y.s.log, y.dropped, y.loose);
    RequestMore(y.asks, y.s.log, y.up, id, d);
    FollowedMore(y.asks, disk, y.r, y.s.log, y.taken, id, d);
  }

  lemma FollowedMore(asks: Downloads, disk: Files, r: Receiver, log: seq<Response>, n: nat, id: i32, d: Download)
    requires Followed(asks, disk, r, log, n) && Sound(asks, log) && id !in asks
    ensures Followed(asks[id := d], disk, Opened(r, id, d.dest), log, n)
  {
    if Sensible(asks[id := d]) {
      LessSensible(asks, asks[id := d]);
      SoundPrefix(asks, log, n);
      WantKeeps(asks, disk, r, log[..n], id, d);
    }
  }

  lemma FollowedNext(asks: Downloads, disk: Files, r: Receiver, log: seq<Response>, n: nat)
    requires Followed(asks, disk, r, log, n) && Sound(asks, log) && n < |log|
    ensures Followed(asks, disk, OnResponse(r, log[n]), log, n + 1)
  {
    if Sensible(asks) { TakeNext(asks, disk, r, log, n); }
  }

  lemma LessSensible(asks: Downloads, more: Downloads)
    requires Sensible(more) && forall id :: id in asks ==> id in more && more[id] == asks[id]
    ensures Sensible(asks)
  {
  }

  lemma RequestMore(asks: Downloads, log: seq<Response>, up: seq<Event>, id: i32, d: Download)
    requires Requests(asks, log, up) && id !in asks && Announced(log) <= asks.Keys
    ensures Requests(asks[id := d], log, up + [Ask(id, d.root)])
  {
    var up' := up + [Ask(id, d.root)];
    assert AskAt(up', |up|);
    forall i | AskAt(up, i) ensures AskAt(up', i) && up'[i] == up[i] { }
  }

  // Anything but a request may be added.
  lemma RequestOther(asks: Downloads, log: seq<Response>, up: seq<Event>, e: Event)
    requires Requests(asks, log, up) && !e.Ask?
    ensures Requests(asks, log, up + [e])
  {
    forall i | AskAt(up, i) ensures AskAt(up + [e], i) && (up + [e])[i] == up[i] { }
  }

  // ----- a turn -----

  lemma HeardPossible(files: Files, tree: Tree, disk: Files, y: System, heard: bool)
    requires Good(files, tree, disk, y) && Truthful(files, tree)
    ensures Possible(files, y.asks, tree, y.s.log, Heard(y, heard))
  {
    if heard && y.up != [] && y.up[0].Ask? { assert AskAt(y.up, 0); }
  }

  // What a turn adds to the log announces the list it was asked for, and no other.
  lemma {:induction false} VisitsAnnounce(files: Files, js: Jobs, order: seq<int>, shorts: nat -> nat,
                                          log: seq<Response>)
    ensures Announced(log + Visits(files, js, order, shorts).1) == Announced(log)
  {
    if order == [] {
      assert log + [] == log;
    } else {
      var n := |order| - 1;
      var (js', out) := Visits(files, js, order[..n], shorts);
      VisitsAnnounce(files, js, order[..n], shorts, log);
      if order[n] in js' {
        Assoc(log, out, Visit(files, js'[order[n]], shorts(n)).1);
        VisitAnnounces(files, js'[order[n]], shorts(n), log + out);
      }
    }
  }

  lemma VisitAnnounces(files: Files, j: SendJob, short: nat, log: seq<Response>)
    ensures Announced(log + Visit(files, j, short).1) == Announced(log)
  {
    var more := Visit(files, j, short).1;
    if more == [] {
      assert log + more == log;
    } else {
      assert more == [more[0]];
      AnnouncedSnoc(log, more[0]);
    }
  }

  lemma TurnAnnounces(files: Files, tree: Tree, s: Sender, e: Event, order: seq<int>, shorts: nat -> nat)
    ensures Announced(Turned(files, tree, s, e, order, shorts).log)
         == Announced(s.log) + (if e.Ask? then {e.id} else {})
  {
    var h := Handle(tree, s, e);
    VisitsAnnounce(files, h.jobs, order, shorts, h.log);
    HandleAnnounces(tree, s, e);
  }

  lemma HandleAnnounces(tree: Tree, s: Sender, e: Event)
    ensures Announced(Handle(tree, s, e).log) == Announced(s.log) + (if e.Ask? then {e.id} else {})
  {
    match e
    case Ask(id, root) => AnnouncedSnoc(s.log, Dir(id, tree(root)));
    case Confirm(id, f, c) =>
      if Key(id, f) in s.jobs { AnnouncedSnoc(s.log, Done(s.jobs[Key(id, f)].id, s.jobs[Key(id, f)].fileNum)); }
    case _ =>
  }

  lemma RequestHeard(asks: Downloads, log: seq<Response>, log': seq<Response>, up: seq<Event>, heard: bool)
    requires Requests(asks, log, up)
    requires var e := if heard && up != [] then up[0] else Quiet;
             Announced(log') == Announced(log) + (if e.Ask? then {e.id} else {})
    ensures Requests(asks, log', if heard && up != [] then up[1..] else up)
  {
    if heard && up != [] {
      forall i | AskAt(up[1..], i) ensures AskAt(up, i + 1) && up[1..][i] == up[i + 1] { }
      forall id | id in asks && id !in Announced(log') ensures exists i :: AskAt(up[1..], i) && up[1..][i].id == id {
        var i :| AskAt(up, i) && up[i].id == id;
        assert AskAt(up[1..], i - 1);
      }
      if up[0].Ask? {
        assert AskAt(up, 0);
      }
    }
  }

  lemma ServeGood(files: Files, tree: Tree, disk: Files, y: System, heard: bool, order: seq<int>, shorts: nat -> nat)
    requires Good(files, tree, disk, y) && Truthful(files, tree)
    ensures Good(files, tree, disk, Served(files, tree, y, heard, order, shorts))
  {
    var e := Heard(y, heard);
    HeardPossible(files, tree, disk, y, heard);
    TurnKeeps(files, y.asks, tree, y.s, y.dropped, y.loose, e, order, shorts);
    TurnAnnounces(files, tree, y.s, e, order, shorts);
    RequestHeard(y.asks, y.s.log, Turned(files, tree, y.s, e, order, shorts).log, y.up, heard);
    TurnAdds(files, tree, y.s, e, order, shorts, y.taken);
  }

  // The log only grows.
  lemma TurnAdds(files: Files, tree: Tree, s: Sender, e: Event, order: seq<int>, shorts: nat -> nat, n: nat)
    requires n <= |s.log|
    ensures var log := Turned(files, tree, s, e, order, shorts).log; n <= |log| && log[..n] == s.log[..n]
  {
    var h := Handle(tree, s, e);
    assert s.log <= h.log <= Turned(files, tree, s, e, order, shorts).log;
  }

  // ----- the client takes a message -----

  lemma TakeGood(files: Files, tree: Tree, disk: Files, y: System)
    requires Good(files, tree, disk, y) && y.taken < |y.s.log|
    ensures Good(files, tree, disk, Taken(y))
  {
    var up, r := TakenIs(y);
    TakenFollowed(files, tree, disk, y);
    TakenRequests(files, tree, disk, y, up);
    ClientGood(files, tree, disk, y, y.taken + 1, r, up);
  }

  lemma TakenFollowed(files: Files, tree: Tree, disk: Files, y: System)
    requires Good(files, tree, disk, y) && y.taken < |y.s.log|
    ensures Followed(y.asks, disk, OnResponse(y.r, y.s.log[y.taken]), y.s.log, y.taken + 1)
  {
    FollowedNext(y.asks, disk, y.r, y.s.log, y.taken);
  }

  lemma TakenRequests(files: Files, tree: Tree, disk: Files, y: System, up: seq<Event>)
    requires Good(files, tree, disk, y) && (up == y.up || exists id :: up == y.up + [Cancel(id)])
    ensures Requests(y.asks, y.s.log, up)
  {
    if up != y.up {
      var id :| up == y.up + [Cancel(id)];
      RequestOther(y.asks, y.s.log, y.up, Cancel(id));
    }
  }

  lemma TakenIs(y: System) returns (up: seq<Event>, r: Receiver)
    requires y.taken < |y.s.log|
    ensures Taken(y) == y.(taken := y.taken + 1, r := r, up := up) && r == OnResponse(y.r, y.s.log[y.taken])
    ensures var m := y.s.log[y.taken];
            up == y.up || (m.Dir? && !NamesSafe(m.entries) && up == y.up + [Cancel(m.id)])
  {
    up, r := Taken(y).up, OnResponse(y.r, y.s.log[y.taken]);
    assert y.up + [] == y.up;
  }

  lemma ClientGood(files: Files, tree: Tree, disk: Files, y: System, n: nat, r: Receiver, up: seq<Event>)
    requires Good(files, tree, disk, y) && Followed(y.asks, disk, r, y.s.log, n) && Requests(y.asks, y.s.log, up)
    ensures Good(files, tree, disk, y.(taken := n, r := r, up := up))
  {
  }

  lemma StepGood(files: Files, tree: Tree, disk: Files, y: System, a: Act)
    requires Good(files, tree, disk, y) && Truthful(files, tree)
    ensures Good(files, tree, disk, Step(files, tree, y, a))
  {
    match a
    case Want(dest, root) => if 0 <= y.next < 0x8000_0000 { WantGood(files, tree, disk, y, dest, root); }
    case Upload =>
    case Decide(id, f, c) => RequestOther(y.asks, y.s.log, y.up, Confirm(id, f, c));
    case Stop(id) => RequestOther(y.asks, y.s.log, y.up, Cancel(id));
    case Serve(heard, order, shorts) => ServeGood(files, tree, disk, y, heard, order, shorts);
    case Take => if y.taken < |y.s.log| { TakeGood(files, tree, disk, y); }
  }

  // Whatever is asked for, confirmed and cancelled at whatever moment, however requests, passes
  // and messages interleave: nothing is said of a file after its Done, every file under way has
  // sent a prefix, every completed one all of its bytes, and what the client has taken so far is
  // on its disk.
  lemma {:induction false} SystemSafe(files: Files, tree: Tree, disk: Files, y: System, acts: seq<Act>)
    requires Good(files, tree, disk, y) && Truthful(files, tree)
    ensures Good(files, tree, disk, Run(files, tree, y, acts))
  {
    if acts != [] {
      SystemSafe(files, tree, disk, y, acts[..|acts| - 1]);
      StepGood(files, tree, disk, Run(files, tree, y, acts[..|acts| - 1]), acts[|acts| - 1]);
    }
  }

  // In every run each file has at most one Done, and nothing is said of it behind that.
  lemma DoneOnce(files: Files, tree: Tree, disk: Files, acts: seq<Act>)
    requires Truthful(files, tree)
    ensures Orderly(Run(files, tree, Start(disk), acts).s.log) && Swept(Run(files, tree, Start(disk), acts).s.jobs)
  {
    StartGood(files, tree, disk);
    SystemSafe(files, tree, disk, Start(disk), acts);
    SoundOrderly(Run(files, tree, Start(disk), acts).asks, Run(files, tree, Start(disk), acts).s.log);
  }

  // ----- everything arrives -----

  predicate AllFiles(es: seq<Entry>) { es != [] && forall f :: 0 <= f < |es| ==> es[f].isFile }

  // Nothing is ever written for an empty file.
  predicate Copied(files: Files, disk: Files, after: Files, from: Path, to: Path)
  {
    from in files && if files[from] != [] then to in after && after[to] == files[from] else SameAt(after, disk, to)
  }

  ghost predicate NoneDropped(y: System, id: i32) { forall f: nat :: (id, f) !in y.dropped }

  // Every file that kept its job and was not skipped or moved is in its place; the job has been
  // reported done, once, exactly if its list is not empty, names files only and all kept theirs.
  ghost predicate Arrived(files: Files, disk: Files, y: System, id: i32)
    requires id in y.asks
  {
    var d := y.asks[id];
    var all := AllFiles(d.entries) && NoneDropped(y, id);
    && (forall f: nat :: FileAt(d.entries, f) && (id, f) !in y.dropped && (id, f) !in y.loose ==>
          Copied(files, disk, y.r.disk, Located(d.root, d.entries[f].name), Place(d, f)))
    && (id !in y.r.jobs <==> all) && multiset(y.r.finished)[id] == if all then 1 else 0
  }

  // Nothing is left to do: no request unread, no job at the server, no message untaken.
  predicate Quiescent(y: System) { y.up == [] && y.s.jobs == map[] && y.taken == |y.s.log| }

  // Any number of downloads, asked for at any time while others run.
  lemma DownloadsArrive(files: Files, tree: Tree, disk: Files, acts: seq<Act>)
    requires Truthful(files, tree)
    ensures var y := Run(files, tree, Start(disk), acts);
            Sensible(y.asks) && Quiescent(y) ==> forall id :: id in y.asks ==> Arrived(files, disk, y, id)
  {
    StartGood(files, tree, disk);
    SystemSafe(files, tree, disk, Start(disk), acts);
    var y := Run(files, tree, Start(disk), acts);
    if Sensible(y.asks) && Quiescent(y) {
      forall id | id in y.asks ensures Arrived(files, disk, y, id) { OneArrived(files, tree, disk, y, id); }
    }
  }

  lemma OneArrived(files: Files, tree: Tree, disk: Files, y: System, id: i32)
    requires Good(files, tree, disk, y) && Sensible(y.asks) && Quiescent(y) && id in y.asks
    ensures Arrived(files, disk, y, id)
  {
    var log := y.s.log;
    assert log[..y.taken] == log;
    ListSent(files, tree, disk, y, id);
    var d := y.asks[id];
    forall f: nat | FileAt(d.entries, f) && (id, f) !in y.dropped && (id, f) !in y.loose
      ensures Copied(files, disk, y.r.disk, Located(d.root, d.entries[f].name), Place(d, f))
    {
      FileCopied(files, disk, y, id, f);
    }
    DoneExactly(files, y, id);
    assert JobAfter(y.asks, y.r, log, id);
  }

  lemma ListSent(files: Files, tree: Tree, disk: Files, y: System, id: i32)
    requires Good(files, tree, disk, y) && y.up == [] && id in y.asks
    ensures id in Announced(y.s.log)
  {
  }

  lemma FileCopied(files: Files, disk: Files, y: System, id: i32, f: nat)
    requires Inv(files, y.asks, map[], y.s.log, y.dropped, y.loose) && Sensible(y.asks)
    requires Rebuilt(y.asks, disk, y.r, y.s.log)
    requires Awaited(y.asks, y.s.log, id, f) && (id, f) !in y.dropped && (id, f) !in y.loose
    ensures var d := y.asks[id]; Copied(files, disk, y.r.disk, Located(d.root, d.entries[f].name), Place(d, f))
  {
    var x := FileIn(y.asks, id, f);
    assert Stands(files, x, map[], y.s.log, (id, f) in y.dropped, (id, f) in y.loose);
    if files[x.path] == [] {
      if Target(y.asks, y.s.log, Place(y.asks[id], f)) {
        var i: i32, g: nat :| Awaited(y.asks, y.s.log, i, g) && Data(y.s.log, i, g) != []
                              && Place(y.asks[i], g) == Place(y.asks[id], f);
        if i != id || g != f { PlacesDiffer(y.asks, i, g, id, f); }
      }
    }
  }

  // The list is done with exactly if every entry had its Done.
  lemma DoneExactly(files: Files, y: System, id: i32)
    requires Inv(files, y.asks, map[], y.s.log, y.dropped, y.loose) && id in y.asks && id in Announced(y.s.log)
    requires DoneSet(y.s.log, id) <= Below(|y.asks[id].entries|)
    ensures var n, all := |y.asks[id].entries|, AllFiles(y.asks[id].entries) && NoneDropped(y, id);
            n == 0 || |DoneSet(y.s.log, id)| < n <==> !all
  {
    var es, n, done := y.asks[id].entries, |y.asks[id].entries|, DoneSet(y.s.log, id);
    if AllFiles(es) && NoneDropped(y, id) {
      forall f: nat | f < n ensures f in done { DoneOfFile(files, y, id, f); }
      SubsetSize(Below(n), done);
    } else if n > 0 {
      var f := Missing(files, y, id);
      DoneOfFile(files, y, id, f);
      MissingOne(done, n, f);
    }
  }

  // Some entry is a directory, or has lost its job.
  lemma Missing(files: Files, y: System, id: i32) returns (f: nat)
    requires Inv(files, y.asks, map[], y.s.log, y.dropped, y.loose) && id in y.asks && y.asks[id].entries != []
    requires !(AllFiles(y.asks[id].entries) && NoneDropped(y, id))
    ensures f < |y.asks[id].entries| && !(y.asks[id].entries[f].isFile && (id, f) !in y.dropped)
  {
    if AllFiles(y.asks[id].entries) {
      f :| (id, f) in y.dropped;
      assert Awaited(y.asks, y.s.log, (id, f).0, (id, f).1);
    } else {
      var g :| 0 <= g < |y.asks[id].entries| && !y.asks[id].entries[g].isFile;
      f := g;
    }
  }

  // Files that kept their job get their Done; directories and the others get none.
  lemma DoneOfFile(files: Files, y: System, id: i32, f: nat)
    requires Inv(files, y.asks, map[], y.s.log, y.dropped, y.loose) && id in y.asks && id in Announced(y.s.log)
    requires f < |y.asks[id].entries|
    ensures f in DoneSet(y.s.log, id) <==> y.asks[id].entries[f].isFile && (id, f) !in y.dropped
  {
    DoneSetIs(y.s.log, id, f);
    if y.asks[id].entries[f].isFile {
      assert Awaited(y.asks, y.s.log, id, f);
      assert Stands(files, FileIn(y.asks, id, f), map[], y.s.log, (id, f) in y.dropped, (id, f) in y.loose);
    } else if SaidDone(y.s.log, id, f) {
      OnlyAwaited(y.asks, y.s.log, id, f);
    }
  }

  lemma OnlyAwaited(asks: Downloads, log: seq<Response>, id: i32, f: nat)
    requires Sound(asks, log) && SaidDone(log, id, f)
    ensures id in asks && FileAt(asks[id].entries, f)
  {
    var i :| 0 <= i < |log| && log[i] == Done(id, f);
    SoundPrefix(asks, log, i);
  }

  // ----- what loses its job -----

  ghost predicate KeysApart(asks: Downloads)
  {
    forall id, id' :: id in asks && id' in asks && id != id' ==>
      EntriesApart(id, asks[id].entries, id', asks[id'].entries)
  }

  ghost predicate EntriesApart(id: i32, es: seq<Entry>, id': i32, es': seq<Entry>)
  {
    forall f: nat, g: nat :: FileAt(es, f) && FileAt(es', g) ==> Key(id, f) != Key(id', g)
  }

  // Up to a thousand entries a list are never too many.
  lemma ThousandEach(asks: Downloads)
    requires forall id :: id in asks ==> |asks[id].entries| <= 1000
    ensures KeysApart(asks)
  {
  }

  ghost predicate NoCancel(up: seq<Event>) { forall i :: 0 <= i < |up| ==> !up[i].Cancel? }

  // Without cancellations, and with keys that tell the files apart, none loses its job.
  ghost predicate Kept(y: System)
  {
    KeysApart(y.asks) && Sensible(y.asks) ==> y.dropped == {} && NoCancel(y.up)
  }

  lemma {:induction false} NothingDropped(files: Files, tree: Tree, disk: Files, acts: seq<Act>)
    requires Truthful(files, tree) && forall i :: 0 <= i < |acts| ==> !acts[i].Stop?
    ensures Kept(Run(files, tree, Start(disk), acts))
  {
    if acts != [] {
      var n := |acts| - 1;
      NothingDropped(files, tree, disk, acts[..n]);
      StartGood(files, tree, disk);
      SystemSafe(files, tree, disk, Start(disk), acts[..n]);
      StepKept(files, tree, disk, Run(files, tree, Start(disk), acts[..n]), acts[n]);
    }
  }

  lemma StepKept(files: Files, tree: Tree, disk: Files, y: System, a: Act)
    requires Good(files, tree, disk, y) && Kept(y) && !a.Stop?
    ensures Kept(Step(files, tree, y, a))
  {
    match a
    case Want(dest, root) =>
      if 0 <= y.next < 0x8000_0000 { WantKept(tree, y, y.next, dest, root); }
    case Serve(heard, order, shorts) =>
      if CanServe(tree, y, heard, order) { ServeKept(files, tree, disk, y, heard, order, shorts); }
    case Take =>
      if y.taken < |y.s.log| { TakeKept(files, tree, disk, y); }
    case Decide(id, f, c) => MoreKept(y, y.up + [Confirm(id, f, c)], Confirm(id, f, c));
    case Upload =>
    case Stop(id) =>
  }

  lemma MoreKept(y: System, up: seq<Event>, e: Event)
    requires Kept(y) && up == y.up + [e] && !e.Cancel?
    ensures Kept(y.(up := up))
  {
  }

  lemma TakeKept(files: Files, tree: Tree, disk: Files, y: System)
    requires Good(files, tree, disk, y) && Kept(y) && y.taken < |y.s.log|
    ensures Kept(Taken(y))
  {
    var up, r := TakenIs(y);
    if Sensible(y.asks) { ListsAreSafe(files, tree, disk, y); }
  }

  lemma ServeKept(files: Files, tree: Tree, disk: Files, y: System, heard: bool, order: seq<int>, shorts: nat -> nat)
    requires Good(files, tree, disk, y) && Kept(y)
    ensures Kept(Served(files, tree, y, heard, order, shorts))
  {
    if KeysApart(y.asks) && Sensible(y.asks) { ServeDropsNone(files, tree, disk, y, heard); }
  }

  lemma WantKept(tree: Tree, y: System, id: i32, dest: Path, root: Path)
    requires Kept(y) && id !in y.asks
    ensures Kept(Wanted(tree, y, id, dest, root))
  {
    var z := Wanted(tree, y, id, dest, root);
    if KeysApart(z.asks) && Sensible(z.asks) {
      LessSensible(y.asks, z.asks);
      assert KeysApart(y.asks) by { forall i | i in y.asks ensures i in z.asks && z.asks[i] == y.asks[i] { } }
    }
  }

  lemma ServeDropsNone(files: Files, tree: Tree, disk: Files, y: System, heard: bool)
    requires Good(files, tree, disk, y) && KeysApart(y.asks) && NoCancel(y.up)
    ensures Dropped(tree, y.s, Heard(y, heard)) == {}
  {
    var e := Heard(y, heard);
    if e.Ask? {
      assert AskAt(y.up, 0);
      NoneDisplaced(y.asks, y.s.log, y.s.jobs, e.id);
    }
  }

  lemma NoneDisplaced(asks: Downloads, log: seq<Response>, js: Jobs, id: i32)
    requires KeysApart(asks) && id in asks && id !in Announced(log)
    requires forall k :: k in js ==> Owned(asks, log, k, js[k])
    ensures Displaced(js, id, asks[id].entries) == map[]
  {
    forall k | k in js ensures !FileAt(asks[id].entries, k - 1000 * id) { NotDisplaced(asks, log, k, js[k], id); }
  }

  lemma NotDisplaced(asks: Downloads, log: seq<Response>, k: int, j: SendJob, id: i32)
    requires KeysApart(asks) && id in asks && id !in Announced(log) && Owned(asks, log, k, j)
    ensures !FileAt(asks[id].entries, k - 1000 * id)
  {
    KeyIsFree(id, asks[id].entries, j.id, asks[j.id].entries, j.fileNum);
  }

  lemma KeyIsFree(id: i32, es: seq<Entry>, id': i32, es': seq<Entry>, g: nat)
    requires EntriesApart(id, es, id', es') && FileAt(es', g)
    ensures !FileAt(es, Key(id', g) - 1000 * id)
  {
    assert Key(id, Key(id', g) - 1000 * id) == Key(id', g);
  }

  // Lists that are taken are those that were asked for.
  lemma ListsAreSafe(files: Files, tree: Tree, disk: Files, y: System)
    requires Good(files, tree, disk, y) && y.taken < |y.s.log| && Sensible(y.asks)
    ensures var m := y.s.log[y.taken]; m.Dir? ==> NamesSafe(m.entries)
  {
    SoundPrefix(y.asks, y.s.log, y.taken);
    var m := y.s.log[y.taken];
    if m.Dir? { assert Acceptable(y.asks[m.id]); }
  }
}
