// What becomes of a file in the end: a dropped one is never heard of again, a confirmed one is
// completed within as many turns as it has bytes, and one more.

module TransferFate {
  import opened Wrappers
  import opened MachineInts
  import opened TransferSpec
  import opened TransferQueue
  import opened TransferSend
  import opened TransferRun

  // ----- dropped files -----

  // The server makes a turn.
  predicate Serves(tree: Tree, y: System, a: Act) { a.Serve? && CanServe(tree, y, a.heard, a.order) }

  lemma ServeIs(files: Files, tree: Tree, y: System, a: Act)
    requires Serves(tree, y, a)
    ensures Step(files, tree, y, a) == Served(files, tree, y, a.heard, a.order, a.shorts)
  {
  }

  // Anything else leaves the server alone.
  lemma Idle(files: Files, tree: Tree, y: System, a: Act)
    requires !Serves(tree, y, a)
    ensures var z := Step(files, tree, y, a); z.s == y.s && z.dropped == y.dropped && z.loose == y.loose
  {
  }

  // Nothing in the map goes by the name.
  predicate Nameless(js: Jobs, n: Name) { forall k :: k in js ==> NameOf(js[k]) != n }

  lemma {:induction false} VisitsSilent(files: Files, js: Jobs, order: seq<int>, shorts: nat -> nat, log: seq<Response>,
                                        n: Name)
    requires Nameless(js, n)
    ensures var (js', out) := Visits(files, js, order, shorts);
            Nameless(js', n) && Data(log + out, n.0, n.1) == Data(log, n.0, n.1)
  {
    if order == [] {
      assert log + [] == log;
    } else {
      var l := |order| - 1;
      var (js', out) := Visits(files, js, order[..l], shorts);
      VisitsSilent(files, js, order[..l], shorts, log, n);
      if order[l] in js' {
        Assoc(log, out, Visit(files, js'[order[l]], shorts(l)).1);
        OtherName(js', order[l], n);
        VisitSilent(files, js'[order[l]], shorts(l), log + out, n);
      }
    }
  }

  lemma OtherName(js: Jobs, k: int, n: Name)
    requires Nameless(js, n) && k in js
    ensures NameOf(js[k]) != n
  {
  }

  lemma VisitSilent(files: Files, j: SendJob, short: nat, log: seq<Response>, n: Name)
    requires NameOf(j) != n
    ensures var (j', more) := Visit(files, j, short);
            NameOf(j') == NameOf(j) && Data(log + more, n.0, n.1) == Data(log, n.0, n.1)
  {
    var more := Visit(files, j, short).1;
    if more == [] {
      assert log + more == log;
    } else {
      assert more == [more[0]];
      DataSnoc(log, more[0], n.0, n.1);
    }
  }

  lemma HandleSilent(tree: Tree, s: Sender, e: Event, n: Name)
    ensures Data(Handle(tree, s, e).log, n.0, n.1) == Data(s.log, n.0, n.1)
  {
    match e
    case Ask(id, root) => DataSnoc(s.log, Dir(id, tree(root)), n.0, n.1);
    case Confirm(id, f, c) =>
      if Key(id, f) in s.jobs { DataSnoc(s.log, Done(s.jobs[Key(id, f)].id, s.jobs[Key(id, f)].fileNum), n.0, n.1); }
    case _ =>
  }

  lemma DroppedNameless(files: Files, asks: Downloads, js: Jobs, log: seq<Response>, dropped: set<Name>,
                        loose: set<Name>, n: Name)
    requires Inv(files, asks, js, log, dropped, loose) && n in dropped
    ensures Nameless(js, n)
  {
    forall k | k in js ensures NameOf(js[k]) != n { JobUnderWay(files, asks, js, log, dropped, loose, k); }
  }

  ghost predicate Silent(y: System, z: System, n: Name)
  {
    n in z.dropped && Data(z.s.log, n.0, n.1) == Data(y.s.log, n.0, n.1)
  }

  lemma ServeSilent(files: Files, tree: Tree, disk: Files, y: System, heard: bool, order: seq<int>, shorts: nat -> nat,
                    n: Name)
    requires Good(files, tree, disk, y) && Truthful(files, tree)
    requires n in y.dropped + Dropped(tree, y.s, Heard(y, heard))
    ensures Silent(y, Served(files, tree, y, heard, order, shorts), n)
  {
    var e := Heard(y, heard);
    var h := Handle(tree, y.s, e);
    HeardPossible(files, tree, disk, y, heard);
    HandleKeeps(files, y.asks, tree, y.s, y.dropped, y.loose, e);
    DroppedNameless(files, y.asks, h.jobs, h.log, y.dropped + Dropped(tree, y.s, e), y.loose + Loosened(y.s, e), n);
    HandleSilent(tree, y.s, e, n);
    VisitsSilent(files, h.jobs, order, shorts, h.log, n);
  }

  // Not a byte of a dropped file is sent any more, nor its Done.
  lemma {:induction false} DroppedSilent(files: Files, tree: Tree, disk: Files, y: System, acts: seq<Act>, n: Name)
    requires Good(files, tree, disk, y) && Truthful(files, tree) && n in y.dropped
    ensures var z := Run(files, tree, y, acts);
            Silent(y, z, n) && !SaidDone(z.s.log, n.0, n.1)
  {
    SystemSafe(files, tree, disk, y, acts);
    if acts != [] {
      var l := |acts| - 1;
      DroppedSilent(files, tree, disk, y, acts[..l], n);
      SystemSafe(files, tree, disk, y, acts[..l]);
      StepSilent(files, tree, disk, Run(files, tree, y, acts[..l]), acts[l], n);
    }
    NoDone(files, tree, disk, Run(files, tree, y, acts), n);
  }

  lemma NoDone(files: Files, tree: Tree, disk: Files, y: System, n: Name)
    requires Good(files, tree, disk, y) && n in y.dropped
    ensures !SaidDone(y.s.log, n.0, n.1)
  {
    assert Awaited(y.asks, y.s.log, n.0, n.1);
    assert Stands(files, FileIn(y.asks, n.0, n.1), y.s.jobs, y.s.log, (n.0, n.1) in y.dropped, (n.0, n.1) in y.loose);
  }

  lemma StepSilent(files: Files, tree: Tree, disk: Files, y: System, a: Act, n: Name)
    requires Good(files, tree, disk, y) && Truthful(files, tree) && n in y.dropped
    ensures Silent(y, Step(files, tree, y, a), n)
  {
    if Serves(tree, y, a) {
      ServeIs(files, tree, y, a);
      ServeSilent(files, tree, disk, y, a.heard, a.order, a.shorts, n);
    } else {
      Idle(files, tree, y, a);
    }
  }

  // A list takes the key of a file that waits for its confirmation: not a byte of that is ever
  // sent, whatever happens then.
  lemma LostFile(files: Files, tree: Tree, disk: Files, y: System, id: i32, root: Path, order: seq<int>,
                 shorts: nat -> nat, acts: seq<Act>, k: int)
    requires Good(files, tree, disk, y) && Truthful(files, tree) && CanServe(tree, y, true, order)
    requires y.up != [] && y.up[0] == Ask(id, root) && FileAt(tree(root), k - 1000 * id)
    requires k in y.s.jobs && !y.s.jobs[k].confirmed
    ensures var j := y.s.jobs[k];
            var z := Run(files, tree, Served(files, tree, y, true, order, shorts), acts);
            NameOf(j) in z.dropped && Data(z.s.log, j.id, j.fileNum) == [] && !SaidDone(z.s.log, j.id, j.fileNum)
  {
    var n := NameOf(y.s.jobs[k]);
    LostNow(files, tree, disk, y, id, root, order, shorts, k, n);
    ServeGood(files, tree, disk, y, true, order, shorts);
    DroppedSilent(files, tree, disk, Served(files, tree, y, true, order, shorts), acts, n);
  }

  lemma LostNow(files: Files, tree: Tree, disk: Files, y: System, id: i32, root: Path, order: seq<int>,
                shorts: nat -> nat, k: int, n: Name)
    requires Good(files, tree, disk, y) && Truthful(files, tree)
    requires y.up != [] && y.up[0] == Ask(id, root) && FileAt(tree(root), k - 1000 * id)
    requires k in y.s.jobs && !y.s.jobs[k].confirmed && n == NameOf(y.s.jobs[k])
    ensures Silent(y, Served(files, tree, y, true, order, shorts), n) && Data(y.s.log, n.0, n.1) == []
  {
    Overtaken(tree, y.s, id, root, k);
    Unsent(files, y.asks, y.s.jobs, y.s.log, y.dropped, y.loose, k);
    ServeSilent(files, tree, disk, y, true, order, shorts, n);
  }

  lemma Overtaken(tree: Tree, s: Sender, id: i32, root: Path, k: int)
    requires k in s.jobs && FileAt(tree(root), k - 1000 * id)
    ensures NameOf(s.jobs[k]) in Dropped(tree, s, Ask(id, root))
  {
    InNames(Displaced(s.jobs, id, tree(root)), k);
  }

  predicate Waiting(js: Jobs) { forall k :: k in js ==> !js[k].confirmed && !js[k].done }

  lemma AllUnfinished(js: Jobs)
    requires Waiting(js)
    ensures Unfinished(js) == js
  {
    forall k | k in js ensures k in Unfinished(js) { assert !js[k].done; }
  }

  // A pass over jobs that wait for their confirmation does nothing.
  lemma {:induction false} VisitsIdle(files: Files, js: Jobs, order: seq<int>, shorts: nat -> nat)
    requires Waiting(js)
    ensures Visits(files, js, order, shorts) == (js, [])
  {
    if order != [] {
      var l := |order| - 1;
      VisitsIdle(files, js, order[..l], shorts);
      if order[l] in js {
        OneWaits(files, js, order[l], shorts(l));
        var (j, more) := Visit(files, js[order[l]], shorts(l));
        assert js[order[l] := j] == js;
        assert more + more == [];
      }
    }
  }

  lemma OneWaits(files: Files, js: Jobs, k: int, short: nat)
    requires Waiting(js) && k in js
    ensures Visit(files, js[k], short) == (js[k], [])
  {
  }

  lemma TwoWanted(files: Files, tree: Tree, disk: Files, dest: Path, a: Path, dest': Path, b: Path) returns (y: System)
    ensures y == Run(files, tree, Start(disk), [Want(dest, a), Want(dest', b)])
    ensures y.up == [Ask(1, a), Ask(2, b)] && y.s == Sender(map[], [])
  {
    var y1 := Wanted(tree, Start(disk), 1, dest, a);
    y := Wanted(tree, y1, 2, dest', b);
    RunSnoc(files, tree, Start(disk), [], Want(dest, a));
    RunSnoc(files, tree, Start(disk), [Want(dest, a)], Want(dest', b));
    assert [] + [Want(dest, a)] == [Want(dest, a)]
           && [Want(dest, a)] + [Want(dest', b)] == [Want(dest, a), Want(dest', b)];
  }

  lemma RunSnoc(files: Files, tree: Tree, y: System, acts: seq<Act>, a: Act)
    ensures Run(files, tree, y, acts + [a]) == Step(files, tree, Run(files, tree, y, acts), a)
  {
    assert (acts + [a])[..|acts|] == acts;
  }

  // File 1000 of the first job: with a second one asked for, and the first list sent, it waits
  // for its confirmation under the key that file 0 of the second will take.
  lemma LostRun(files: Files, tree: Tree, disk: Files, dest: Path, a: Path, dest': Path, b: Path, order: seq<int>,
                shorts: nat -> nat)
    requires FileAt(tree(a), 1000)
    ensures var y := Run(files, tree, Start(disk), [Want(dest, a), Want(dest', b)]);
            y.up == [Ask(1, a), Ask(2, b)] && y.s.jobs == map[]
    ensures var y := Run(files, tree, Start(disk), [Want(dest, a), Want(dest', b)]);
            var z := Served(files, tree, y, true, order, shorts);
            z.up == [Ask(2, b)] && Key(2, 0) in z.s.jobs && NameOf(z.s.jobs[Key(2, 0)]) == (1, 1000)
            && !z.s.jobs[Key(2, 0)].confirmed
  {
    var y := TwoWanted(files, tree, disk, dest, a, dest', b);
    assert Heard(y, true) == Ask(1, a) && y.up[1..] == [Ask(2, b)];
    FirstList(files, tree, y.s, a, order, shorts);
  }

  lemma FirstList(files: Files, tree: Tree, s: Sender, a: Path, order: seq<int>, shorts: nat -> nat)
    requires s == Sender(map[], []) && FileAt(tree(a), 1000)
    ensures var js := Turned(files, tree, s, Ask(1, a), order, shorts).jobs;
            2000 in js && NameOf(js[2000]) == (1, 1000) && !js[2000].confirmed
  {
    var js := Queue(map[], Listing(1, a, tree(a)));
    forall k | k in js ensures !js[k].confirmed && !js[k].done {
      QueueListing(map[], 1, a, tree(a), k);
      assert Under(map[], 1, a, tree(a), js, k);
    }
    VisitsIdle(files, js, order, shorts);
    AllUnfinished(js);
    QueueListing(map[], 1, a, tree(a), 2000);
    assert Under(map[], 1, a, tree(a), js, 2000);
    assert Turned(files, tree, s, Ask(1, a), order, shorts).jobs == js;
  }

  lemma Unsent(files: Files, asks: Downloads, js: Jobs, log: seq<Response>, dropped: set<Name>, loose: set<Name>,
               k: int)
    requires Inv(files, asks, js, log, dropped, loose) && Swept(js) && k in js && !js[k].confirmed
    ensures Data(log, js[k].id, js[k].fileNum) == []
  {
    JobUnderWay(files, asks, js, log, dropped, loose, k);
  }

  // ----- completion -----

  lemma LastOf(order: seq<int>, k: int)
    requires order != []
    ensures k in order <==> k in order[..|order| - 1] || order[|order| - 1] == k
  {
    assert order == order[..|order| - 1] + [order[|order| - 1]];
  }

  // A job of that name is confirmed and has at most so many visits to go.
  predicate Within(js: Jobs, k: int, n: Name, left: int)
  {
    k in js && NameOf(js[k]) == n && js[k].confirmed && Left(js[k]) <= left
  }

  lemma VisitNearer(files: Files, asks: Downloads, js: Jobs, log: seq<Response>, dropped: set<Name>, loose: set<Name>,
                    k: int, short: nat)
    requires Inv(files, asks, js, log, dropped, loose) && k in js && js[k].confirmed
    ensures var j := Visit(files, js[k], short).0;
            NameOf(j) == NameOf(js[k]) && j.confirmed
            && Left(j) <= Left(js[k]) && (Left(js[k]) > 0 ==> Left(j) < Left(js[k]))
  {
    JobUnderWay(files, asks, js, log, dropped, loose, k);
    VisitSays(files, FileIn(asks, js[k].id, js[k].fileNum), js[k], log, short, NameOf(js[k]) in loose);
  }

  lemma {:induction false} VisitsNearer(files: Files, asks: Downloads, js: Jobs, log: seq<Response>, dropped: set<Name>,
                                        loose: set<Name>, order: seq<int>, shorts: nat -> nat, k: int, left: int)
    requires Inv(files, asks, js, log, dropped, loose) && k in js && Within(js, k, NameOf(js[k]), left) && left > 0
    ensures Within(Visits(files, js, order, shorts).0, k, NameOf(js[k]), left - if k in order then 1 else 0)
  {
    if order != [] {
      var l := |order| - 1;
      var (js', out) := Visits(files, js, order[..l], shorts);
      VisitsNearer(files, asks, js, log, dropped, loose, order[..l], shorts, k, left);
      VisitsKeep(files, asks, js, log, dropped, loose, order[..l], shorts);
      LastOf(order, k);
      if order[l] == k { VisitNearer(files, asks, js', log + out, dropped, loose, k, shorts(l)); }
    }
  }

  // A turn that neither drops nor moves the file.
  lemma HandleNearer(files: Files, asks: Downloads, tree: Tree, s: Sender, dropped: set<Name>, loose: set<Name>,
                     e: Event,
                     k: int, n: Name, left: int)
    requires Inv(files, asks, s.jobs, s.log, dropped, loose) && Swept(s.jobs) && Possible(files, asks, tree, s.log, e)
    requires Within(s.jobs, k, n, left) && n !in Dropped(tree, s, e) && n !in Loosened(s, e)
    ensures Within(Handle(tree, s, e).jobs, k, n, left)
  {
    match e
    case Quiet =>
    case Ask(id, root) => AskNearer(s.jobs, id, root, tree(root), k, n, left);
    case Confirm(id, f, c) => ConfirmNearer(s, id, f, c, k, n, left);
    case Cancel(id) => InNames(map l | l in s.jobs && s.jobs[l].id == id :: s.jobs[l], k);
  }

  lemma AskNearer(js: Jobs, id: i32, root: Path, es: seq<Entry>, k: int, n: Name, left: int)
    requires Within(js, k, n, left) && n !in Names(Displaced(js, id, es))
    ensures Within(Queue(js, Listing(id, root, es)), k, n, left)
  {
    InNames(Displaced(js, id, es), k);
    QueueListing(js, id, root, es, k);
    assert Under(js, id, root, es, Queue(js, Listing(id, root, es)), k);
  }

  lemma InNames(js: Jobs, k: int)
    ensures k in js ==> NameOf(js[k]) in Names(js)
  {
  }

  lemma ConfirmNearer(s: Sender, id: i32, f: nat, c: Choice, k: int, n: Name, left: int)
    requires Within(s.jobs, k, n, left) && n !in Loosened(s, Confirm(id, f, c))
    ensures Within(SendConfirm(s, id, f, c).jobs, k, n, left)
  {
  }

  lemma ServeNearer(files: Files, tree: Tree, disk: Files, y: System, heard: bool, order: seq<int>, shorts: nat -> nat,
                    k: int, n: Name, left: int)
    requires Good(files, tree, disk, y) && Truthful(files, tree) && CanServe(tree, y, heard, order)
    requires Within(y.s.jobs, k, n, left) && left > 0
    requires var z := Served(files, tree, y, heard, order, shorts); n !in z.dropped && n !in z.loose
    ensures var js := Served(files, tree, y, heard, order, shorts).s.jobs; k in js ==> Within(js, k, n, left - 1)
  {
    var e := Heard(y, heard);
    var h := Handle(tree, y.s, e);
    HeardPossible(files, tree, disk, y, heard);
    HandleKeeps(files, y.asks, tree, y.s, y.dropped, y.loose, e);
    HandleNearer(files, y.asks, tree, y.s, y.dropped, y.loose, e, k, n, left);
    VisitsNearer(files, y.asks, h.jobs, h.log, y.dropped + Dropped(tree, y.s, e), y.loose + Loosened(y.s, e), order,
                 shorts, k, left);
  }

  // Turns the server has made.
  function Turns(files: Files, tree: Tree, y: System, acts: seq<Act>): nat
  {
    if acts == [] then 0
    else
      var l := |acts| - 1;
      Turns(files, tree, y, acts[..l]) + (if Serves(tree, Run(files, tree, y, acts[..l]), acts[l]) then 1 else 0)
  }

  // Either its Done is said, or each turn has brought it nearer.
  ghost predicate Approaches(z: System, k: int, n: Name, left: int)
  {
    SaidDone(z.s.log, n.0, n.1) || Within(z.s.jobs, k, n, left)
  }

  // A file that has a list, and has so far been left alone.
  ghost predicate Spared(z: System, n: Name) { Awaited(z.asks, z.s.log, n.0, n.1) && n !in z.dropped && n !in z.loose }

  lemma {:induction false} RunNearer(files: Files, tree: Tree, disk: Files, y: System, acts: seq<Act>, k: int, n: Name,
                                     left: int)
    requires Good(files, tree, disk, y) && Truthful(files, tree) && Awaited(y.asks, y.s.log, n.0, n.1)
    requires Within(y.s.jobs, k, n, left)
    requires n !in Run(files, tree, y, acts).dropped && n !in Run(files, tree, y, acts).loose
    ensures var z := Run(files, tree, y, acts);
            Good(files, tree, disk, z) && Spared(z, n) && z.asks[n.0] == y.asks[n.0]
            && Approaches(z, k, n, left - Turns(files, tree, y, acts))
  {
    if acts != [] {
      var l := |acts| - 1;
      var z := Run(files, tree, y, acts[..l]);
      HistoryGrows(files, tree, z, acts[l]);
      RunNearer(files, tree, disk, y, acts[..l], k, n, left);
      StepNearer(files, tree, disk, z, acts[l], k, n, left - Turns(files, tree, y, acts[..l]));
    }
  }

  lemma HistoryGrows(files: Files, tree: Tree, y: System, a: Act)
    ensures var z := Step(files, tree, y, a); y.dropped <= z.dropped && y.loose <= z.loose
  {
  }

  lemma StepNearer(files: Files, tree: Tree, disk: Files, y: System, a: Act, k: int, n: Name, left: int)
    requires Good(files, tree, disk, y) && Truthful(files, tree) && Spared(y, n) && Approaches(y, k, n, left)
    requires n !in Step(files, tree, y, a).dropped && n !in Step(files, tree, y, a).loose
    ensures var z := Step(files, tree, y, a);
            Good(files, tree, disk, z) && Spared(z, n) && z.asks[n.0] == y.asks[n.0]
            && Approaches(z, k, n, left - if Serves(tree, y, a) then 1 else 0)
  {
    StepGood(files, tree, disk, y, a);
    AskedStay(files, tree, disk, y, a, n.0);
    if Serves(tree, y, a) {
      ServeIs(files, tree, y, a);
      StillSpared(files, tree, y, a.heard, a.order, a.shorts, n);
      ServeApproaches(files, tree, disk, y, a.heard, a.order, a.shorts, k, n, left);
    } else {
      Idle(files, tree, y, a);
    }
  }

  lemma StillSpared(files: Files, tree: Tree, y: System, heard: bool, order: seq<int>, shorts: nat -> nat, n: Name)
    requires Spared(y, n)
    requires var z := Served(files, tree, y, heard, order, shorts); n !in z.dropped && n !in z.loose
    ensures Spared(Served(files, tree, y, heard, order, shorts), n)
  {
    TurnAnnounces(files, tree, y.s, Heard(y, heard), order, shorts);
  }

  lemma AskedStay(files: Files, tree: Tree, disk: Files, y: System, a: Act, id: i32)
    requires Good(files, tree, disk, y) && id in y.asks
    ensures var z := Step(files, tree, y, a); id in z.asks && z.asks[id] == y.asks[id]
  {
  }

  lemma ServeApproaches(files: Files, tree: Tree, disk: Files, y: System, heard: bool, order: seq<int>,
                        shorts: nat -> nat,
                        k: int, n: Name, left: int)
    requires Good(files, tree, disk, y) && Truthful(files, tree) && Spared(y, n) && Approaches(y, k, n, left)
    requires CanServe(tree, y, heard, order)
    requires var z := Served(files, tree, y, heard, order, shorts); Good(files, tree, disk, z) && Spared(z, n)
    ensures Approaches(Served(files, tree, y, heard, order, shorts), k, n, left - 1)
  {
    if SaidDone(y.s.log, n.0, n.1) {
      StaysSaid(files, tree, y, heard, order, shorts, n);
    } else {
      LeftIsPositive(files, tree, disk, y, k, n, left);
      ServeNearer(files, tree, disk, y, heard, order, shorts, k, n, left);
      Gone(files, tree, disk, Served(files, tree, y, heard, order, shorts), n);
    }
  }

  lemma LeftIsPositive(files: Files, tree: Tree, disk: Files, y: System, k: int, n: Name, left: int)
    requires Good(files, tree, disk, y) && Within(y.s.jobs, k, n, left)
    ensures left > 0 && k == Key(n.0, n.1)
  {
    assert Owned(y.asks, y.s.log, k, y.s.jobs[k]);
  }

  lemma StaysSaid(files: Files, tree: Tree, y: System, heard: bool, order: seq<int>, shorts: nat -> nat, n: Name)
    requires SaidDone(y.s.log, n.0, n.1)
    ensures SaidDone(Served(files, tree, y, heard, order, shorts).s.log, n.0, n.1)
  {
    var i :| 0 <= i < |y.s.log| && y.s.log[i] == Done(n.0, n.1);
    TurnAdds(files, tree, y.s, Heard(y, heard), order, shorts, i + 1);
    var log := Turned(files, tree, y.s, Heard(y, heard), order, shorts).log;
    assert log[i] == log[..i + 1][i] == y.s.log[..i + 1][i];
  }

  // A file that has left the map without being dropped was completed.
  lemma Gone(files: Files, tree: Tree, disk: Files, y: System, n: Name)
    requires Good(files, tree, disk, y) && Spared(y, n)
    ensures var x := FileIn(y.asks, n.0, n.1);
            && x.path in files && (Has(y.s.jobs, n.0, n.1) <==> !SaidDone(y.s.log, n.0, n.1))
            && (SaidDone(y.s.log, n.0, n.1) ==> Data(y.s.log, n.0, n.1) == files[x.path])
  {
    assert Stands(files, FileIn(y.asks, n.0, n.1), y.s.jobs, y.s.log, (n.0, n.1) in y.dropped, (n.0, n.1) in y.loose);
  }

  // Once confirmed, a file that is neither dropped, skipped nor moved is complete after one turn
  // more than it has bytes, even if every read returns a single byte.
  lemma FileFinishes(files: Files, tree: Tree, disk: Files, y: System, acts: seq<Act>, k: int)
    requires Good(files, tree, disk, y) && Truthful(files, tree) && k in y.s.jobs && y.s.jobs[k].confirmed
    requires var n, z := NameOf(y.s.jobs[k]), Run(files, tree, y, acts); n !in z.dropped && n !in z.loose
    requires Turns(files, tree, y, acts) > y.s.jobs[k].fileSize
    ensures var j, z := y.s.jobs[k], Run(files, tree, y, acts);
            && !Has(z.s.jobs, j.id, j.fileNum) && j.path in files
            && Data(z.s.log, j.id, j.fileNum) == files[j.path] && SaidDone(z.s.log, j.id, j.fileNum)
  {
    var j := y.s.jobs[k];
    JobUnderWay(files, y.asks, y.s.jobs, y.s.log, y.dropped, y.loose, k);
    RunNearer(files, tree, disk, y, acts, k, NameOf(j), Left(j));
    Finished(files, tree, disk, Run(files, tree, y, acts), k, NameOf(j), Left(j) - Turns(files, tree, y, acts));
  }

  lemma Finished(files: Files, tree: Tree, disk: Files, y: System, k: int, n: Name, left: int)
    requires Good(files, tree, disk, y) && Spared(y, n) && Approaches(y, k, n, left) && left <= 0
    ensures var x := FileIn(y.asks, n.0, n.1);
            && x.path in files && !Has(y.s.jobs, n.0, n.1)
            && SaidDone(y.s.log, n.0, n.1) && Data(y.s.log, n.0, n.1) == files[x.path]
  {
    Gone(files, tree, disk, y, n);
    OutOfTurns(files, tree, disk, y, k, n, left);
  }

  lemma OutOfTurns(files: Files, tree: Tree, disk: Files, y: System, k: int, n: Name, left: int)
    requires Good(files, tree, disk, y) && left <= 0
    ensures !Within(y.s.jobs, k, n, left)
  {
  }
}
