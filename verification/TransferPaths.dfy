// Where a downloading client can be made to write: never outside the destinations of its own jobs,
// whatever a server sends.

module TransferPaths {
  import opened MachineInts
  import opened TransferSpec
  import opened TransferReceive

  predicate Slash(c: char) { c == '/' || c == '\\' }

  // At i the name has a component that leads upwards.
  predicate UpAt(s: string, i: nat)
  {
    && i + 2 <= |s| && s[i] == '.' && s[i + 1] == '.'
    && (i == 0 || Slash(s[i - 1])) && (i + 2 == |s| || Slash(s[i + 2]))
  }

  predicate OnDrive(s: string) { |s| >= 2 && ('a' <= s[0] <= 'z' || 'A' <= s[0] <= 'Z') && s[1] == ':' }

  predicate Rooted(s: string) { (s != "" && Slash(s[0])) || OnDrive(s) }

  // Stays below whatever it is put behind.
  ghost predicate Below(name: string)
  {
    name != "" && '\0' !in name && !Rooted(name) && forall i: nat :: !UpAt(name, i)
  }

  // ----- components -----

  lemma {:induction false} PartsPlain(s: string)
    requires forall i :: 0 <= i < |s| ==> !Slash(s[i])
    ensures Parts(s) == [s]
  {
    if s != "" {
      var n := |s| - 1;
      PartsPlain(s[..n]);
      assert s == s[..n] + [s[n]];
    }
  }

  lemma {:induction false} PartsSplit(s: string, at: nat)
    requires at < |s| && Slash(s[at])
    ensures Parts(s) == Parts(s[..at]) + Parts(s[at + 1..])
    decreases |s|
  {
    var n := |s| - 1;
    if at < n {
      PartsSplit(s[..n], at);
      Cut(s, at);
    } else {
      assert s[at + 1..] == "";
    }
  }

  lemma Cut(s: string, at: nat)
    requires at < |s| - 1
    ensures var n := |s| - 1;
            && s[..n][..at] == s[..at] && s[..n][at + 1..] == s[at + 1..][..n - at - 1]
            && |s[at + 1..]| == n - at && s[at + 1..][n - at - 1] == s[n]
  {
  }

  lemma {:induction false} LastSlash(s: string) returns (at: nat)
    requires exists i :: 0 <= i < |s| && Slash(s[i])
    ensures at < |s| && Slash(s[at]) && forall i :: at < i < |s| ==> !Slash(s[i])
  {
    at := |s| - 1;
    if !Slash(s[at]) {
      assert exists i :: 0 <= i < at && Slash(s[..at][i]);
      at := LastSlash(s[..at]);
      assert forall i :: at < i < |s| - 1 ==> s[i] == s[..|s| - 1][i];
    }
  }

  lemma UpSplit(s: string, at: nat, i: nat)
    requires at < |s| && Slash(s[at]) && forall j :: at < j < |s| ==> !Slash(s[j])
    ensures UpAt(s, i) <==> UpAt(s[..at], i) || (i == at + 1 && s[at + 1..] == "..")
  {
  }

  lemma {:induction false} UpIsPart(s: string)
    ensures ".." in Parts(s) <==> exists i: nat :: UpAt(s, i)
    decreases |s|
  {
    if exists i :: 0 <= i < |s| && Slash(s[i]) {
      var at := LastSlash(s);
      PartsSplit(s, at);
      PartsPlain(s[at + 1..]);
      UpIsPart(s[..at]);
      forall i: nat ensures UpAt(s, i) <==> UpAt(s[..at], i) || (i == at + 1 && s[at + 1..] == "..") {
        UpSplit(s, at, i);
      }
      if s[at + 1..] == ".." { assert UpAt(s, at + 1); }
    } else {
      PartsPlain(s);
      if s == ".." { assert UpAt(s, 0); }
    }
  }

  // What the name check is for.
  lemma SafeExactly(name: string)
    ensures name != "" && SafeName(name) <==> Below(name)
  {
    UpIsPart(name);
  }

  // ----- lists -----

  // A list is refused exactly if one of its names could lead elsewhere, the single file without a
  // name apart; its job is then gone and the server told, and nothing else changes.
  lemma RefusedExactly(r: Receiver, id: i32, es: seq<Entry>)
    requires id in r.jobs
    ensures var refused := !(|es| == 1 && es[0].name == "") && exists e :: e in es && !Below(e.name);
            && (refused <==> id !in OnDir(r, id, es).jobs)
            && Refusal(r, Dir(id, es)) == (if refused then [Cancel(id)] else [])
            && (refused ==> OnDir(r, id, es) == r.(jobs := r.jobs - {id}))
  {
    forall e | e in es ensures e.name != "" && SafeName(e.name) <==> Below(e.name) { SafeExactly(e.name); }
    forall f | 0 <= f < |es| ensures es[f] in es { }
  }

  // The destination itself, or below it.
  ghost predicate Inside(dest: Path, p: Path)
  {
    p == dest || exists sep: string, name: string :: Behind(dest, p, sep, name)
  }

  ghost predicate Behind(dest: Path, p: Path, sep: string, name: string)
  {
    (sep == "" || sep == "\\") && p == dest + sep + name && Below(name)
  }

  lemma JoinedInside(dest: Path, name: string)
    requires Below(name)
    ensures Inside(dest, Join(dest, name))
  {
    assert dest + name == dest + "" + name;
    assert Behind(dest, Join(dest, name), "", name) || Behind(dest, Join(dest, name), "\\", name);
  }

  // Nothing goes between a base and a name if the base is empty, ends in a separator or is a bare
  // drive, and a backslash otherwise.
  lemma JoinedWith(base: Path, name: string)
    ensures var n := |base|;
            var none := n == 0 || Slash(base[n - 1]) || (n == 2 && OnDrive(base));
            Join(base, name) == if none then base + name else base + "\\" + name
  {
  }

  // All paths of a job lie inside its destination.
  ghost predicate Tame(j: WriteJob)
  {
    forall f :: 0 <= f < |j.files| && j.files[f] != "" ==> Inside(j.dest, j.files[f])
  }

  // What a kept list makes of a job.
  lemma DirTame(r: Receiver, id: i32, es: seq<Entry>)
    requires id in r.jobs && id in OnDir(r, id, es).jobs
    ensures var j := OnDir(r, id, es).jobs[id];
            && j.dest == r.jobs[id].dest && |j.files| == |es| && Tame(j)
            && forall f :: 0 <= f < |es| ==> (j.files[f] == "" <==> !es[f].isFile || (es[f].name == "" && j.dest == ""))
  {
    RefusedExactly(r, id, es);
    var dest := r.jobs[id].dest;
    forall f | 0 <= f < |es| && es[f].isFile && es[f].name != "" ensures Inside(dest, Destination(dest, es[f])) {
      assert es[f] in es;
      JoinedInside(dest, es[f].name);
    }
  }

  // ----- whatever a server sends -----

  // A client opens jobs and takes messages, in any order.
  datatype Input = Opens(id: i32, dest: Path) | Gets(m: Response)

  function Client(r: Receiver, ins: seq<Input>): Receiver
  {
    if ins == [] then r
    else
      var before := Client(r, ins[..|ins| - 1]);
      match ins[|ins| - 1]
      case Opens(id, dest) => Opened(before, id, dest)
      case Gets(m) => OnResponse(before, m)
  }

  // The destinations chosen so far.
  function Chosen(ins: seq<Input>): set<Path> { set i | i in ins && i.Opens? :: i.dest }

  ghost predicate Tamed(r: Receiver, dests: set<Path>)
  {
    forall id :: id in r.jobs ==> Tame(r.jobs[id]) && r.jobs[id].dest in dests
  }

  ghost predicate Within(dests: set<Path>, p: Path) { exists d :: d in dests && Inside(d, p) }

  lemma BlockTame(r: Receiver, id: i32, f: nat, data: seq<byte>, dests: set<Path>)
    requires Tamed(r, dests) && id in r.jobs
    ensures Tamed(OnBlock(r, id, f, data), dests)
    ensures forall p :: !Within(dests, p) ==> SameAt(OnBlock(r, id, f, data).disk, r.disk, p)
  {
    var j := r.jobs[id];
    assert Inside(j.dest, WritePath(j, f));
  }

  lemma GetTame(r: Receiver, m: Response, dests: set<Path>)
    requires Tamed(r, dests)
    ensures Tamed(OnResponse(r, m), dests)
    ensures forall p :: !Within(dests, p) ==> SameAt(OnResponse(r, m).disk, r.disk, p)
  {
    match m
    case Block(id, f, data, _) => if id in r.jobs { BlockTame(r, id, f, data, dests); }
    case Dir(id, es) => if id in r.jobs && id in OnDir(r, id, es).jobs { DirTame(r, id, es); }
    case _ =>
  }

  // Whatever comes from whatever server, nothing outside the chosen destinations is ever written.
  lemma {:induction false} NothingOutside(r: Receiver, ins: seq<Input>)
    requires r.jobs == map[]
    ensures Tamed(Client(r, ins), Chosen(ins))
    ensures forall p :: !Within(Chosen(ins), p) ==> SameAt(Client(r, ins).disk, r.disk, p)
  {
    if ins != [] {
      var n := |ins| - 1;
      var before := Client(r, ins[..n]);
      NothingOutside(r, ins[..n]);
      assert ins == ins[..n] + [ins[n]];
      Widen(before, Chosen(ins[..n]), Chosen(ins));
      match ins[n]
      case Opens(id, dest) =>
      case Gets(m) => GetTame(before, m, Chosen(ins));
    }
  }

  lemma Widen(r: Receiver, few: set<Path>, more: set<Path>)
    requires Tamed(r, few) && few <= more
    ensures Tamed(r, more) && forall p :: !Within(more, p) ==> !Within(few, p)
  {
  }
}
