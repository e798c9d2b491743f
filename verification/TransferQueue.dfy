// Queueing files under the key id * 1000 + file number: the inserts of src/server.rs, and what
// becomes of a file whose key is taken.

module TransferQueue {
  import opened MachineInts
  import opened TransferSpec

  // ----- keys -----

  lemma SameKey(id: int, f: nat, id': int, f': nat)
    ensures Key(id, f) == Key(id', f') <==> f - f' == 1000 * (id' - id)
  {
  }

  // A file's key belongs to one of the first thousand files of another job exactly from file
  // number 1000 on.
  lemma KeyTaken(id: int, f: nat)
    ensures (exists id': int, f': nat :: f' < 1000 && (id' != id || f' != f) && Key(id', f') == Key(id, f))
       <==> f >= 1000
  {
    if f >= 1000 { assert Key(id + f / 1000, f % 1000) == Key(id, f); }
  }

  // ----- queueing -----

  lemma QueueSnoc(jobs: Jobs, xs: seq<Listed>, x: Listed)
    ensures Queue(jobs, xs + [x]) == Queue(jobs, xs)[KeyOf(x) := NewJob(x)]
    ensures [] + [x] == [x]
  {
    assert (xs + [x])[..|xs|] == xs;
  }

  ghost predicate Kept(jobs: Jobs, x: Listed) { KeyOf(x) in jobs && jobs[KeyOf(x)] == NewJob(x) }

  ghost predicate AllIn(jobs: Jobs, xs: seq<Listed>) { forall i :: 0 <= i < |xs| ==> Kept(jobs, xs[i]) }

  // Files that share a key are the same file.
  ghost predicate KeysTell(xs: seq<Listed>)
  {
    forall i, j :: 0 <= i < j < |xs| && KeyOf(xs[i]) == KeyOf(xs[j]) ==> xs[i] == xs[j]
  }

  ghost predicate LastOfKey(xs: seq<Listed>, i: int)
  {
    0 <= i < |xs| && forall j :: i < j < |xs| ==> KeyOf(xs[j]) != KeyOf(xs[i])
  }

  // The last file of a key has it.
  lemma {:induction false} LastStays(jobs: Jobs, xs: seq<Listed>, i: int)
    requires LastOfKey(xs, i)
    ensures Kept(Queue(jobs, xs), xs[i])
  {
    var n := |xs| - 1;
    if i < n {
      assert xs[..n][i] == xs[i];
      LastStays(jobs, xs[..n], i);
    }
  }

  lemma {:induction false} LastExists(xs: seq<Listed>, i: int) returns (l: int)
    requires 0 <= i < |xs|
    ensures i <= l && LastOfKey(xs, l) && KeyOf(xs[l]) == KeyOf(xs[i])
    decreases |xs| - i
  {
    if LastOfKey(xs, i) {
      l := i;
    } else {
      var j :| i < j < |xs| && KeyOf(xs[j]) == KeyOf(xs[i]);
      l := LastExists(xs, j);
    }
  }

  // Every queued file is there to be sent exactly when the keys tell the files apart.
  lemma AllKept(jobs: Jobs, xs: seq<Listed>)
    ensures AllIn(Queue(jobs, xs), xs) <==> KeysTell(xs)
  {
    if KeysTell(xs) {
      forall i | 0 <= i < |xs| ensures Kept(Queue(jobs, xs), xs[i]) {
        var l := LastExists(xs, i);
        LastStays(jobs, xs, l);
      }
    }
  }

  // A file is lost exactly when a different one is queued last under its key.
  lemma FileLost(jobs: Jobs, xs: seq<Listed>, i: int)
    requires 0 <= i < |xs|
    ensures !Kept(Queue(jobs, xs), xs[i])
       <==> exists l :: i < l && LastOfKey(xs, l) && KeyOf(xs[l]) == KeyOf(xs[i]) && xs[l] != xs[i]
  {
    var l := LastExists(xs, i);
    LastStays(jobs, xs, l);
    forall l' | i < l' && LastOfKey(xs, l') && KeyOf(xs[l']) == KeyOf(xs[i]) && xs[l'] != xs[i]
      ensures !Kept(Queue(jobs, xs), xs[i])
    {
      LastStays(jobs, xs, l');
    }
  }

  // ----- listings -----

  lemma {:induction false} ListingHas(id: i32, root: Path, es: seq<Entry>, x: Listed)
    ensures x in Listing(id, root, es) <==> FromOne(id, root, es, x)
  {
    if es != [] { ListingHas(id, root, es[..|es| - 1], x); }
  }

  // KeysTell speaks of members only.
  lemma TellMembers(xs: seq<Listed>)
    ensures KeysTell(xs) <==> forall x, y :: x in xs && y in xs && KeyOf(x) == KeyOf(y) ==> x == y
  {
    if KeysTell(xs) {
      forall x, y | x in xs && y in xs && KeyOf(x) == KeyOf(y) ensures x == y {
        var i :| 0 <= i < |xs| && xs[i] == x;
        var j :| 0 <= j < |xs| && xs[j] == y;
        if i < j { assert xs[i] == xs[j]; } else if j < i { assert xs[j] == xs[i]; }
      }
    }
  }

  ghost predicate FromOne(id: i32, root: Path, es: seq<Entry>, x: Listed)
  {
    x.id == id && x.fileNum < |es| && es[x.fileNum].isFile && x == FileOf(id, root, es, x.fileNum)
  }

  // A file of the earlier listing lies d places behind one of the later.
  ghost predicate Clash(es: seq<Entry>, es': seq<Entry>, d: int) { exists f :: FileAt(es, f) && FileAt(es', f - d) }

  lemma ClashMeets(id: i32, root: Path, es: seq<Entry>, id': i32, root': Path, es': seq<Entry>, f: int)
    requires id < id' && FileAt(es, f) && FileAt(es', f - 1000 * (id' - id))
    ensures var x, y := FileOf(id, root, es, f), FileOf(id', root', es', f - 1000 * (id' - id));
            FromOne(id, root, es, x) && FromOne(id', root', es', y) && KeyOf(x) == KeyOf(y) && x != y
  {
  }

  lemma MeetClashes(id: i32, root: Path, es: seq<Entry>, id': i32, root': Path, es': seq<Entry>, x: Listed, y: Listed)
    requires id < id' && KeyOf(x) == KeyOf(y) && FromOne(id, root, es, x) && FromOne(id', root', es', y)
    ensures Clash(es, es', 1000 * (id' - id))
  {
    SameKey(x.id, x.fileNum, y.id, y.fileNum);
    assert FileAt(es, x.fileNum) && FileAt(es', x.fileNum - 1000 * (id' - id));
  }

  lemma SameFile(id: i32, root: Path, es: seq<Entry>, x: Listed, y: Listed)
    requires FromOne(id, root, es, x) && FromOne(id, root, es, y) && KeyOf(x) == KeyOf(y)
    ensures x == y
  {
  }

  // Two directories being sent lose a file exactly when a file of the earlier id lies as many
  // thousands behind one of the later as their ids are apart.
  lemma TwoListings(jobs: Jobs, id: i32, root: Path, es: seq<Entry>, id': i32, root': Path, es': seq<Entry>)
    requires id < id'
    ensures var xs := Listing(id, root, es) + Listing(id', root', es');
            AllIn(Queue(jobs, xs), xs) <==> !Clash(es, es', 1000 * (id' - id))
  {
    var xs := Listing(id, root, es) + Listing(id', root', es');
    AllKept(jobs, xs);
    TellMembers(xs);
    forall x ensures x in xs <==> FromOne(id, root, es, x) || FromOne(id', root', es', x) {
      ListingHas(id, root, es, x);
      ListingHas(id', root', es', x);
    }
    if Clash(es, es', 1000 * (id' - id)) {
      var f :| FileAt(es, f) && FileAt(es', f - 1000 * (id' - id));
      ClashMeets(id, root, es, id', root', es', f);
    }
    forall x, y | x in xs && y in xs && KeyOf(x) == KeyOf(y) && x != y ensures Clash(es, es', 1000 * (id' - id)) {
      if FromOne(id, root, es, x) {
        if FromOne(id, root, es, y) { SameFile(id, root, es, x, y); }
        MeetClashes(id, root, es, id', root', es', x, y);
      } else {
        if FromOne(id', root', es', y) { SameFile(id', root', es', x, y); }
        MeetClashes(id, root, es, id', root', es', y, x);
      }
    }
  }

  // With files only: exactly when the earlier directory has more than a thousand files for each
  // id in between and the later one has any.
  lemma TwoFullListings(jobs: Jobs, id: i32, root: Path, es: seq<Entry>, id': i32, root': Path, es': seq<Entry>)
    requires id < id' && (forall e :: e in es ==> e.isFile) && (forall e :: e in es' ==> e.isFile)
    ensures var xs := Listing(id, root, es) + Listing(id', root', es');
            AllIn(Queue(jobs, xs), xs) <==> |es| <= 1000 * (id' - id) || es' == []
  {
    TwoListings(jobs, id, root, es, id', root', es');
    var d := 1000 * (id' - id);
    if |es| > d && es' != [] {
      assert es[d] in es && es'[d - d] in es';
      assert FileAt(es, d) && FileAt(es', d - d);
    }
  }

  // ----- one listing -----

  // What queueing a listing leaves under key k.
  ghost predicate Under(jobs: Jobs, id: i32, root: Path, es: seq<Entry>, q: Jobs, k: int)
  {
    var f := k - 1000 * id;
    if FileAt(es, f) then k in q && q[k] == NewJob(FileOf(id, root, es, f))
    else (k in q <==> k in jobs) && (k in q ==> q[k] == jobs[k])
  }

  lemma {:induction false} QueueListing(jobs: Jobs, id: i32, root: Path, es: seq<Entry>, k: int)
    ensures Under(jobs, id, root, es, Queue(jobs, Listing(id, root, es)), k)
  {
    if es != [] {
      var n := |es| - 1;
      QueueListing(jobs, id, root, es[..n], k);
      ListingSnoc(jobs, id, root, es);
      OneMoreUnder(jobs, id, root, es, Queue(jobs, Listing(id, root, es[..n])), k);
    }
  }

  // The last entry takes its key if it is a file.
  function Inserted(id: i32, root: Path, es: seq<Entry>, q: Jobs): Jobs
    requires es != []
  {
    var n := |es| - 1;
    if es[n].isFile then q[Key(id, n) := NewJob(FileOf(id, root, es, n))] else q
  }

  lemma ListingSnoc(jobs: Jobs, id: i32, root: Path, es: seq<Entry>)
    requires es != []
    ensures Queue(jobs, Listing(id, root, es)) == Inserted(id, root, es, Queue(jobs, Listing(id, root, es[..|es| - 1])))
  {
    var n := |es| - 1;
    var before := Listing(id, root, es[..n]);
    if es[n].isFile { QueueSnoc(jobs, before, FileOf(id, root, es, n)); } else { assert before + [] == before; }
  }

  lemma OneMoreUnder(jobs: Jobs, id: i32, root: Path, es: seq<Entry>, q: Jobs, k: int)
    requires es != [] && Under(jobs, id, root, es[..|es| - 1], q, k)
    ensures Under(jobs, id, root, es, Inserted(id, root, es, q), k)
  {
  }

  lemma {:induction false} QueueOrigin(xs: seq<Listed>)
    ensures forall k :: k in Queue(map[], xs) ==>
              exists x :: x in xs && KeyOf(x) == k && Queue(map[], xs)[k] == NewJob(x)
  {
    if xs != [] {
      var n := |xs| - 1;
      QueueOrigin(xs[..n]);
      assert xs[n] in xs;
    }
  }
}
