// The uploading client of src/remote.rs: what it sends for one upload, and what the server of
// src/server.rs makes of it.

module TransferClient {
  import opened Wrappers
  import opened MachineInts
  import opened TransferSpec
  import opened TransferSend
  import opened TransferList
  import opened TransferReceive
  import opened TransferUpload

  // ----- what the client sends -----

  // The blocks of one file from offset on, until a read returns nothing.
  function Blocks(files: Files, path: Path, id: i32, f: nat, offset: nat, blk: nat, shorts: nat -> nat): seq<Response>
    decreases if path in files && offset < |files[path]| then |files[path]| - offset else 0
  {
    var r := ReadBlock(files, path, offset, shorts(blk));
    if r.None? || r.value == [] then []
    else
      [Block(id, f, r.value, blk % 0x1_0000_0000)]
      + Blocks(files, path, id, f, offset + |r.value|, blk + 1, shorts)
  }

  // A file asked for by itself has no name.
  function Source(src: Path, name: string): Path { Located(src, name) }

  type Reads = nat -> (nat -> nat)

  // All files in their order, directory markers passed over.
  function Body(files: Files, src: Path, id: i32, names: seq<string>, n: nat, shorts: Reads): seq<Response>
    requires n <= |names|
  {
    if n == 0 then []
    else
      Body(files, src, id, names, n - 1, shorts)
      + if Marker(names[n - 1]) then [] else Blocks(files, Source(src, names[n - 1]), id, n - 1, 0, 0, shorts(n - 1))
  }

  // One Done for the whole upload, under the number of its last entry.
  function Last(id: i32, names: seq<string>): Response
    requires names != []
  {
    Done(id, |names| - 1)
  }

  // ----- the server takes blocks -----

  function Feed(u: Uploads, log: seq<Response>): Uploads
  {
    if log == [] then u else OnUpload(Feed(u, log[..|log| - 1]), log[|log| - 1], None)
  }

  lemma {:induction false} FeedConcat(u: Uploads, a: seq<Response>, b: seq<Response>)
    ensures Feed(u, a + b) == Feed(Feed(u, a), b)
    decreases |b|
  {
    if b == [] {
      assert a + b == a;
    } else {
      var n := |b| - 1;
      assert (a + b)[..|a| + n] == a + b[..n] && (a + b)[|a| + n] == b[n];
      FeedConcat(u, a, b[..n]);
    }
  }

  lemma FeedOne(u: Uploads, m: Response)
    ensures Feed(u, [m]) == OnUpload(u, m, None)
  {
    assert [m][..0] == [];
  }

  // content is on disk where the job writes, up to its offset, and now in full.
  ghost predicate FileFed(u: Uploads, v: Uploads, key: int, content: seq<byte>)
    requires key in u.jobs
  {
    var j := u.jobs[key];
    && v.echoes == u.echoes && v.jobs == u.jobs[key := j.(offset := |content|)]
    && v.disk == if j.offset < |content| then u.disk[j.path := content] else u.disk
  }

  lemma {:induction false} BlocksFeed(files: Files, path: Path, id: i32, f: nat, blk: nat, shorts: nat -> nat,
                                      u: Uploads)
    requires path in files && Key(id, f) in u.jobs && !u.jobs[Key(id, f)].done
    requires var j := u.jobs[Key(id, f)];
             j.offset <= |files[path]|
              && (j.offset > 0 ==> j.path in u.disk && u.disk[j.path] == files[path][..j.offset])
    ensures FileFed(u, Feed(u, Blocks(files, path, id, f, u.jobs[Key(id, f)].offset, blk, shorts)),
                    Key(id, f), files[path])
    decreases |files[path]| - u.jobs[Key(id, f)].offset
  {
    var key := Key(id, f);
    var j, content := u.jobs[key], files[path];
    if j.offset == |content| {
      assert u.jobs[key := j] == u.jobs;
    } else {
      var n := SomeRead(files, path, j.offset, shorts(blk));
      var m := Block(id, f, content[j.offset..j.offset + n], blk % 0x1_0000_0000);
      var v := BlockFeeds(u, key, m, content, n);
      BlocksFeed(files, path, id, f, blk + 1, shorts, v);
      FeedConcat(u, [m], Blocks(files, path, id, f, j.offset + n, blk + 1, shorts));
      FeedOne(u, m);
      ThenFed(u, v, Feed(v, Blocks(files, path, id, f, j.offset + n, blk + 1, shorts)), key, content, n);
    }
  }

  // One block of n bytes.
  lemma BlockFeeds(u: Uploads, key: int, m: Response, content: seq<byte>, n: nat) returns (v: Uploads)
    requires m.Block? && key == Key(m.id, m.fileNum) && key in u.jobs && !u.jobs[key].done
    requires var j := u.jobs[key];
             && 0 < n && j.offset + n <= |content| && m.data == content[j.offset..j.offset + n]
             && (j.offset > 0 ==> j.path in u.disk && u.disk[j.path] == content[..j.offset])
    ensures v == OnUpload(u, m, None) && v.echoes == u.echoes
    ensures var j := u.jobs[key];
            && v.jobs == u.jobs[key := j.(offset := j.offset + n)]
            && v.disk == u.disk[j.path := content[..j.offset + n]]
  {
    var j := u.jobs[key];
    v := OnUpload(u, m, None);
    assert content[..j.offset] + m.data == content[..j.offset + n];
    WriteAppends(u.disk, j.path, content[..j.offset], m.data);
  }

  lemma ThenFed(u: Uploads, v: Uploads, w: Uploads, key: int, content: seq<byte>, n: nat)
    requires key in u.jobs && 0 < n && u.jobs[key].offset + n <= |content| && v.echoes == u.echoes
    requires var j := u.jobs[key];
             && v.jobs == u.jobs[key := j.(offset := j.offset + n)]
             && v.disk == u.disk[j.path := content[..j.offset + n]]
    requires FileFed(v, w, key, content)
    ensures FileFed(u, w, key, content)
  {
    var j := u.jobs[key];
    assert u.jobs[key := j.(offset := j.offset + n)][key := j.(offset := |content|)]
           == u.jobs[key := j.(offset := |content|)];
    if j.offset + n == |content| {
      assert content[..j.offset + n] == content;
    } else {
      assert u.disk[j.path := content[..j.offset + n]][j.path := content] == u.disk[j.path := content];
    }
  }

  // ----- a whole upload -----

  predicate Own(names: seq<string>, f: int) { 0 <= f < |names| && !Marker(names[f]) }

  // The server has a fresh job for every file of the upload, on paths of their own, and no other
  // of its id. The keys tell it from other uploads.
  ghost predicate Ready(u: Uploads, id: i32, names: seq<string>)
  {
    && (forall f :: Own(names, f) ==>
          UpHas(u.jobs, id, f) && u.jobs[Key(id, f)].offset == 0 && !u.jobs[Key(id, f)].done)
    && (forall k :: k in u.jobs && u.jobs[k].id == id ==> exists f :: Own(names, f) && k == Key(id, f))
    && (forall f, g :: Own(names, f) && Own(names, g) && f != g ==> u.jobs[Key(id, f)].path != u.jobs[Key(id, g)].path)
    && forall f :: 0 <= f < |names| && Key(id, f) in u.jobs ==> u.jobs[Key(id, f)].id == id
  }

  // The client's files are there and stay as they are.
  ghost predicate Readable(files: Files, src: Path, names: seq<string>)
  {
    forall f :: Own(names, f) ==> Source(src, names[f]) in files
  }

  function Content(files: Files, src: Path, names: seq<string>, f: int): seq<byte>
    requires Own(names, f) && Source(src, names[f]) in files
  {
    files[Source(src, names[f])]
  }

  // The first n files are on disk, in full; nothing else has changed.
  ghost predicate FedTo(files: Files, src: Path, u: Uploads, v: Uploads, id: i32, names: seq<string>, n: int)
    requires Ready(u, id, names) && Readable(files, src, names)
  {
    && v.echoes == u.echoes && v.jobs.Keys == u.jobs.Keys
    && (forall f :: Own(names, f) ==>
          v.jobs[Key(id, f)] == u.jobs[Key(id, f)].(offset := if f < n then |Content(files, src, names, f)| else 0))
    && (forall k :: k in u.jobs && u.jobs[k].id != id ==> v.jobs[k] == u.jobs[k])
    && (forall f :: Own(names, f) && f < n && Content(files, src, names, f) != [] ==>
          var p := u.jobs[Key(id, f)].path; p in v.disk && v.disk[p] == Content(files, src, names, f))
    && forall p: Path :: !Reached(files, src, u, id, names, n, p) ==> SameAt(v.disk, u.disk, p)
  }

  ghost predicate Reached(files: Files, src: Path, u: Uploads, id: i32, names: seq<string>, n: int, p: Path)
    requires Ready(u, id, names) && Readable(files, src, names)
  {
    exists f :: Own(names, f) && f < n && Content(files, src, names, f) != [] && u.jobs[Key(id, f)].path == p
  }

  lemma {:induction false} BodyFeeds(files: Files, src: Path, u: Uploads, id: i32, names: seq<string>, n: nat,
                                     shorts: Reads)
    requires Ready(u, id, names) && Readable(files, src, names) && n <= |names|
    ensures FedTo(files, src, u, Feed(u, Body(files, src, id, names, n, shorts)), id, names, n)
  {
    if n > 0 {
      var before := Body(files, src, id, names, n - 1, shorts);
      var v := Feed(u, before);
      BodyFeeds(files, src, u, id, names, n - 1, shorts);
      if Marker(names[n - 1]) {
        assert before + [] == before;
        NextMarker(files, src, u, v, id, names, n);
      } else {
        var more := Blocks(files, Source(src, names[n - 1]), id, n - 1, 0, 0, shorts(n - 1));
        FeedConcat(u, before, more);
        FileFeeds(files, src, u, v, id, names, n, more, shorts(n - 1));
      }
    }
  }

  lemma FileFeeds(
    files: Files, src: Path, u: Uploads, v: Uploads, id: i32, names: seq<string>, n: nat, more: seq<Response>,
    short: nat -> nat
  )
    requires Ready(u, id, names) && Readable(files, src, names) && 0 < n <= |names| && Own(names, n - 1)
    requires FedTo(files, src, u, v, id, names, n - 1)
    requires more == Blocks(files, Source(src, names[n - 1]), id, n - 1, 0, 0, short)
    ensures FedTo(files, src, u, Feed(v, more), id, names, n)
  {
    BlocksFeed(files, Source(src, names[n - 1]), id, n - 1, 0, short, v);
    NextFed(files, src, u, v, Feed(v, more), id, names, n);
  }

  lemma NextMarker(files: Files, src: Path, u: Uploads, v: Uploads, id: i32, names: seq<string>, n: nat)
    requires Ready(u, id, names) && Readable(files, src, names) && 0 < n <= |names| && Marker(names[n - 1])
    requires FedTo(files, src, u, v, id, names, n - 1)
    ensures FedTo(files, src, u, v, id, names, n)
  {
    forall p: Path | Reached(files, src, u, id, names, n - 1, p) ensures Reached(files, src, u, id, names, n, p) {
      var f :| Own(names, f) && f < n - 1 && Content(files, src, names, f) != [] && u.jobs[Key(id, f)].path == p;
    }
  }

  lemma NextFed(files: Files, src: Path, u: Uploads, v: Uploads, w: Uploads, id: i32, names: seq<string>, n: nat)
    requires Ready(u, id, names) && Readable(files, src, names) && 0 < n <= |names| && Own(names, n - 1)
    requires FedTo(files, src, u, v, id, names, n - 1) && Key(id, n - 1) in v.jobs
    requires FileFed(v, w, Key(id, n - 1), Content(files, src, names, n - 1))
    ensures FedTo(files, src, u, w, id, names, n)
  {
    forall p: Path | !Reached(files, src, u, id, names, n, p) ensures SameAt(w.disk, u.disk, p) {
      NotReached(files, src, u, id, names, n, p);
    }
  }

  lemma NotReached(files: Files, src: Path, u: Uploads, id: i32, names: seq<string>, n: nat, p: Path)
    requires Ready(u, id, names) && Readable(files, src, names) && 0 < n <= |names| && Own(names, n - 1)
    requires !Reached(files, src, u, id, names, n, p)
    ensures !Reached(files, src, u, id, names, n - 1, p)
    ensures Content(files, src, names, n - 1) != [] ==> p != u.jobs[Key(id, n - 1)].path
  {
  }

  // ----- the Done -----

  // After the upload: every file is there in full; the job that is marked done, and echoed, is
  // that of the last entry, or, if that is a directory, of some file of the upload, if it has any.
  // All other files are never marked.
  lemma UploadEnds(files: Files, src: Path, u: Uploads, id: i32, names: seq<string>, shorts: Reads, k: Option<int>)
    requires Ready(u, id, names) && Readable(files, src, names) && names != []
    requires Resolves(Feed(u, Body(files, src, id, names, |names|, shorts)).jobs, Last(id, names), k)
    ensures var v := Feed(u, Body(files, src, id, names, |names|, shorts));
            var w := OnDoneUp(v, k);
            && FedTo(files, src, u, v, id, names, |names|) && w.disk == v.disk
            && (k.None? <==> forall f :: !Own(names, f)) && (k.None? ==> w == v)
            && (k.Some? ==> exists f :: EndsWith(v, w, id, names, f) && k == Some(Key(id, f))
                                        && (Own(names, |names| - 1) ==> f == |names| - 1))
  {
    var v := Feed(u, Body(files, src, id, names, |names|, shorts));
    BodyFeeds(files, src, u, id, names, |names|, shorts);
    OwnUnfinished(files, src, u, v, id, names);
    var last := |names| - 1;
    if Own(names, last) {
      assert EndsWith(v, OnDoneUp(v, k), id, names, last);
    } else if k.Some? {
      var f := SomeOwn(files, src, u, v, id, names, k.value);
      assert EndsWith(v, OnDoneUp(v, k), id, names, f);
    }
  }

  lemma OwnUnfinished(files: Files, src: Path, u: Uploads, v: Uploads, id: i32, names: seq<string>)
    requires Ready(u, id, names) && Readable(files, src, names) && FedTo(files, src, u, v, id, names, |names|)
    ensures forall f :: Own(names, f) ==>
              Key(id, f) in v.jobs && v.jobs[Key(id, f)].id == id && !v.jobs[Key(id, f)].done
  {
  }

  // File f is marked done and echoed, and nothing else changes.
  ghost predicate EndsWith(v: Uploads, w: Uploads, id: i32, names: seq<string>, f: int)
  {
    && Own(names, f) && Key(id, f) in v.jobs && !v.jobs[Key(id, f)].done
    && w.jobs == v.jobs[Key(id, f) := v.jobs[Key(id, f)].(done := true)]
    && w.echoes == v.echoes + [Done(id, f)] && w.disk == v.disk
  }

  lemma SomeOwn(files: Files, src: Path, u: Uploads, v: Uploads, id: i32, names: seq<string>, k: int) returns (f: int)
    requires Ready(u, id, names) && Readable(files, src, names) && FedTo(files, src, u, v, id, names, |names|)
    requires k in v.jobs && v.jobs[k].id == id
    ensures Own(names, f) && k == Key(id, f) && v.jobs[k].fileNum == f && !v.jobs[k].done
  {
    assert k in u.jobs && u.jobs[k].id == id;
    f :| Own(names, f) && k == Key(id, f);
  }

  // ----- from the request on -----

  predicate Alone(names: seq<string>) { names == [""] }

  // Where file f goes.
  function Destined(dest: Path, names: seq<string>, f: nat): Path
    requires f < |names|
  {
    if Alone(names) then dest else Join(dest, names[f])
  }

  // What queueing leaves under key k.
  ghost predicate UpUnder(jobs: map<int, UpJob>, id: i32, dest: Path, names: seq<string>, q: map<int, UpJob>, k: int)
  {
    var f := k - 1000 * id;
    if Own(names, f) then k in q && q[k] == UpJob(Join(dest, names[f]), 0, id, f, false)
    else (k in q <==> k in jobs) && (k in q ==> q[k] == jobs[k])
  }

  lemma {:induction false} UpListing(jobs: map<int, UpJob>, id: i32, dest: Path, names: seq<string>, k: int)
    ensures UpUnder(jobs, id, dest, names, UpQueue(jobs, Uploaded(id, dest, names)), k)
  {
    if names != [] {
      var n := |names| - 1;
      var before := Uploaded(id, dest, names[..n]);
      UpListing(jobs, id, dest, names[..n], k);
      if Marker(names[n]) {
        assert before + [] == before;
      } else {
        UpQueueSnoc(jobs, before, Listed(id, n, Join(dest, names[n]), 0));
      }
      OneMoreUp(jobs, id, dest, names, UpQueue(jobs, before), k);
    }
  }

  lemma OneMoreUp(jobs: map<int, UpJob>, id: i32, dest: Path, names: seq<string>, q: map<int, UpJob>, k: int)
    requires names != [] && UpUnder(jobs, id, dest, names[..|names| - 1], q, k)
    ensures var n := |names| - 1;
            UpUnder(jobs, id, dest, names,
                    if Marker(names[n]) then q else q[Key(id, n) := UpJob(Join(dest, names[n]), 0, id, n, false)], k)
  {
  }

  // A request of a new id, with names that differ and keys that are free, makes the server ready.
  lemma RequestReady(u: Uploads, id: i32, dest: Path, names: seq<string>)
    requires names != [] && (forall k :: k in u.jobs ==> u.jobs[k].id != id)
    requires forall f :: 0 <= f < |names| ==> Key(id, f) !in u.jobs
    requires forall f, g :: Own(names, f) && Own(names, g) && f != g ==> names[f] != names[g]
    ensures Ready(u.(jobs := UpQueue(u.jobs, Requested(id, dest, names))), id, names)
    ensures forall f :: Own(names, f) ==>
              UpQueue(u.jobs, Requested(id, dest, names))[Key(id, f)].path == Destined(dest, names, f)
  {
    var q := UpQueue(u.jobs, Requested(id, dest, names));
    if Alone(names) {
      UpQueueSnoc(u.jobs, [], Listed(id, 0, dest, 0));
      assert Requested(id, dest, names) == [] + [Listed(id, 0, dest, 0)] && Own(names, 0);
    } else {
      forall k ensures UpUnder(u.jobs, id, dest, names, q, k) { UpListing(u.jobs, id, dest, names, k); }
      UnderReady(u, id, dest, names, q);
    }
  }

  lemma UnderReady(u: Uploads, id: i32, dest: Path, names: seq<string>, q: map<int, UpJob>)
    requires forall k :: UpUnder(u.jobs, id, dest, names, q, k)
    requires (forall k :: k in u.jobs ==> u.jobs[k].id != id) && forall f :: 0 <= f < |names| ==> Key(id, f) !in u.jobs
    requires forall f, g :: Own(names, f) && Own(names, g) && f != g ==> names[f] != names[g]
    ensures Ready(u.(jobs := q), id, names)
    ensures forall f :: Own(names, f) ==> q[Key(id, f)].path == Join(dest, names[f])
  {
    forall f | Own(names, f) ensures UpHas(q, id, f) && q[Key(id, f)] == UpJob(Join(dest, names[f]), 0, id, f, false) {
      assert UpUnder(u.jobs, id, dest, names, q, Key(id, f));
    }
    forall k | k in q && q[k].id == id ensures exists f :: Own(names, f) && k == Key(id, f) {
      assert UpUnder(u.jobs, id, dest, names, q, k);
      assert Own(names, k - 1000 * id) && k == Key(id, k - 1000 * id);
    }
    forall f, g | Own(names, f) && Own(names, g) && f != g ensures Join(dest, names[f]) != Join(dest, names[g]) {
      JoinApart(dest, names[f], names[g]);
    }
    forall f | 0 <= f < |names| && Key(id, f) in q ensures q[Key(id, f)].id == id {
      assert UpUnder(u.jobs, id, dest, names, q, Key(id, f));
    }
  }

  // Names that end in a slash make no job; every other one makes a fresh job on its path.
  lemma RequestedExactly(jobs: map<int, UpJob>, id: i32, dest: Path, names: seq<string>, f: nat)
    requires f < |names| && names != [""]
    ensures var q, k := UpQueue(jobs, Requested(id, dest, names)), id * 1000 + f;
            if names[f] != "" && names[f][|names[f]| - 1] == '/' then
              (k in q <==> k in jobs) && (k in q ==> q[k] == jobs[k])
            else
              k in q && q[k] == UpJob(Join(dest, names[f]), 0, id, f, false)
  {
    UpListing(jobs, id, dest, names, Key(id, f));
    assert UpUnder(jobs, id, dest, names, UpQueue(jobs, Requested(id, dest, names)), Key(id, f));
  }
}
