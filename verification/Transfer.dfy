// Block-by-block file transfer: the sending jobs and the loop of src/server.rs, the receiving jobs
// of src/remote.rs, and the listings, block reads and writes of src/file_transfer.rs.

module TransferSpec {
  import opened Wrappers
  import opened MachineInts
  import opened Radix

  const BLOCK_SIZE: nat := 128 * 1024

  type Path = string
  type Files = map<Path, seq<byte>>

  // One entry of a recursive listing; names are relative to the listed directory.
  datatype Entry = Entry(name: string, isFile: bool, size: u64)

  // What a path is listed as: the entries below a directory, or a file itself without a name.
  type Tree = Path -> seq<Entry>

  datatype Response =
    | Block(id: i32, fileNum: nat, data: seq<byte>, blkId: u32)
    | Done(id: i32, fileNum: nat)
    | Error(id: i32, fileNum: nat)
    | Dir(id: i32, entries: seq<Entry>)

  // ----- paths and names -----

  predicate Separator(c: char) { c == '/' || c == '\\' }

  predicate Letter(c: char) { 'a' <= c <= 'z' || 'A' <= c <= 'Z' }

  // A separator goes between, unless there is one or base is empty or a bare drive.
  function Join(base: Path, name: string): (p: Path)
    ensures base <= p && (name != "" ==> p != base)
  {
    if base == "" || Separator(base[|base| - 1]) || (|base| == 2 && Letter(base[0]) && base[1] == ':') then base + name
    else base + "\\" + name
  }

  // The only entry of a file that is asked for by itself has no name.
  function Located(base: Path, name: string): Path { if name == "" then base else Join(base, name) }

  // A name cut at its separators.
  function Parts(s: string): (ps: seq<string>)
    ensures |ps| > 0
  {
    if s == "" then [""]
    else
      var n := |s| - 1;
      var ps := Parts(s[..n]);
      if Separator(s[n]) then ps + [""] else ps[|ps| - 1 := ps[|ps| - 1] + [s[n]]]
  }

  predicate SafeName(name: string)
  {
    && '\0' !in name && !(name != "" && Separator(name[0]))
    && !(|name| >= 2 && Letter(name[0]) && name[1] == ':') && ".." !in Parts(name)
  }

  predicate NamesSafe(es: seq<Entry>)
  {
    || (|es| == 1 && es[0].name == "")
    || forall f :: 0 <= f < |es| ==> es[f].name != "" && SafeName(es[f].name)
  }

  predicate FileAt(es: seq<Entry>, f: int) { 0 <= f < |es| && es[f].isFile }

  // ----- the sender -----

  datatype SendJob =
    SendJob(path: Path, fileSize: u64, offset: u64, done: bool, confirmed: bool, id: i32, fileNum: nat, blkId: u32)

  function Key(id: int, fileNum: int): int { id * 1000 + fileNum }

  // A read at offset: any nonempty part of the block that is there; None if the file cannot be opened.
  function ReadBlock(files: Files, path: Path, offset: nat, short: nat): Option<seq<byte>>
  {
    if path !in files then None
    else
      var f := files[path];
      if offset >= |f| then Some([])
      else
        var most := if |f| - offset <= BLOCK_SIZE then |f| - offset else BLOCK_SIZE;
        Some(f[offset..offset + (if short == 0 then 1 else if short <= most then short else most)])
  }

  // One visit to one job: what it sends and how it goes on.
  function Visit(files: Files, j: SendJob, short: nat): (SendJob, seq<Response>)
  {
    if j.done || !j.confirmed then (j, [])
    else if j.offset >= j.fileSize then (j.(done := true), [Done(j.id, j.fileNum)])
    else
      match ReadBlock(files, j.path, j.offset, short)
      case None => (j.(done := true), [Error(j.id, j.fileNum)])
      case Some(data) => (Moved(j, |data|), [Block(j.id, j.fileNum, data, j.blkId)])
  }

  function Moved(j: SendJob, n: nat): SendJob
  {
    j.(offset := if j.offset + n < TWO64 then j.offset + n else (j.offset + n) % TWO64,
       blkId := if j.blkId + 1 < TWO32 then j.blkId + 1 else 0)
  }

  type Jobs = map<int, SendJob>

  // The visits of one pass, in whatever order the hash map gives its keys.
  function Visits(files: Files, jobs: Jobs, order: seq<int>, shorts: nat -> nat): (Jobs, seq<Response>)
  {
    if order == [] then (jobs, [])
    else
      var n := |order| - 1;
      var (js, out) := Visits(files, jobs, order[..n], shorts);
      if order[n] in js then
        var (j, more) := Visit(files, js[order[n]], shorts(n));
        (js[order[n] := j], out + more)
      else (js, out)
  }

  function Unfinished(jobs: Jobs): Jobs { map k | k in jobs && !jobs[k].done :: jobs[k] }

  datatype Sender = Sender(jobs: Jobs, log: seq<Response>)

  function SendPending(files: Files, s: Sender, order: seq<int>, shorts: nat -> nat): Sender
  {
    var (js, out) := Visits(files, s.jobs, order, shorts);
    Sender(Unfinished(js), s.log + out)
  }

  // ----- queueing -----

  datatype Listed = Listed(id: i32, fileNum: nat, path: Path, size: u64)

  function NewJob(x: Listed): SendJob { SendJob(x.path, x.size, 0, false, false, x.id, x.fileNum, 0) }

  function KeyOf(x: Listed): int { Key(x.id, x.fileNum) }

  // Inserting replaces what was stored under the key.
  function Queue(jobs: Jobs, xs: seq<Listed>): Jobs
  {
    if xs == [] then jobs
    else
      var n := |xs| - 1;
      Queue(jobs, xs[..n])[KeyOf(xs[n]) := NewJob(xs[n])]
  }

  // Every file of a listing is queued under its place in it; directories are passed over.
  function Listing(id: i32, root: Path, es: seq<Entry>): seq<Listed>
  {
    if es == [] then []
    else
      var n := |es| - 1;
      Listing(id, root, es[..n]) + (if es[n].isFile then [Listed(id, n, Located(root, es[n].name), es[n].size)] else [])
  }

  function FileOf(id: i32, root: Path, es: seq<Entry>, f: nat): Listed
    requires f < |es|
  {
    Listed(id, f, Located(root, es[f].name), es[f].size)
  }

  // ----- the loop -----

  datatype Choice = Skip | OffsetBlk(blk: u32) | FromStart

  function SendConfirm(s: Sender, id: i32, fileNum: nat, c: Choice): Sender
  {
    var key := Key(id, fileNum);
    if key !in s.jobs then s
    else
      var j := s.jobs[key].(confirmed := true);
      match c
      case Skip => Sender(s.jobs[key := j.(done := true)], s.log + [Done(j.id, j.fileNum)])
      case OffsetBlk(b) => Sender(s.jobs[key := j.(offset := b * BLOCK_SIZE, blkId := b)], s.log)
      case FromStart => Sender(s.jobs[key := j], s.log)
  }

  // What a turn reads: nothing of interest, a path asked for, a confirmation, a cancelled job.
  datatype Event =
    | Quiet
    | Ask(id: i32, root: Path)
    | Confirm(id: i32, fileNum: nat, c: Choice)
    | Cancel(id: i32)

  function Handle(tree: Tree, s: Sender, e: Event): Sender
  {
    match e
    case Quiet => s
    case Ask(id, root) => Sender(Queue(s.jobs, Listing(id, root, tree(root))), s.log + [Dir(id, tree(root))])
    case Confirm(id, fileNum, c) => SendConfirm(s, id, fileNum, c)
    case Cancel(id) => s.(jobs := map k | k in s.jobs && s.jobs[k].id != id :: s.jobs[k])
  }

  // The keys of the map, each once, in whatever order.
  predicate Enumerates(order: seq<int>, jobs: Jobs)
  {
    |order| == |jobs| && (forall k :: k in jobs ==> k in order) && forall k :: k in order ==> k in jobs
  }

  // A message, then a pass over all jobs.
  function Turned(files: Files, tree: Tree, s: Sender, e: Event, order: seq<int>, shorts: nat -> nat): Sender
  {
    SendPending(files, Handle(tree, s, e), order, shorts)
  }

  // ----- the receiver -----

  datatype WriteJob = WriteJob(dest: Path, files: seq<Path>, offsets: seq<nat>, doneCount: nat)

  datatype Receiver = Receiver(jobs: map<i32, WriteJob>, disk: Files, finished: seq<i32>)

  // write_file_block: nothing at all for empty data; offset 0 starts the file afresh; a gap reads as zeros.
  function WriteBlock(disk: Files, path: Path, data: seq<byte>, offset: nat): Files
  {
    if data == [] then disk
    else
      var before := if path in disk && offset != 0 then disk[path] else [];
      var head := if |before| >= offset then before[..offset] else before + Zeros(offset - |before|);
      var tail := if |before| >= offset + |data| then before[offset + |data|..] else [];
      disk[path := head + data + tail]
  }

  function WritePath(j: WriteJob, fileNum: nat): Path
  {
    if fileNum < |j.files| && j.files[fileNum] != "" then j.files[fileNum] else j.dest
  }

  function Stretched(offsets: seq<nat>, fileNum: nat): (s: seq<nat>)
    ensures |s| > fileNum && |s| >= |offsets|
  {
    if |offsets| > fileNum then offsets else offsets + seq(fileNum + 1 - |offsets|, _ => 0)
  }

  // Directories have none.
  function Destination(base: Path, e: Entry): Path { if e.isFile then Located(base, e.name) else "" }

  function Destinations(base: Path, es: seq<Entry>): (ps: seq<Path>)
    ensures |ps| == |es| && forall f :: 0 <= f < |es| ==> ps[f] == Destination(base, es[f])
  {
    seq(|es|, f requires 0 <= f < |es| => Destination(base, es[f]))
  }

  function Opened(r: Receiver, id: i32, dest: Path): Receiver { r.(jobs := r.jobs[id := WriteJob(dest, [], [], 0)]) }

  // An unsafe list ends its job.
  function OnDir(r: Receiver, id: i32, es: seq<Entry>): Receiver
  {
    if id !in r.jobs then r
    else if !NamesSafe(es) then r.(jobs := r.jobs - {id})
    else
      var j := r.jobs[id];
      r.(jobs := r.jobs[id := j.(files := Destinations(j.dest, es), offsets := seq(|es|, _ => 0))])
  }

  function OnBlock(r: Receiver, id: i32, fileNum: nat, data: seq<byte>): Receiver
    requires id in r.jobs
  {
    var j := r.jobs[id];
    var offs := Stretched(j.offsets, fileNum);
    r.(disk := WriteBlock(r.disk, WritePath(j, fileNum), data, offs[fileNum]),
       jobs := r.jobs[id := j.(offsets := offs[fileNum := offs[fileNum] + |data|])])
  }

  function OnDone(r: Receiver, id: i32): Receiver
  {
    if id in r.jobs && r.jobs[id].files != [] && r.jobs[id].doneCount + 1 < |r.jobs[id].files| then
      r.(jobs := r.jobs[id := r.jobs[id].(doneCount := r.jobs[id].doneCount + 1)])
    else
      r.(jobs := r.jobs - {id}, finished := r.finished + [id])
  }

  // Writes are taken to succeed.
  function OnResponse(r: Receiver, m: Response): Receiver
  {
    match m
    case Block(id, fileNum, data, _) => if id in r.jobs then OnBlock(r, id, fileNum, data) else r
    case Done(id, _) => OnDone(r, id)
    case Error(_, _) => r
    case Dir(id, entries) => OnDir(r, id, entries)
  }

  // An unsafe list is refused as well.
  function Refusal(r: Receiver, m: Response): seq<Event>
  {
    if m.Dir? && m.id in r.jobs && !NamesSafe(m.entries) then [Cancel(m.id)] else []
  }

  function Refusals(r: Receiver, log: seq<Response>): seq<Event>
  {
    if log == [] then []
    else Refusals(r, log[..|log| - 1]) + Refusal(Drain(r, log[..|log| - 1]), log[|log| - 1])
  }

  function Drain(r: Receiver, log: seq<Response>): Receiver
  {
    if log == [] then r else OnResponse(Drain(r, log[..|log| - 1]), log[|log| - 1])
  }

  // ----- what a log says -----

  predicate Of(m: Response, id: i32, fileNum: nat) { !m.Dir? && m.id == id && m.fileNum == fileNum }

  // The bytes sent for one file, in order.
  function Data(log: seq<Response>, id: i32, fileNum: nat): seq<byte>
  {
    if log == [] then []
    else
      var n := |log| - 1;
      Data(log[..n], id, fileNum) + (if log[n].Block? && Of(log[n], id, fileNum) then log[n].data else [])
  }

  // After a file's Done nothing more is said about it; in particular there is only one.
  ghost predicate Orderly(log: seq<Response>)
  {
    forall i, j :: 0 <= i < j < |log| && log[i].Done? ==> !Of(log[j], log[i].id, log[i].fileNum)
  }
}
