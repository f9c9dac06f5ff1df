/**
 The download of a subfile as a step machine. The main thread opens one output file after another
 and works in rounds: it spawns one task per outstanding chunk index and joins them all. A task
 requests its chunk, verifies the reply, writes it under the file's lock and removes its index. Every
 step below is one lock-protected or atomic action of the program; which step comes next, what the
 servers reply and which writes fail is up to the event sequence.
 */
module Protocol {
  import opened Basics
  import opened ChunkFiles
  import opened OutputFile
  import opened Urls

  datatype Config = Config(
    subfileId: string,
    entries: seq<ChunkFileMeta>,
    endpoints: seq<IndexerEndpoint>,
    maxRetry: nat,
    hash: Hasher)

  datatype Request = Request(
    queryEndpoint: string,
    fileHash: string,
    start: u64,
    end: u64,
    chunkHash: string,
    maxRetry: nat)

  /** The request for chunk i, or a panic of the index arithmetic. */
  function DownloadRangeRequest(c: Config, meta: ChunkFileMeta, i: nat, endpoint: IndexerEndpoint): Outcome<Request> {
    match ChunkRange(meta.chunkFile, i)
    case Panic => Panic
    case Err(e) => Err(e)
    case Ok((start, end)) =>
      if i >= |meta.chunkFile.chunkHashes| then Panic
      else Ok(Request(QueryEndpoint(endpoint.url, c.subfileId), meta.metaInfo.hash, start, end,
                      meta.chunkFile.chunkHashes[i], c.maxRetry))
  }

  /** What is asked for, of whom: the subfile at the endpoint, the file by its hash, and the chunk's bytes. */
  lemma RequestExact(c: Config, meta: ChunkFileMeta, i: nat, endpoint: IndexerEndpoint)
    ensures DownloadRangeRequest(c, meta, i, endpoint).Ok? <==> Fetchable(meta.chunkFile, i)
    ensures DownloadRangeRequest(c, meta, i, endpoint).Ok? ==>
              var request := DownloadRangeRequest(c, meta, i, endpoint).value;
              var cf := meta.chunkFile;
              && request.queryEndpoint == endpoint.url + "/subfiles/id/" + c.subfileId
              && request.fileHash == meta.metaInfo.hash
              && request.start == i * cf.chunkSize
              && request.end == Min(i * cf.chunkSize + cf.chunkSize, cf.totalBytes) - 1
              && i < |cf.chunkHashes| && request.chunkHash == cf.chunkHashes[i]
              && request.maxRetry == c.maxRetry
  {
  }

  datatype Phase =
    | Requesting(attempts: nat)          // about to send a request
    | Verified(data: Bytes)              // the reply has the expected hash
    | Holding(data: Bytes)               // has the file's lock
    | Writing(data: Bytes, done: nat)    // has sought, and written the first `done` bytes
    | Stored                             // has written everything and released the lock
    | Failing                            // is going to return an error
    | Ended(ok: bool)
    | Dead                               // panicked

  predicate Live(phase: Phase) {
    !phase.Ended? && !phase.Dead?
  }

  predicate HasLock(phase: Phase) {
    phase.Holding? || phase.Writing?
  }

  /** What a task does with a reply: data is verified, and an error is retried up to the limit. */
  function OnReply(hash: Hasher, request: Request, attempts: nat, reply: Option<Bytes>): Phase {
    match reply
    case Some(data) => if hash(data) == request.chunkHash then Verified(data) else Failing
    case None => if attempts + 1 >= request.maxRetry then Failing else Requesting(attempts + 1)
  }

  /** `requests` counts the requests sent so far. */
  datatype Task = Task(entry: nat, index: nat, request: Request, phase: Phase, requests: nat)

  /** An open output file: one cursor shared by all tasks, behind one lock. */
  datatype Handle = Handle(cursor: nat, owner: Option<nat>)

  /** The main thread. A round's tasks are those numbered from `first` on; `base` is the set of indices
      the round started with; `won` counts joined tasks that succeeded. */
  datatype Main =
    | Opening
    | Checking
    | Snapshotting
    | Spawning(first: nat, base: set<nat>, todo: set<nat>)
    | Joining(first: nat, base: set<nat>, next: nat, won: nat)
    | Finished(ok: bool)
    | Crashed

  /** `handles` lists the opened entries, so the current one is the last. `incomplete` counts the entries
      that failed, `rounds` the completed rounds of the current entry and `barren` those without a success. */
  datatype State = State(
    main: Main,
    incomplete: nat,
    rounds: nat,
    barren: nat,
    outstanding: map<string, set<nat>>,
    files: map<string, Bytes>,
    handles: seq<Handle>,
    tasks: seq<Task>,
    blocklist: set<string>)

  datatype Event =
    | Open
    | OpenFails
    | Check
    | Snapshot
    | Spawn(index: nat, endpoint: IndexerEndpoint)
    | NoEndpoint
    | SpawnsDone
    | Join
    | EndRound
    | Finish
    | Reply(t: nat, reply: Option<Bytes>)
    | Die(t: nat)
    | Acquire(t: nat)
    | Seek(t: nat, success: bool)
    | Write(t: nat, count: nat)
    | WriteFails(t: nat)
    | Release(t: nat)
    | Remove(t: nat)
    | Block(t: nat)

  function Name(c: Config, k: nat): string
    requires k < |c.entries|
  {
    c.entries[k].metaInfo.name
  }

  function HashOf(c: Config, k: nat): string
    requires k < |c.entries|
  {
    c.entries[k].metaInfo.hash
  }

  function Remaining(outstanding: map<string, set<nat>>, hash: string): set<nat> {
    if hash in outstanding then outstanding[hash] else {}
  }

  predicate Active(main: Main) {
    main.Checking? || main.Snapshotting? || main.Spawning? || main.Joining?
  }

  predicate MainEvent(e: Event) {
    !e.Reply? && !e.Die? && !e.Acquire? && !e.Seek? && !e.Write? && !e.WriteFails? && !e.Release? && !e.Remove?
    && !e.Block?
  }

  // ----- steps of the main thread -----

  predicate MainEnabled(c: Config, s: State, e: Event)
    requires MainEvent(e)
  {
    && |s.handles| <= |c.entries|
    && (Active(s.main) ==> |s.handles| > 0)
    && match e
       case Open => s.main.Opening? && |s.handles| < |c.entries|
       case OpenFails => s.main.Opening? && |s.handles| < |c.entries|
       case Finish => s.main.Opening? && |s.handles| == |c.entries|
       case Check => s.main.Checking?
       case Snapshot => s.main.Snapshotting?
       case Spawn(i, endpoint) => s.main.Spawning? && i in s.main.todo && endpoint in c.endpoints
       case NoEndpoint => s.main.Spawning? && s.main.todo != {} && c.endpoints == []
       case SpawnsDone => s.main.Spawning? && s.main.todo == {}
       case Join => s.main.Joining? && s.main.next < |s.tasks| && !Live(s.tasks[s.main.next].phase)
       case EndRound => s.main.Joining? && s.main.next == |s.tasks|
  }

  function ApplyMain(c: Config, s: State, e: Event): State
    requires MainEvent(e) && MainEnabled(c, s, e)
  {
    match e
    case Open =>
      s.(main := Checking, rounds := 0, barren := 0,
         files := s.files[Name(c, |s.handles|) := []],
         handles := s.handles + [Handle(0, None)])
    case OpenFails => s.(main := Crashed)
    case Finish => s.(main := Finished(s.incomplete == 0))
    case Check =>
      if Remaining(s.outstanding, HashOf(c, |s.handles| - 1)) == {} then s.(main := Opening)
      else s.(main := Snapshotting)
    case Snapshot =>
      var base := Remaining(s.outstanding, HashOf(c, |s.handles| - 1));
      s.(main := Spawning(|s.tasks|, base, base))
    case Spawn(i, endpoint) =>
      (match DownloadRangeRequest(c, c.entries[|s.handles| - 1], i, endpoint)
       case Ok(request) =>
         s.(main := s.main.(todo := s.main.todo - {i}),
            tasks := s.tasks + [Task(|s.handles| - 1, i, request, Requesting(0), 0)])
       case _ => s.(main := Crashed))
    case NoEndpoint => s.(main := Opening, incomplete := s.incomplete + 1)
    case SpawnsDone => s.(main := Joining(s.main.first, s.main.base, s.main.first, 0))
    case Join =>
      (match s.tasks[s.main.next].phase
       case Ended(ok) => s.(main := s.main.(next := s.main.next + 1, won := s.main.won + if ok then 1 else 0))
       case _ => s.(main := Opening, incomplete := s.incomplete + 1))
    case EndRound =>
      s.(main := Checking, rounds := s.rounds + 1, barren := s.barren + if s.main.won == 0 then 1 else 0)
  }

  // ----- steps of a task -----

  predicate TaskEnabled(c: Config, s: State, e: Event)
    requires !MainEvent(e)
  {
    && e.t < |s.tasks|
    && s.tasks[e.t].entry < |s.handles| <= |c.entries|
    && Name(c, s.tasks[e.t].entry) in s.files
    && var phase := s.tasks[e.t].phase;
       match e
       case Reply(t, reply) => phase.Requesting?
       case Die(t) => phase.Requesting?
       case Acquire(t) => phase.Verified? && s.handles[s.tasks[t].entry].owner.None?
       case Seek(t, success) => phase.Holding?
       case Write(t, count) => phase.Writing? && 1 <= count && phase.done + count <= |phase.data|
       case WriteFails(t) => phase.Writing? && phase.done < |phase.data|
       case Release(t) => phase.Writing? && phase.done == |phase.data|
       case Remove(t) => phase.Stored?
       case Block(t) => phase.Failing?
  }

  /** The phase the task moves to. */
  function NextPhase(c: Config, s: State, e: Event): Phase
    requires !MainEvent(e) && TaskEnabled(c, s, e)
  {
    var task := s.tasks[e.t];
    match e
    case Reply(t, reply) => OnReply(c.hash, task.request, task.phase.attempts, reply)
    case Die(t) => Dead
    case Acquire(t) => Holding(task.phase.data)
    case Seek(t, success) => if success then Writing(task.phase.data, 0) else Failing
    case Write(t, count) => Writing(task.phase.data, task.phase.done + count)
    case WriteFails(t) => Failing
    case Release(t) => Stored
    case Remove(t) => Ended(true)
    case Block(t) => Ended(false)
  }

  function NextHandle(c: Config, s: State, e: Event): Handle
    requires !MainEvent(e) && TaskEnabled(c, s, e)
  {
    var task := s.tasks[e.t];
    var handle := s.handles[task.entry];
    match e
    case Acquire(t) => handle.(owner := Some(t))
    case Seek(t, success) =>
      if success then handle.(cursor := task.request.start) else handle.(owner := None)
    case Write(t, count) => handle.(cursor := handle.cursor + count)
    case WriteFails(t) => handle.(owner := None)
    case Release(t) => handle.(owner := None)
    case _ => handle
  }

  /** The contents of the task's file after the step. */
  function NextFile(c: Config, s: State, e: Event): Bytes
    requires !MainEvent(e) && TaskEnabled(c, s, e)
  {
    var task := s.tasks[e.t];
    var contents := s.files[Name(c, task.entry)];
    match e
    case Write(t, count) =>
      WriteAt(contents, s.handles[task.entry].cursor, task.phase.data[task.phase.done..task.phase.done + count])
    case _ => contents
  }

  function ApplyTask(c: Config, s: State, e: Event): State
    requires !MainEvent(e) && TaskEnabled(c, s, e)
  {
    var task := s.tasks[e.t];
    var hash := HashOf(c, task.entry);
    s.(tasks := s.tasks[e.t := task.(phase := NextPhase(c, s, e),
                                     requests := task.requests + if e.Reply? then 1 else 0)],
       handles := s.handles[task.entry := NextHandle(c, s, e)],
       files := s.files[Name(c, task.entry) := NextFile(c, s, e)],
       outstanding := if e.Remove? then s.outstanding[hash := Remaining(s.outstanding, hash) - {task.index}]
                      else s.outstanding,
       blocklist := if e.Block? then s.blocklist + {BlockedUrl(task.request.queryEndpoint)} else s.blocklist)
  }

  // ----- runs -----

  predicate Enabled(c: Config, s: State, e: Event) {
    if MainEvent(e) then MainEnabled(c, s, e) else TaskEnabled(c, s, e)
  }

  function Apply(c: Config, s: State, e: Event): State
    requires Enabled(c, s, e)
  {
    if MainEvent(e) then ApplyMain(c, s, e) else ApplyTask(c, s, e)
  }

  /** The state after the events, if each of them is enabled in turn. */
  function Exec(c: Config, s: State, es: seq<Event>): Option<State>
    decreases es
  {
    if es == [] then Some(s)
    else if Enabled(c, s, es[0]) then Exec(c, Apply(c, s, es[0]), es[1..])
    else None
  }

  lemma {:induction false} ExecAppend(c: Config, s: State, es: seq<Event>, fs: seq<Event>)
    requires Exec(c, s, es).Some?
    ensures Exec(c, s, es + fs) == Exec(c, Exec(c, s, es).value, fs)
    decreases es
  {
    if es == [] {
      assert es + fs == fs;
    } else {
      assert (es + fs)[1..] == es[1..] + fs;
      ExecAppend(c, Apply(c, s, es[0]), es[1..], fs);
    }
  }

  lemma ExecStep(c: Config, s0: State, es: seq<Event>, s: State, e: Event)
    requires Exec(c, s0, es) == Some(s) && Enabled(c, s, e)
    ensures Exec(c, s0, es + [e]) == Some(Apply(c, s, e))
  {
    ExecAppend(c, s0, es, [e]);
    assert Exec(c, Apply(c, s, e), []) == Some(Apply(c, s, e));
  }

  /** The state after a schedule: events that are not possible when their turn comes are passed over. */
  function Run(c: Config, s: State, es: seq<Event>): State
    decreases es
  {
    if es == [] then s
    else if Enabled(c, s, es[0]) then Run(c, Apply(c, s, es[0]), es[1..])
    else Run(c, s, es[1..])
  }

  lemma {:induction false} RunAppend(c: Config, s: State, es: seq<Event>, e: Event)
    ensures var r := Run(c, s, es);
            Run(c, s, es + [e]) == if Enabled(c, r, e) then Apply(c, r, e) else r
    decreases es
  {
    if es == [] {
      assert es + [e] == [e] && [e][1..] == [];
    } else {
      assert (es + [e])[1..] == es[1..] + [e];
      RunAppend(c, if Enabled(c, s, es[0]) then Apply(c, s, es[0]) else s, es[1..], e);
    }
  }

  /** A schedule whose every step is possible is run to its end. */
  lemma {:induction false} RunIsExec(c: Config, s: State, es: seq<Event>)
    requires Exec(c, s, es).Some?
    ensures Exec(c, s, es) == Some(Run(c, s, es))
    decreases es
  {
    if es != [] {
      RunIsExec(c, Apply(c, s, es[0]), es[1..]);
    }
  }

  /** The steps that a schedule takes. */
  lemma {:induction false} RunTaken(c: Config, s: State, es: seq<Event>) returns (taken: seq<Event>)
    ensures Exec(c, s, taken) == Some(Run(c, s, es))
    ensures forall e :: e in taken ==> e in es
    decreases es
  {
    if es == [] {
      taken := [];
    } else if Enabled(c, s, es[0]) {
      var rest := RunTaken(c, Apply(c, s, es[0]), es[1..]);
      taken := [es[0]] + rest;
    } else {
      taken := RunTaken(c, s, es[1..]);
    }
  }

  // ----- start -----

  function Below(n: nat): (r: set<nat>)
    ensures forall i: nat :: i in r <==> i < n
    ensures |r| == n
  {
    if n == 0 then {} else Below(n - 1) + {n - 1}
  }

  /** The indices the downloader asks for. */
  function IndexSet(cf: ChunkFile): (r: set<nat>)
    requires cf.chunkSize > 0
    ensures forall i: nat :: i in r <==> i <= LastIndex(cf)
    ensures |r| == LastIndex(cf) + 1
  {
    Below(LastIndex(cf) + 1)
  }

  /** Every target has all its indices outstanding, nothing is open and nothing runs. The output
      directory may already hold files. */
  ghost predicate Init(c: Config, s: State) {
    && s.main == Opening && s.incomplete == 0 && s.rounds == 0 && s.barren == 0
    && s.handles == [] && s.tasks == []
    && forall k :: 0 <= k < |c.entries| ==>
         && c.entries[k].chunkFile.chunkSize > 0
         && HashOf(c, k) in s.outstanding
         && s.outstanding[HashOf(c, k)] == IndexSet(c.entries[k].chunkFile)
  }

  /** The manifest's entries are records of files that were read in the given parts, however the reads
      cut them; and records are fetched by hash, so entries with one hash have one record. */
  ghost predicate GoodConfig(c: Config, parts: seq<seq<Bytes>>) {
    && |parts| == |c.entries|
    && (forall k :: 0 <= k < |c.entries| ==>
          && Recorded(c.hash, c.entries[k].chunkFile, parts[k])
          && PartsCollisionFree(c.hash, parts[k]))
    && (forall j, k :: 0 <= j < |c.entries| && 0 <= k < |c.entries| && HashOf(c, j) == HashOf(c, k)
          ==> c.entries[j].chunkFile == c.entries[k].chunkFile)
  }
}
