/**
 The downloader object. Its fields are the shared state; its step methods are the atomic actions of the
 main thread and of the tasks, and `DownloadSubfile` is driven by a schedule that picks among them.
 */
module Downloader {
  import opened Basics
  import opened ChunkFiles
  import opened Finder
  import opened OutputFile
  import opened Protocol
  import opened ProtocolInvariant
  import opened ProtocolResults
  import opened ProtocolSuccess
  import opened Urls

  type Targets = map<string, set<nat>>

  function WithTarget(targets: Targets, entry: ChunkFileMeta): Targets
    requires entry.chunkFile.chunkSize > 0
  {
    targets[entry.metaInfo.hash := Remaining(targets, entry.metaInfo.hash) + IndexSet(entry.chunkFile)]
  }

  /** The outstanding sets after all indices of the entries have been inserted. */
  function WithTargets(targets: Targets, entries: seq<ChunkFileMeta>): Targets
    requires forall k :: 0 <= k < |entries| ==> entries[k].chunkFile.chunkSize > 0
  {
    if entries == [] then targets
    else WithTarget(WithTargets(targets, entries[..|entries| - 1]), entries[|entries| - 1])
  }

  lemma NextTarget(targets: Targets, entries: seq<ChunkFileMeta>, k: nat)
    requires k < |entries| && forall j :: 0 <= j <= k ==> entries[j].chunkFile.chunkSize > 0
    ensures WithTargets(targets, entries[..k + 1]) == WithTarget(WithTargets(targets, entries[..k]), entries[k])
  {
    var front := entries[..k + 1];
    assert front[..|front| - 1] == entries[..k] && front[|front| - 1] == entries[k];
  }

  predicate LoopsFit(entries: seq<ChunkFileMeta>) {
    forall k :: 0 <= k < |entries| ==> IndexLoopFits(entries[k].chunkFile)
  }

  lemma LoopsFitNext(entries: seq<ChunkFileMeta>, k: nat)
    requires k < |entries| && LoopsFit(entries[..k])
    ensures LoopsFit(entries[..k + 1]) <==> IndexLoopFits(entries[k].chunkFile)
    ensures !LoopsFit(entries[..k + 1]) ==> !LoopsFit(entries)
    ensures forall j :: 0 <= j < k ==> entries[j].chunkFile.chunkSize > 0
  {
    forall j | 0 <= j < k
      ensures IndexLoopFits(entries[j].chunkFile)
    {
      assert entries[..k][j] == entries[j];
    }
    if LoopsFit(entries[..k + 1]) {
      assert entries[..k + 1][k] == entries[k];
    }
  }

  /** Where records are fetched by hash, every entry's set is exactly its own indices. */
  lemma {:induction false} TargetsAreIndexSets(entries: seq<ChunkFileMeta>, k: nat)
    requires forall j :: 0 <= j < |entries| ==> entries[j].chunkFile.chunkSize > 0
    requires SameHashSameRecord(entries) && k < |entries|
    ensures var targets := WithTargets(map[], entries);
            && entries[k].metaInfo.hash in targets
            && targets[entries[k].metaInfo.hash] == IndexSet(entries[k].chunkFile)
  {
    var front, last := entries[..|entries| - 1], entries[|entries| - 1];
    if j :| 0 <= j < |entries| - 1 && entries[j].metaInfo.hash == entries[k].metaInfo.hash {
      TargetsAreIndexSets(front, j);
    } else {
      NoTarget(map[], front, last.metaInfo.hash);
    }
  }

  /** The entry has the hash, and i is an index of its loop. */
  predicate HasIndex(entry: ChunkFileMeta, hash: string, i: nat)
    requires entry.chunkFile.chunkSize > 0
  {
    entry.metaInfo.hash == hash && i <= entry.chunkFile.totalBytes / entry.chunkFile.chunkSize
  }

  lemma WithTargetIff(targets: Targets, entry: ChunkFileMeta, hash: string, i: nat)
    requires entry.chunkFile.chunkSize > 0
    ensures i in Remaining(WithTarget(targets, entry), hash) <==> i in Remaining(targets, hash) || HasIndex(entry, hash, i)
  {
  }

  /** Outstanding for a hash are the indices of all entries with it, beside those that were before. */
  lemma {:induction false} TargetsIff(targets: Targets, entries: seq<ChunkFileMeta>, hash: string, i: nat)
    requires forall j :: 0 <= j < |entries| ==> entries[j].chunkFile.chunkSize > 0
    ensures i in Remaining(WithTargets(targets, entries), hash) <==>
              i in Remaining(targets, hash) || SomeHasIndex(entries, hash, i)
  {
    if entries != [] {
      var front, last := entries[..|entries| - 1], entries[|entries| - 1];
      TargetsIff(targets, front, hash, i);
      assert entries == front + [last];
      NextTargetIff(targets, WithTargets(targets, front), WithTargets(targets, entries), front, last, hash, i);
    }
  }

  lemma NextTargetIff(targets: Targets, before: Targets, after: Targets, front: seq<ChunkFileMeta>, last: ChunkFileMeta,
                      hash: string, i: nat)
    requires last.chunkFile.chunkSize > 0 && forall j :: 0 <= j < |front| ==> front[j].chunkFile.chunkSize > 0
    requires after == WithTarget(before, last)
    requires i in Remaining(before, hash) <==> i in Remaining(targets, hash) || SomeHasIndex(front, hash, i)
    ensures i in Remaining(after, hash) <==> i in Remaining(targets, hash) || SomeHasIndex(front + [last], hash, i)
  {
    WithTargetIff(before, last, hash, i);
    SomeHasIndexPush(front, last, hash, i);
  }

  ghost predicate SomeHasIndex(entries: seq<ChunkFileMeta>, hash: string, i: nat)
    requires forall j :: 0 <= j < |entries| ==> entries[j].chunkFile.chunkSize > 0
  {
    exists k :: 0 <= k < |entries| && HasIndex(entries[k], hash, i)
  }

  lemma SomeHasIndexPush(front: seq<ChunkFileMeta>, last: ChunkFileMeta, hash: string, i: nat)
    requires last.chunkFile.chunkSize > 0 && forall j :: 0 <= j < |front| ==> front[j].chunkFile.chunkSize > 0
    ensures SomeHasIndex(front + [last], hash, i) <==> SomeHasIndex(front, hash, i) || HasIndex(last, hash, i)
  {
    var entries := front + [last];
    assert entries[|front|] == last;
    if k :| 0 <= k < |front| && HasIndex(front[k], hash, i) {
      assert entries[k] == front[k];
    }
  }

  lemma {:induction false} NoTarget(targets: Targets, entries: seq<ChunkFileMeta>, hash: string)
    requires forall j :: 0 <= j < |entries| ==> entries[j].chunkFile.chunkSize > 0 && entries[j].metaInfo.hash != hash
    ensures Remaining(WithTargets(targets, entries), hash) == Remaining(targets, hash)
  {
    if entries != [] {
      NoTarget(targets, entries[..|entries| - 1], hash);
    }
  }

  class SubfileDownloader {
    const subfile: Subfile
    const staticEndpoints: seq<string>
    const chunkMaxRetry: nat
    const hash: Hasher
    var indexerUrls: seq<IndexerEndpoint>
    var indexerBlocklist: set<string>
    var targetChunks: Targets
    var files: map<string, Bytes>
    var main: Main
    var incomplete: nat
    var rounds: nat
    var barren: nat
    var handles: seq<Handle>
    var tasks: seq<Task>

    function Settings(): (c: Config)
      reads this
      ensures c.subfileId == subfile.ipfsHash && c.entries == subfile.chunkFiles && c.endpoints == indexerUrls
      ensures c.maxRetry == chunkMaxRetry && c.hash == hash
    {
      Config(subfile.ipfsHash, subfile.chunkFiles, indexerUrls, chunkMaxRetry, hash)
    }

    function View(): (s: State)
      reads this
      ensures s.main == main && s.outstanding == targetChunks && s.files == files && s.blocklist == indexerBlocklist
    {
      State(main, incomplete, rounds, barren, targetChunks, files, handles, tasks, indexerBlocklist)
    }

    /** Nothing has been downloaded yet. */
    ghost predicate Idle()
      reads this
    {
      && main == Opening && incomplete == rounds == barren == 0
      && handles == [] && tasks == [] && targetChunks == map[]
    }

    constructor (subfile: Subfile, staticEndpoints: seq<string>, maxRetry: nat, hash: Hasher, outputDir: map<string, Bytes>)
      ensures Idle() && indexerUrls == [] && indexerBlocklist == {} && files == outputDir
      ensures this.subfile == subfile && this.staticEndpoints == staticEndpoints
      ensures chunkMaxRetry == maxRetry && this.hash == hash
    {
      this.subfile, this.staticEndpoints, this.chunkMaxRetry, this.hash := subfile, staticEndpoints, maxRetry, hash;
      indexerUrls, indexerBlocklist, targetChunks, files := [], {}, map[], outputDir;
      main, incomplete, rounds, barren, handles, tasks := Opening, 0, 0, 0, [], [];
    }

    /** Inserts the indices of every entry; panics when the bound of an index loop cannot be computed. */
    method TargetChunks() returns (r: Outcome<()>)
      modifies this`targetChunks
      ensures r.Ok? <==> LoopsFit(subfile.chunkFiles)
      ensures r.Ok? ==> targetChunks == WithTargets(old(targetChunks), subfile.chunkFiles)
      ensures r.Ok? || r.Panic?
    {
      var entries := subfile.chunkFiles;
      ghost var before := targetChunks;
      for k := 0 to |entries|
        invariant LoopsFit(entries[..k])
        invariant targetChunks == WithTargets(before, entries[..k])
      {
        var entry := entries[k];
        LoopsFitNext(entries, k);
        if !IndexLoopFits(entry.chunkFile) {
          return Panic;
        }
        NextTarget(before, entries, k);
        var chunksSet := InsertIndices(Remaining(targetChunks, entry.metaInfo.hash), entry.chunkFile);
        assert targetChunks[entry.metaInfo.hash := chunksSet] == WithTarget(targetChunks, entry);
        targetChunks := targetChunks[entry.metaInfo.hash := chunksSet];
      }
      assert entries[..|entries|] == entries;
      r := Ok(());
    }

    static method InsertIndices(before: set<nat>, cf: ChunkFile) returns (after: set<nat>)
      requires cf.chunkSize > 0
      ensures after == before + IndexSet(cf)
    {
      after := before;
      for i := 0 to LastIndex(cf) + 1
        invariant after == before + Below(i)
      {
        after := after + {i};
      }
    }

    /** Asks the endpoints that are not blocked; fails when none of them serves the subfile. With no endpoint
        to ask it waits for a stream that starts no request, and never returns: the result is None. */
    method AvailabilityCheck(net: Network) returns (r: Option<Outcome<()>>)
      modifies this`indexerUrls
      ensures r.None? <==> forall url :: url in staticEndpoints ==> url in indexerBlocklist
      ensures r.None? ==> indexerUrls == old(indexerUrls)
      ensures r.Some? ==> forall e :: e in indexerUrls <==>
                && e.url in staticEndpoints && e.url !in indexerBlocklist
                && e.url in net.operators && e.operator == net.operators[e.url]
                && e.url in net.status && subfile.ipfsHash in net.status[e.url]
      ensures r.Some? ==> r.value == if indexerUrls == [] then Err(DataUnavailable) else Ok(())
    {
      var endpoints: seq<string> := [];
      for i := 0 to |staticEndpoints|
        invariant forall url :: url in endpoints <==> url in staticEndpoints[..i] && url !in indexerBlocklist
      {
        if staticEndpoints[i] !in indexerBlocklist {
          endpoints := endpoints + [staticEndpoints[i]];
        }
      }
      assert staticEndpoints[..|staticEndpoints|] == staticEndpoints;
      if endpoints == [] {
        return None;
      }
      assert endpoints[0] in endpoints;
      indexerUrls := SubfileAvailabilities(net, subfile.ipfsHash, endpoints);
      if indexerUrls == [] {
        var discovered := FileDiscovery(net, subfile.ipfsHash, endpoints);
        return Some(Err(DataUnavailable));
      }
      r := Some(Ok(()));
    }

    /** A step of the main thread. */
    method StepMain(e: Event)
      requires MainEvent(e) && MainEnabled(Settings(), View(), e)
      modifies this
      ensures View() == ApplyMain(old(Settings()), old(View()), e) && indexerUrls == old(indexerUrls)
    {
      match e {
        case Open =>
          files := files[subfile.chunkFiles[|handles|].metaInfo.name := []];
          handles := handles + [Handle(0, None)];
          main, rounds, barren := Checking, 0, 0;
        case OpenFails =>
          main := Crashed;
        case Check =>
          var remaining := Remaining(targetChunks, subfile.chunkFiles[|handles| - 1].metaInfo.hash);
          main := if remaining == {} then Opening else Snapshotting;
        case Snapshot =>
          var remaining := Remaining(targetChunks, subfile.chunkFiles[|handles| - 1].metaInfo.hash);
          main := Spawning(|tasks|, remaining, remaining);
        case Spawn(i, endpoint) =>
          var request := DownloadRangeRequest(Settings(), subfile.chunkFiles[|handles| - 1], i, endpoint);
          if request.Ok? {
            tasks := tasks + [Task(|handles| - 1, i, request.value, Requesting(0), 0)];
            main := Spawning(main.first, main.base, main.todo - {i});
          } else {
            main := Crashed;
          }
        case NoEndpoint =>
          incomplete := incomplete + 1;
          main := Opening;
        case SpawnsDone =>
          main := Joining(main.first, main.base, main.first, 0);
        case Join =>
          var phase := tasks[main.next].phase;
          if phase.Ended? {
            main := Joining(main.first, main.base, main.next + 1, main.won + if phase.ok then 1 else 0);
          } else {
            incomplete := incomplete + 1;
            main := Opening;
          }
        case EndRound =>
          rounds := rounds + 1;
          if main.won == 0 {
            barren := barren + 1;
          }
          main := Checking;
        case Finish =>
          main := Finished(incomplete == 0);
      }
    }

    /** What a step of a task does to its phase, its file's handle and its file's contents. */
    method Act(e: Event) returns (phase: Phase, handle: Handle, contents: Bytes)
      requires !MainEvent(e) && TaskEnabled(Settings(), View(), e)
      ensures phase == NextPhase(Settings(), View(), e)
      ensures handle == NextHandle(Settings(), View(), e)
      ensures contents == NextFile(Settings(), View(), e)
    {
      var task := tasks[e.t];
      phase, handle := task.phase, handles[task.entry];
      assert Name(Settings(), task.entry) == subfile.chunkFiles[task.entry].metaInfo.name;
      contents := files[subfile.chunkFiles[task.entry].metaInfo.name];
      match e {
        case Reply(_, reply) => phase := OnReply(hash, task.request, phase.attempts, reply);
        case Die(_) => phase := Dead;
        case Acquire(t) => phase, handle := Holding(phase.data), Handle(handle.cursor, Some(t));
        case Seek(_, success) =>
          if success {
            phase, handle := Writing(phase.data, 0), Handle(task.request.start, handle.owner);
          } else {
            phase, handle := Failing, Handle(handle.cursor, None);
          }
        case Write(_, count) =>
          contents := WriteAt(contents, handle.cursor, phase.data[phase.done..phase.done + count]);
          phase, handle := Writing(phase.data, phase.done + count), Handle(handle.cursor + count, handle.owner);
        case WriteFails(_) => phase, handle := Failing, Handle(handle.cursor, None);
        case Release(_) => phase, handle := Stored, Handle(handle.cursor, None);
        case Remove(_) => phase := Ended(true);
        case Block(_) => phase := Ended(false);
      }
    }

    /** A step of one task, on the file, the outstanding sets and the blocklist it shares with the others. */
    method StepTask(e: Event)
      requires !MainEvent(e) && TaskEnabled(Settings(), View(), e)
      modifies this
      ensures View() == ApplyTask(old(Settings()), old(View()), e) && indexerUrls == old(indexerUrls)
    {
      var task := tasks[e.t];
      var info := subfile.chunkFiles[task.entry].metaInfo;
      var phase, handle, contents := Act(e);
      files := files[info.name := contents];
      handles := handles[task.entry := handle];
      tasks := tasks[e.t := Task(task.entry, task.index, task.request, phase, task.requests + if e.Reply? then 1 else 0)];
      if e.Remove? {
        targetChunks := targetChunks[info.hash := Remaining(targetChunks, info.hash) - {task.index}];
      }
      if e.Block? {
        indexerBlocklist := indexerBlocklist + {BlockedUrl(task.request.queryEndpoint)};
      }
    }

    /** Takes the scheduled steps that are possible when their turn comes. */
    method Drive(schedule: seq<Event>)
      modifies this
      ensures indexerUrls == old(indexerUrls)
      ensures View() == Run(old(Settings()), old(View()), schedule)
    {
      ghost var c, start := Settings(), View();
      for i := 0 to |schedule|
        invariant indexerUrls == old(indexerUrls)
        invariant View() == Run(c, start, schedule[..i])
      {
        RunAppend(c, start, schedule[..i], schedule[i]);
        assert schedule[..i + 1] == schedule[..i] + [schedule[i]];
        if MainEvent(schedule[i]) {
          if MainEnabled(Settings(), View(), schedule[i]) {
            StepMain(schedule[i]);
          }
        } else if TaskEnabled(Settings(), View(), schedule[i]) {
          StepTask(schedule[i]);
        }
      }
      assert schedule[..|schedule|] == schedule;
    }

    /** Downloads the subfile under a schedule: targets every index, finds the endpoints that serve the
        subfile, and takes the scheduled steps. Without an endpoint to ask it never returns, and it has not
        returned when the schedule ends before the main thread does: the result is None. On success every
        file holds what the manifest says a download leaves, which is the published content if the manifest
        is sound. An error means that there was no endpoint or that a task panicked, and a panic that a file
        did not open or that some index has no range or no hash. */
    method DownloadSubfile(net: Network, schedule: seq<Event>) returns (r: Option<Outcome<()>>)
      requires Idle()
      modifies this
      ensures Tells(r, Settings(), View(), schedule)
      ensures !LoopsFit(subfile.chunkFiles) ==> r == Some(Panic)
      ensures LoopsFit(subfile.chunkFiles) && (forall url :: url in staticEndpoints ==> url in old(indexerBlocklist)) ==>
                r == None
      ensures LoopsFit(subfile.chunkFiles) && (exists url :: url in staticEndpoints && url !in old(indexerBlocklist)) ==>
                && (forall e :: e in indexerUrls <==>
                      && e.url in staticEndpoints && e.url !in old(indexerBlocklist)
                      && e.url in net.operators && e.operator == net.operators[e.url]
                      && e.url in net.status && subfile.ipfsHash in net.status[e.url])
                && View() == Run(Settings(), Targeted(Settings(), old(View())), schedule)
                && (r == Some(Ok(())) <==> main == Finished(true))
                && (r == Some(Err(DataUnavailable)) <==> main == Finished(false))
                && (r == Some(Panic) <==> main == Crashed)
      ensures LoopsFit(subfile.chunkFiles) && (exists url :: url in staticEndpoints && url !in old(indexerBlocklist)) ==>
                var end := Exec(Settings(), Targeted(Settings(), old(View())), schedule);
                end.Some? ==> View() == end.value && (end.value.main == Finished(true) ==> r == Some(Ok(())))
    {
      var targeted := TargetChunks();
      if !targeted.Ok? {
        LoopMisfit(Settings());
        return Some(Panic);
      }
      var available := AvailabilityCheck(net);
      if available.None? {
        return None;
      }
      assert View() == Targeted(Settings(), old(View()));
      ghost var start := View();
      r := Rounds(schedule);
      if Exec(Settings(), start, schedule).Some? {
        RunIsExec(Settings(), start, schedule);
      }
    }

    /** The download once its indices are targeted and its endpoints known. */
    method Rounds(schedule: seq<Event>) returns (r: Option<Outcome<()>>)
      requires Starts(Settings(), View())
      modifies this
      ensures indexerUrls == old(indexerUrls) && Tells(r, Settings(), View(), schedule)
      ensures View() == Run(old(Settings()), old(View()), schedule)
      ensures r == Some(Ok(())) <==> main == Finished(true)
      ensures r == Some(Err(DataUnavailable)) <==> main == Finished(false)
      ensures r == Some(Panic) <==> main == Crashed
    {
      ghost var c, start := Settings(), View();
      Drive(schedule);
      ghost var taken := RunTaken(c, start, schedule);
      r := Result(schedule, start, taken);
    }

    /** What the main thread returns. */
    method Result(schedule: seq<Event>, ghost start: State, ghost taken: seq<Event>) returns (r: Option<Outcome<()>>)
      requires Starts(Settings(), start) && Exec(Settings(), start, taken) == Some(View())
      requires forall e :: e in taken ==> e in schedule
      ensures Tells(r, Settings(), View(), schedule)
      ensures r == Some(Ok(())) <==> main == Finished(true)
      ensures r == Some(Err(DataUnavailable)) <==> main == Finished(false)
      ensures r == Some(Panic) <==> main == Crashed
    {
      if main == Finished(true) {
        FinishedLeft(Settings(), start, taken, View());
        r := Some(Ok(()));
      } else if main.Finished? {
        FailureCause(Settings(), start, taken, View());
        FinishedIncomplete(Settings(), start, taken, View());
        r := Some(Err(DataUnavailable));
      } else if main.Crashed? {
        if OpenFails !in taken {
          CrashedNotAskable(Settings(), start, taken, View());
        }
        r := Some(Panic);
      } else {
        r := None;
      }
    }
  }

  /** What the result of a download says of the state it ends in. */
  ghost predicate Tells(r: Option<Outcome<()>>, c: Config, s: State, schedule: seq<Event>) {
    match r
    case None => !s.main.Finished? && !s.main.Crashed?
    case Some(Ok(_)) => LeftAsPublished(c, s.files)
    case Some(Err(e)) => e == DataUnavailable && s.incomplete > 0 && (c.endpoints == [] || SomeDied(s))
    case Some(Panic) => OpenFails in schedule || forall parts :: GoodConfig(c, parts) ==> !AllAskable(c)
  }

  /** Where an index loop's bound cannot be computed, not every index can be asked for. */
  lemma LoopMisfit(c: Config)
    requires !LoopsFit(c.entries)
    ensures !AllAskable(c)
  {
    var k :| 0 <= k < |c.entries| && !IndexLoopFits(c.entries[k].chunkFile);
    if Askable(Cf(c, k)) {
      AskableLoopFits(Cf(c, k));
    }
  }

  lemma CrashedUnaskable(c: Config, parts: seq<seq<Bytes>>, start: State, es: seq<Event>, s: State)
    requires GoodConfig(c, parts) && Exec(c, start, es) == Some(s) && s.main.Crashed? && OpenFails !in es
    requires Starts(c, start)
    ensures !AllAskable(c)
  {
    StartIsInit(c, parts, start);
    InitInv(c, parts, start);
    if AllAskable(c) {
      CrashCause(c, parts, start, es, s);
    }
  }

  /** The state with the indices of every entry outstanding. */
  ghost function Targeted(c: Config, s: State): State
    requires LoopsFit(c.entries)
  {
    s.(outstanding := WithTargets(s.outstanding, c.entries))
  }

  /** The state in which the rounds begin. */
  ghost predicate Starts(c: Config, s: State) {
    && s.main == Opening && s.incomplete == s.rounds == s.barren == 0 && s.handles == [] && s.tasks == []
    && (forall k :: 0 <= k < |c.entries| ==> c.entries[k].chunkFile.chunkSize > 0)
    && s.outstanding == WithTargets(map[], c.entries)
  }

  ghost predicate AsPublished(c: Config, parts: seq<seq<Bytes>>, files: map<string, Bytes>)
    requires GoodConfig(c, parts)
  {
    forall k :: 0 <= k < |c.entries| ==>
      && Name(c, k) in files && files[Name(c, k)] == Leaves(c, parts, k)
      && (ManifestSound(c, parts) ==> files[Name(c, k)] == Flatten(parts[k]))
  }

  lemma FinishedAsPublished(c: Config, parts: seq<seq<Bytes>>, start: State, es: seq<Event>, s: State)
    requires GoodConfig(c, parts) && Exec(c, start, es) == Some(s) && s.main == Finished(true)
    requires Starts(c, start)
    ensures AsPublished(c, parts, s.files)
  {
    StartIsInit(c, parts, start);
    SuccessCorrectIff(c, parts, start, es, s);
    forall k | 0 <= k < |c.entries|
      ensures Name(c, k) in s.files && s.files[Name(c, k)] == Leaves(c, parts, k)
    {
      SuccessLeaves(c, parts, start, es, s, k);
    }
  }

  /** Whatever parts the manifest records, the files are what a download of them leaves. */
  ghost predicate LeftAsPublished(c: Config, files: map<string, Bytes>) {
    forall parts :: GoodConfig(c, parts) ==> AsPublished(c, parts, files)
  }

  lemma FinishedLeft(c: Config, start: State, es: seq<Event>, s: State)
    requires Exec(c, start, es) == Some(s) && s.main == Finished(true) && Starts(c, start)
    ensures LeftAsPublished(c, s.files)
  {
    forall parts | GoodConfig(c, parts)
      ensures AsPublished(c, parts, s.files)
    {
      FinishedAsPublished(c, parts, start, es, s);
    }
  }

  lemma CrashedNotAskable(c: Config, start: State, es: seq<Event>, s: State)
    requires Exec(c, start, es) == Some(s) && s.main.Crashed? && OpenFails !in es && Starts(c, start)
    ensures forall parts :: GoodConfig(c, parts) ==> !AllAskable(c)
  {
    forall parts | GoodConfig(c, parts)
      ensures !AllAskable(c)
    {
      CrashedUnaskable(c, parts, start, es, s);
    }
  }

  lemma StartIsInit(c: Config, parts: seq<seq<Bytes>>, s: State)
    requires GoodConfig(c, parts) && Starts(c, s)
    ensures Init(c, s)
  {
    forall k | 0 <= k < |c.entries|
      ensures HashOf(c, k) in s.outstanding && s.outstanding[HashOf(c, k)] == IndexSet(c.entries[k].chunkFile)
    {
      TargetsAreIndexSets(c.entries, k);
    }
  }
}
