/**
 What every step of the download keeps. The parts of the invariant are separate predicates, each
 with a lemma for the steps of the main thread and one for the steps of a task.
 */
module ProtocolInvariant {
  import opened Assembly
  import opened Basics
  import opened ChunkFiles
  import opened OutputFile
  import opened Protocol

  // ----- vocabulary -----

  function Cf(c: Config, k: nat): ChunkFile
    requires k < |c.entries|
  {
    c.entries[k].chunkFile
  }

  /** The parts that an entry's hashes are of, and what they make up when each is written where its index says. */
  datatype Source = Source(parts: seq<Bytes>, whole: Bytes)

  function SourceOf(c: Config, parts: seq<seq<Bytes>>, k: nat): Source
    requires k < |c.entries| == |parts| && Cf(c, k).chunkSize > 0
  {
    Source(parts[k], Whole(Cf(c, k), parts[k]))
  }

  /** f holds part i where its range starts. */
  predicate Placed(cf: ChunkFile, f: Bytes, p: Source, i: nat) {
    && Fetchable(cf, i) && i < |p.parts|
    && var (start, _) := ChunkRange(cf, i).value;
       Agrees(f, p.whole, start, start + |p.parts[i]|)
  }

  ghost predicate UniqueHash(c: Config, k: nat)
    requires k < |c.entries|
  {
    forall j :: 0 <= j < |c.entries| && j != k ==> HashOf(c, j) != HashOf(c, k)
  }

  /** No other entry shares the hash or the name of entry k. */
  ghost predicate Solo(c: Config, k: nat)
    requires k < |c.entries|
  {
    UniqueHash(c, k) && forall j :: 0 <= j < |c.entries| && j != k ==> Name(c, j) != Name(c, k)
  }

  ghost predicate FirstOfHash(c: Config, k: nat)
    requires k < |c.entries|
  {
    forall j :: 0 <= j < k ==> HashOf(c, j) != HashOf(c, k)
  }

  /** No entry opened after k has k's name. */
  ghost predicate LatestOfName(c: Config, k: nat, count: nat)
    requires k < |c.entries| && count <= |c.entries|
  {
    forall j :: k < j < count ==> Name(c, j) != Name(c, k)
  }

  /** Only tasks of entry k can change k's outstanding set while k is the current entry. */
  ghost predicate Exclusive(c: Config, s: State, k: nat)
    requires k < |c.entries|
  {
    s.incomplete == 0 || UniqueHash(c, k)
  }

  /** The entries whose output file is accounted for, part by part. */
  ghost predicate Tracked(c: Config, s: State, k: nat)
    requires |s.handles| <= |c.entries|
  {
    && k < |s.handles|
    && (Solo(c, k) || (s.incomplete == 0 && FirstOfHash(c, k) && LatestOfName(c, k, |s.handles|)))
  }

  predicate Won(task: Task) {
    task.phase == Ended(true)
  }

  /** The tasks numbered lo up to hi that succeeded. */
  function WinnerIds(tasks: seq<Task>, lo: nat, hi: nat): set<nat>
    requires hi <= |tasks|
  {
    set t: nat | lo <= t < hi && Won(tasks[t])
  }

  function WonIndices(tasks: seq<Task>, first: nat): set<nat> {
    set t: nat | first <= t < |tasks| && Won(tasks[t]) :: tasks[t].index
  }

  // ----- the parts of the invariant -----

  ghost predicate ShapeOk(c: Config, s: State) {
    && |s.handles| <= |c.entries|
    && (Active(s.main) ==> |s.handles| > 0)
    && (s.main.Finished? ==> |s.handles| == |c.entries| && (s.main.ok <==> s.incomplete == 0))
    && (forall k :: 0 <= k < |s.handles| ==> Name(c, k) in s.files)
    && (forall k :: 0 <= k < |c.entries| ==> Cf(c, k).chunkSize > 0 && HashOf(c, k) in s.outstanding)
  }

  predicate RequestOk(c: Config, s: State, task: Task)
    requires |s.handles| <= |c.entries|
  {
    && task.entry < |s.handles|
    && Cf(c, task.entry).chunkSize > 0 && task.index <= LastIndex(Cf(c, task.entry))
    && Fetchable(Cf(c, task.entry), task.index)
    && ChunkRange(Cf(c, task.entry), task.index).value == (task.request.start, task.request.end)
    && task.request.chunkHash == Cf(c, task.entry).chunkHashes[task.index]
    && task.request.fileHash == HashOf(c, task.entry)
    && task.request.maxRetry == c.maxRetry
    && if task.phase.Requesting?
       then task.requests == task.phase.attempts < Max(1, c.maxRetry)
       else task.requests <= Max(1, c.maxRetry)
  }

  /** Verified data is the published part, and the cursor of a file being written is the writer's own. */
  ghost predicate DataOk(c: Config, parts: seq<seq<Bytes>>, s: State, task: Task)
    requires task.entry < |s.handles| <= |c.entries| == |parts|
  {
    var phase, q := task.phase, parts[task.entry];
    && task.index < |q| && 0 < |q[task.index]| <= Cf(c, task.entry).chunkSize
    && (phase.Verified? || HasLock(phase) ==> phase.data == q[task.index])
    && (phase.Writing? ==> phase.done <= |phase.data|
                           && s.handles[task.entry].cursor == task.request.start + phase.done)
  }

  ghost predicate TasksOk(c: Config, parts: seq<seq<Bytes>>, s: State)
    requires |s.handles| <= |c.entries| == |parts|
  {
    forall t :: 0 <= t < |s.tasks| ==> RequestOk(c, s, s.tasks[t]) && DataOk(c, parts, s, s.tasks[t])
  }

  /** A file's lock is held by the owner it names, and by nobody else. */
  ghost predicate LocksOk(c: Config, s: State) {
    && (forall t :: 0 <= t < |s.tasks| ==>
          && s.tasks[t].entry < |s.handles|
          && (HasLock(s.tasks[t].phase) <==> s.handles[s.tasks[t].entry].owner == Some(t)))
    && (forall k :: 0 <= k < |s.handles| && s.handles[k].owner.Some? ==>
          s.handles[k].owner.value < |s.tasks| && s.tasks[s.handles[k].owner.value].entry == k)
  }

  /** An index that is no longer outstanding was one that could be asked for. */
  ghost predicate FetchedOk(c: Config, s: State)
    requires ShapeOk(c, s)
  {
    forall k, i: nat :: 0 <= k < |c.entries| && i <= LastIndex(Cf(c, k)) && i !in s.outstanding[HashOf(c, k)]
      ==> Fetchable(Cf(c, k), i)
  }

  /** Outstanding sets hold only indices of the file, and all of them until an entry with the hash is opened. */
  ghost predicate TargetsOk(c: Config, s: State)
    requires ShapeOk(c, s)
  {
    forall k :: 0 <= k < |c.entries| ==>
      && s.outstanding[HashOf(c, k)] <= IndexSet(Cf(c, k))
      && (|s.handles| <= k && (forall j :: 0 <= j < |s.handles| ==> HashOf(c, j) != HashOf(c, k))
          ==> s.outstanding[HashOf(c, k)] == IndexSet(Cf(c, k)))
  }

  /** As long as no entry has failed, only the current entry has unfinished tasks, all earlier entries
      have nothing outstanding, and only the first entry of a hash has tasks at all. */
  ghost predicate CleanOk(c: Config, s: State)
    requires ShapeOk(c, s)
  {
    s.incomplete == 0 ==>
      && (forall t :: 0 <= t < |s.tasks| && Live(s.tasks[t].phase) ==>
            && (Active(s.main) || s.main.Crashed?) && s.tasks[t].entry == |s.handles| - 1 < |c.entries|
            && s.tasks[t].index in s.outstanding[HashOf(c, s.tasks[t].entry)])
      && (forall t, u :: 0 <= t < u < |s.tasks| && Live(s.tasks[t].phase) && Live(s.tasks[u].phase) ==>
            s.tasks[t].index != s.tasks[u].index)
      && (forall k :: 0 <= k < |s.handles| && (k < |s.handles| - 1 || s.main.Opening? || s.main.Finished?) ==>
            s.outstanding[HashOf(c, k)] == {})
      && (forall t :: 0 <= t < |s.tasks| ==> s.tasks[t].entry < |c.entries| && FirstOfHash(c, s.tasks[t].entry))
  }

  /** The tasks of a round belong to the entry k, and have one index each of those no longer to do. */
  ghost predicate RoundTasks(tasks: seq<Task>, k: int, first: nat, base: set<nat>, todo: set<nat>) {
    && first <= |tasks|
    && todo <= base
    && |tasks| - first + |todo| == |base|
    && (forall t :: first <= t < |tasks| ==> tasks[t].entry == k && tasks[t].index in base && tasks[t].index !in todo)
    && (forall t, u :: first <= t < u < |tasks| ==> tasks[t].index != tasks[u].index)
  }

  ghost predicate RoundTasksOk(c: Config, s: State, first: nat, base: set<nat>, todo: set<nat>)
    requires ShapeOk(c, s) && Active(s.main)
  {
    var k := |s.handles| - 1;
    && RoundTasks(s.tasks, k, first, base, todo)
    && base <= IndexSet(Cf(c, k))
    && (Exclusive(c, s, k) ==> s.outstanding[HashOf(c, k)] == base - WonIndices(s.tasks, first))
  }

  /** The current entry's unfinished tasks belong to the running round, which accounts for what is outstanding. */
  ghost predicate RoundOk(c: Config, s: State)
    requires ShapeOk(c, s)
  {
    var k := |s.handles| - 1;
    match s.main
    case Checking => forall t :: 0 <= t < |s.tasks| && Live(s.tasks[t].phase) ==> s.tasks[t].entry != k
    case Snapshotting => forall t :: 0 <= t < |s.tasks| && Live(s.tasks[t].phase) ==> s.tasks[t].entry != k
    case Spawning(first, base, todo) =>
      && RoundTasksOk(c, s, first, base, todo)
      && (forall t :: 0 <= t < first && t < |s.tasks| && Live(s.tasks[t].phase) ==> s.tasks[t].entry != k)
    case Joining(first, base, next, won) =>
      && RoundTasksOk(c, s, first, base, {})
      && first <= next <= |s.tasks|
      && won == |WinnerIds(s.tasks, first, next)|
      && (forall t :: 0 <= t < next && Live(s.tasks[t].phase) ==> s.tasks[t].entry != k)
    case _ => true
  }

  /** Every completed round that was not barren has made the outstanding set smaller. */
  ghost predicate CountOk(c: Config, s: State)
    requires ShapeOk(c, s)
  {
    && s.barren <= s.rounds
    && (Active(s.main) && Exclusive(c, s, |s.handles| - 1) ==>
          |Left(c, s)| + s.rounds <= |IndexSet(Cf(c, |s.handles| - 1))| + s.barren)
  }

  /** What the current entry had outstanding when its round began, or has now when no round runs. */
  ghost function Left(c: Config, s: State): set<nat>
    requires ShapeOk(c, s) && Active(s.main)
  {
    if s.main.Spawning? || s.main.Joining? then s.main.base else s.outstanding[HashOf(c, |s.handles| - 1)]
  }

  /** A tracked entry's file has nothing but bytes in place and zeros, and holds in place every part that is
      no longer outstanding, every stored part, and what has been written of a part being stored. */
  ghost predicate FileOk(c: Config, p: Source, s: State, k: nat)
    requires ShapeOk(c, s) && k < |s.handles|
  {
    var f := s.files[Name(c, k)];
    && PartOf(f, p.whole)
    && (forall i: nat :: i <= LastIndex(Cf(c, k)) && i !in s.outstanding[HashOf(c, k)] ==> Placed(Cf(c, k), f, p, i))
    && (forall t :: 0 <= t < |s.tasks| && s.tasks[t].entry == k ==>
          && (s.tasks[t].phase.Stored? ==> Placed(Cf(c, k), f, p, s.tasks[t].index))
          && (s.tasks[t].phase.Writing? && s.tasks[t].phase.done > 0 ==>
                Agrees(f, p.whole, s.tasks[t].request.start, s.tasks[t].request.start + s.tasks[t].phase.done)))
  }

  ghost predicate FilesOk(c: Config, parts: seq<seq<Bytes>>, s: State)
    requires ShapeOk(c, s) && |parts| == |c.entries|
  {
    forall k :: 0 <= k < |s.handles| && Tracked(c, s, k) ==> FileOk(c, SourceOf(c, parts, k), s, k)
  }

  /** As long as no entry has failed, a file whose hash an earlier entry has already used up stays empty. */
  ghost predicate EmptyOk(c: Config, s: State)
    requires ShapeOk(c, s)
  {
    s.incomplete == 0 ==>
      forall k :: 0 <= k < |s.handles| && !FirstOfHash(c, k) && LatestOfName(c, k, |s.handles|) ==>
        s.files[Name(c, k)] == []
  }

  ghost predicate Inv(c: Config, parts: seq<seq<Bytes>>, s: State) {
    && ShapeOk(c, s)
    && GoodConfig(c, parts)
    && TasksOk(c, parts, s)
    && LocksOk(c, s)
    && TargetsOk(c, s)
    && FetchedOk(c, s)
    && CleanOk(c, s)
    && RoundOk(c, s)
    && CountOk(c, s)
    && FilesOk(c, parts, s)
    && EmptyOk(c, s)
  }

  // ----- start -----

  lemma InitInv(c: Config, parts: seq<seq<Bytes>>, s: State)
    requires GoodConfig(c, parts) && Init(c, s)
    ensures Inv(c, parts, s)
  {
  }

  // ----- facts about requests -----

  /** A fetchable index has a part, and only that part has the expected hash. */
  lemma FetchablePart(c: Config, parts: seq<seq<Bytes>>, k: nat, i: nat)
    requires GoodConfig(c, parts) && k < |c.entries| && Fetchable(Cf(c, k), i)
    ensures i < |parts[k]| && 0 < |parts[k][i]| <= Cf(c, k).chunkSize
    ensures c.hash(parts[k][i]) == Cf(c, k).chunkHashes[i]
    ensures forall d: Bytes :: c.hash(d) == Cf(c, k).chunkHashes[i] ==> d == parts[k][i]
  {
    var q := parts[k];
    assert Recorded(c.hash, Cf(c, k), q) && PartsCollisionFree(c.hash, q);
  }

  /** The part of an index of the loop is in place in the whole. */
  lemma PartInWhole(c: Config, parts: seq<seq<Bytes>>, k: nat, i: nat)
    requires GoodConfig(c, parts) && k < |c.entries| && Cf(c, k).chunkSize > 0
    requires Fetchable(Cf(c, k), i) && i <= LastIndex(Cf(c, k))
    ensures i < |parts[k]|
    ensures var (start, _) := ChunkRange(Cf(c, k), i).value;
            var whole := SourceOf(c, parts, k).whole;
            start + |parts[k][i]| <= |whole| && whole[start..start + |parts[k][i]|] == parts[k][i]
  {
    var q, size := parts[k], Cf(c, k).chunkSize;
    assert Recorded(c.hash, Cf(c, k), q);
    AssembledPart(q, size, Min(LastIndex(Cf(c, k)) + 1, |q|), i, i * size);
  }

  /** A reply that passes the check is the part; anything else is a failure or a counted retry. */
  lemma ReplyOutcome(hash: Hasher, request: Request, attempts: nat, reply: Option<Bytes>, part: Bytes)
    requires forall d: Bytes :: hash(d) == request.chunkHash ==> d == part
    ensures var phase := OnReply(hash, request, attempts, reply);
            && (phase.Verified? ==> phase.data == part)
            && (phase.Verified? || phase.Failing? || phase == Requesting(attempts + 1))
            && (phase.Requesting? ==> attempts + 1 < request.maxRetry)
  {
  }

  // ----- steps of the main thread -----

  predicate ControlEvent(e: Event) {
    MainEvent(e) && !e.Open? && !e.Spawn?
  }

  lemma MainKeepsShape(c: Config, s: State, e: Event)
    requires ShapeOk(c, s) && MainEvent(e) && MainEnabled(c, s, e)
    ensures ShapeOk(c, ApplyMain(c, s, e))
  {
  }

  /** Two states that differ in the main thread only. */
  ghost predicate SameData(s: State, s': State) {
    && s'.tasks == s.tasks && s'.handles == s.handles && s'.outstanding == s.outstanding && s'.files == s.files
    && (s'.incomplete == 0 ==> s.incomplete == 0)
  }

  lemma SameDataKeepsTasks(c: Config, parts: seq<seq<Bytes>>, s: State, s': State)
    requires ShapeOk(c, s) && ShapeOk(c, s') && |parts| == |c.entries| && SameData(s, s')
    requires TasksOk(c, parts, s) && LocksOk(c, s) && TargetsOk(c, s)
    ensures TasksOk(c, parts, s') && LocksOk(c, s') && TargetsOk(c, s')
  {
    forall t | 0 <= t < |s'.tasks|
      ensures RequestOk(c, s', s'.tasks[t]) && DataOk(c, parts, s', s'.tasks[t])
    {
      assert RequestOk(c, s, s.tasks[t]) && DataOk(c, parts, s, s.tasks[t]);
    }
  }

  lemma SameDataKeepsFiles(c: Config, parts: seq<seq<Bytes>>, s: State, s': State)
    requires ShapeOk(c, s) && ShapeOk(c, s') && |parts| == |c.entries| && SameData(s, s')
    requires FilesOk(c, parts, s) && EmptyOk(c, s)
    ensures FilesOk(c, parts, s') && EmptyOk(c, s')
  {
    forall k | 0 <= k < |s'.handles| && Tracked(c, s', k)
      ensures FileOk(c, SourceOf(c, parts, k), s', k)
    {
      assert Tracked(c, s, k);
      assert FileOk(c, SourceOf(c, parts, k), s, k);
    }
  }

  lemma ControlKeepsClean(c: Config, s: State, e: Event)
    requires ShapeOk(c, s) && ControlEvent(e) && MainEnabled(c, s, e)
    requires CleanOk(c, s) && RoundOk(c, s)
    ensures ShapeOk(c, ApplyMain(c, s, e)) && CleanOk(c, ApplyMain(c, s, e))
  {
    MainKeepsShape(c, s, e);
    if e.Check? {
      CheckKeepsClean(c, s);
    } else if !e.NoEndpoint? && !e.Join? {
      assert ApplyMain(c, s, e).incomplete == s.incomplete;
    }
  }

  lemma CheckKeepsClean(c: Config, s: State)
    requires ShapeOk(c, s) && MainEnabled(c, s, Check) && CleanOk(c, s) && RoundOk(c, s)
    ensures ShapeOk(c, ApplyMain(c, s, Check)) && CleanOk(c, ApplyMain(c, s, Check))
  {
  }

  lemma SnapshotKeepsRound(c: Config, s: State)
    requires ShapeOk(c, s) && MainEnabled(c, s, Snapshot) && TargetsOk(c, s) && RoundOk(c, s)
    ensures ShapeOk(c, ApplyMain(c, s, Snapshot)) && RoundOk(c, ApplyMain(c, s, Snapshot))
  {
    var base := s.outstanding[HashOf(c, |s.handles| - 1)];
    assert base <= IndexSet(Cf(c, |s.handles| - 1));
    var s' := s.(main := Spawning(|s.tasks|, base, base));
    assert ApplyMain(c, s, Snapshot) == s';
    NewRound(c, s', base);
  }

  lemma NewRound(c: Config, s: State, base: set<nat>)
    requires ShapeOk(c, s) && s.main == Spawning(|s.tasks|, base, base)
    requires base <= IndexSet(Cf(c, |s.handles| - 1)) && base == s.outstanding[HashOf(c, |s.handles| - 1)]
    requires forall t :: 0 <= t < |s.tasks| && Live(s.tasks[t].phase) ==> s.tasks[t].entry != |s.handles| - 1
    ensures RoundOk(c, s)
  {
    assert WonIndices(s.tasks, |s.tasks|) == {};
    assert RoundTasks(s.tasks, |s.handles| - 1, |s.tasks|, base, base);
  }

  lemma SpawnsDoneKeepsRound(c: Config, s: State)
    requires ShapeOk(c, s) && MainEnabled(c, s, SpawnsDone) && RoundOk(c, s)
    ensures ShapeOk(c, ApplyMain(c, s, SpawnsDone)) && RoundOk(c, ApplyMain(c, s, SpawnsDone))
  {
    assert WinnerIds(s.tasks, s.main.first, s.main.first) == {};
  }

  lemma JoinKeepsRound(c: Config, s: State)
    requires ShapeOk(c, s) && MainEnabled(c, s, Join) && RoundOk(c, s)
    ensures ShapeOk(c, ApplyMain(c, s, Join)) && RoundOk(c, ApplyMain(c, s, Join))
  {
    var s' := ApplyMain(c, s, Join);
    if s.tasks[s.main.next].phase.Ended? {
      NextWinner(s.tasks, s.main.first, s.main.next);
      JoinAdvances(c, s, s');
    }
  }

  lemma JoinAdvances(c: Config, s: State, s': State)
    requires ShapeOk(c, s) && ShapeOk(c, s') && RoundOk(c, s) && s.main.Joining? && s.main.next < |s.tasks|
    requires s'.main.Joining? && s'.main.first == s.main.first && s'.main.base == s.main.base
    requires s'.main.next == s.main.next + 1 && !Live(s.tasks[s.main.next].phase)
    requires s'.main.won == |WinnerIds(s.tasks, s.main.first, s.main.next + 1)|
    requires s'.tasks == s.tasks && s'.handles == s.handles && s'.outstanding == s.outstanding
    requires s'.incomplete == s.incomplete
    ensures RoundOk(c, s')
  {
    assert RoundTasksOk(c, s, s.main.first, s.main.base, {});
  }

  lemma ControlKeepsRound(c: Config, s: State, e: Event)
    requires ShapeOk(c, s) && ControlEvent(e) && MainEnabled(c, s, e)
    requires TargetsOk(c, s) && RoundOk(c, s)
    ensures ShapeOk(c, ApplyMain(c, s, e)) && RoundOk(c, ApplyMain(c, s, e))
  {
    MainKeepsShape(c, s, e);
    if e.Snapshot? {
      SnapshotKeepsRound(c, s);
    } else if e.SpawnsDone? {
      SpawnsDoneKeepsRound(c, s);
    } else if e.Join? {
      JoinKeepsRound(c, s);
    } else if e.EndRound? || e.Check? {
      assert !ApplyMain(c, s, e).main.Joining? && !ApplyMain(c, s, e).main.Spawning?;
    }
  }

  lemma NextWinner(tasks: seq<Task>, first: nat, next: nat)
    requires first <= next < |tasks|
    ensures |WinnerIds(tasks, first, next + 1)| == |WinnerIds(tasks, first, next)| + if Won(tasks[next]) then 1 else 0
  {
    assert WinnerIds(tasks, first, next + 1)
        == WinnerIds(tasks, first, next) + if Won(tasks[next]) then {next} else {};
  }

  /** The indices won in a round are as many as the tasks that won them. */
  lemma {:induction false} WinnersCount(tasks: seq<Task>, first: nat, ids: set<nat>, indices: set<nat>)
    requires forall t :: t in ids ==> first <= t < |tasks|
    requires forall t, u :: first <= t < u < |tasks| ==> tasks[t].index != tasks[u].index
    requires forall i :: i in indices <==> exists t :: t in ids && tasks[t].index == i
    ensures |ids| == |indices|
  {
    if ids == {} {
      assert indices == {};
    } else {
      var t :| t in ids;
      var rest := indices - {tasks[t].index};
      forall i | i in rest
        ensures exists u :: u in ids - {t} && tasks[u].index == i
      {
        var u :| u in ids && tasks[u].index == i;
        assert u in ids - {t};
      }
      WinnersCount(tasks, first, ids - {t}, rest);
      assert tasks[t].index in indices;
    }
  }

  /** Each round makes the outstanding set smaller by exactly the number of its tasks that succeeded. */
  lemma RoundShrinks(c: Config, s: State)
    requires ShapeOk(c, s) && RoundOk(c, s)
    requires MainEnabled(c, s, EndRound) && Exclusive(c, s, |s.handles| - 1)
    ensures var left := s.outstanding[HashOf(c, |s.handles| - 1)];
            left <= s.main.base && |left| == |s.main.base| - s.main.won
  {
    var first, base := s.main.first, s.main.base;
    var ids, indices := WinnerIds(s.tasks, first, |s.tasks|), WonIndices(s.tasks, first);
    forall i
      ensures i in indices <==> exists t :: t in ids && s.tasks[t].index == i
    {
      if i in indices {
        var t :| first <= t < |s.tasks| && Won(s.tasks[t]) && s.tasks[t].index == i;
        assert t in ids;
      }
    }
    WinnersCount(s.tasks, first, ids, indices);
    assert indices <= base;
    assert |base - indices| == |base| - |indices|;
  }

  lemma EndRoundKeepsCount(c: Config, s: State)
    requires ShapeOk(c, s) && MainEnabled(c, s, EndRound) && RoundOk(c, s) && CountOk(c, s)
    ensures ShapeOk(c, ApplyMain(c, s, EndRound)) && CountOk(c, ApplyMain(c, s, EndRound))
  {
    if Exclusive(c, s, |s.handles| - 1) {
      RoundShrinks(c, s);
    }
  }

  lemma SnapshotKeepsCount(c: Config, s: State)
    requires ShapeOk(c, s) && MainEnabled(c, s, Snapshot) && CountOk(c, s)
    ensures ShapeOk(c, ApplyMain(c, s, Snapshot)) && CountOk(c, ApplyMain(c, s, Snapshot))
  {
  }

  lemma SameLeftKeepsCount(c: Config, s: State, s': State)
    requires ShapeOk(c, s) && ShapeOk(c, s') && SameData(s, s') && CountOk(c, s)
    requires s'.rounds == s.rounds && s'.barren == s.barren
    requires Active(s'.main) ==> Active(s.main) && s'.incomplete == s.incomplete && Left(c, s') == Left(c, s)
    ensures CountOk(c, s')
  {
  }

  lemma ControlKeepsCount(c: Config, s: State, e: Event)
    requires ShapeOk(c, s) && ControlEvent(e) && MainEnabled(c, s, e)
    requires RoundOk(c, s) && CountOk(c, s)
    ensures ShapeOk(c, ApplyMain(c, s, e)) && CountOk(c, ApplyMain(c, s, e))
  {
    MainKeepsShape(c, s, e);
    if e.EndRound? {
      EndRoundKeepsCount(c, s);
    } else if e.Snapshot? {
      SnapshotKeepsCount(c, s);
    } else {
      SameLeftKeepsCount(c, s, ApplyMain(c, s, e));
    }
  }

  // ----- opening a file -----

  lemma OpenKeepsTasks(c: Config, parts: seq<seq<Bytes>>, s: State)
    requires ShapeOk(c, s) && |parts| == |c.entries| && MainEnabled(c, s, Open)
    requires TasksOk(c, parts, s) && LocksOk(c, s) && TargetsOk(c, s)
    ensures ShapeOk(c, ApplyMain(c, s, Open))
    ensures var s' := ApplyMain(c, s, Open);
            TasksOk(c, parts, s') && LocksOk(c, s') && TargetsOk(c, s')
  {
    MainKeepsShape(c, s, Open);
    var s' := ApplyMain(c, s, Open);
    forall t | 0 <= t < |s'.tasks|
      ensures RequestOk(c, s', s'.tasks[t]) && DataOk(c, parts, s', s'.tasks[t])
    {
      assert RequestOk(c, s, s.tasks[t]) && DataOk(c, parts, s, s.tasks[t]);
    }
  }

  lemma OpenKeepsRound(c: Config, parts: seq<seq<Bytes>>, s: State)
    requires ShapeOk(c, s) && |parts| == |c.entries| && MainEnabled(c, s, Open)
    requires LocksOk(c, s) && TargetsOk(c, s) && CleanOk(c, s) && CountOk(c, s)
    ensures ShapeOk(c, ApplyMain(c, s, Open))
    ensures var s' := ApplyMain(c, s, Open);
            CleanOk(c, s') && RoundOk(c, s') && CountOk(c, s')
  {
    MainKeepsShape(c, s, Open);
    var k := |s.handles|;
    assert s.outstanding[HashOf(c, k)] <= IndexSet(Cf(c, k));
    SubsetCard(s.outstanding[HashOf(c, k)], IndexSet(Cf(c, k)));
  }

  lemma SubsetCard(a: set<nat>, b: set<nat>)
    requires a <= b
    ensures |a| <= |b|
  {
    assert b == a + (b - a);
  }

  lemma OpenKeepsFile(c: Config, p: Source, s: State, k: nat)
    requires ShapeOk(c, s) && MainEnabled(c, s, Open) && k < |s.handles|
    requires FileOk(c, p, s, k) && Name(c, |s.handles|) != Name(c, k)
    ensures ShapeOk(c, ApplyMain(c, s, Open)) && FileOk(c, p, ApplyMain(c, s, Open), k)
  {
    MainKeepsShape(c, s, Open);
  }

  lemma OpenedFileOk(c: Config, p: Source, s: State)
    requires ShapeOk(c, s) && MainEnabled(c, s, Open) && LocksOk(c, s) && TargetsOk(c, s)
    requires FirstOfHash(c, |s.handles|)
    ensures ShapeOk(c, ApplyMain(c, s, Open)) && FileOk(c, p, ApplyMain(c, s, Open), |s.handles|)
  {
    MainKeepsShape(c, s, Open);
    assert s.outstanding[HashOf(c, |s.handles|)] == IndexSet(Cf(c, |s.handles|));
  }

  lemma OpenTracks(c: Config, s: State, s': State, k: nat)
    requires k < |s.handles| < |c.entries| && |s'.handles| == |s.handles| + 1 && s'.incomplete == s.incomplete
    requires Tracked(c, s', k)
    ensures Tracked(c, s, k) && Name(c, |s.handles|) != Name(c, k)
  {
  }

  lemma OpenKeepsFiles(c: Config, parts: seq<seq<Bytes>>, s: State)
    requires ShapeOk(c, s) && |parts| == |c.entries| && MainEnabled(c, s, Open)
    requires LocksOk(c, s) && TargetsOk(c, s) && FilesOk(c, parts, s)
    ensures ShapeOk(c, ApplyMain(c, s, Open)) && FilesOk(c, parts, ApplyMain(c, s, Open))
  {
    MainKeepsShape(c, s, Open);
    var s' := ApplyMain(c, s, Open);
    forall k | 0 <= k < |s'.handles| && Tracked(c, s', k)
      ensures FileOk(c, SourceOf(c, parts, k), s', k)
    {
      if k < |s.handles| {
        OpenTracks(c, s, s', k);
        assert FileOk(c, SourceOf(c, parts, k), s, k);
      }
      OpenFileOk(c, SourceOf(c, parts, k), s, k);
    }
  }

  lemma OpenFileOk(c: Config, p: Source, s: State, k: nat)
    requires ShapeOk(c, s) && MainEnabled(c, s, Open) && LocksOk(c, s) && TargetsOk(c, s) && k <= |s.handles|
    requires k < |s.handles| ==> FileOk(c, p, s, k) && Name(c, |s.handles|) != Name(c, k)
    requires k == |s.handles| ==> FirstOfHash(c, k)
    ensures ShapeOk(c, ApplyMain(c, s, Open)) && FileOk(c, p, ApplyMain(c, s, Open), k)
  {
    if k < |s.handles| {
      OpenKeepsFile(c, p, s, k);
    } else {
      OpenedFileOk(c, p, s);
    }
  }

  lemma OpenKeepsEmpty(c: Config, s: State)
    requires ShapeOk(c, s) && MainEnabled(c, s, Open) && EmptyOk(c, s)
    ensures ShapeOk(c, ApplyMain(c, s, Open)) && EmptyOk(c, ApplyMain(c, s, Open))
  {
    MainKeepsShape(c, s, Open);
    var s' := ApplyMain(c, s, Open);
    forall k | 0 <= k < |s'.handles| && !FirstOfHash(c, k) && LatestOfName(c, k, |s'.handles|) && s'.incomplete == 0
      ensures s'.files[Name(c, k)] == []
    {
      if k < |s.handles| {
        assert Name(c, |s.handles|) != Name(c, k);
      }
    }
  }

  // ----- spawning a task -----

  ghost predicate Spawns(c: Config, s: State, e: Event) {
    && e.Spawn? && MainEnabled(c, s, e)
    && DownloadRangeRequest(c, c.entries[|s.handles| - 1], e.index, e.endpoint).Ok?
  }

  lemma SpawnedIndex(c: Config, s: State, e: Event)
    requires ShapeOk(c, s) && RoundOk(c, s) && e.Spawn? && MainEnabled(c, s, e)
    ensures e.index <= LastIndex(Cf(c, |s.handles| - 1))
  {
    assert e.index in s.main.base && s.main.base <= IndexSet(Cf(c, |s.handles| - 1));
  }

  lemma SpawnedTaskOk(c: Config, parts: seq<seq<Bytes>>, s: State, e: Event)
    requires ShapeOk(c, s) && GoodConfig(c, parts) && Spawns(c, s, e)
    requires e.index <= LastIndex(Cf(c, |s.handles| - 1))
    ensures ShapeOk(c, ApplyMain(c, s, e))
    ensures var s' := ApplyMain(c, s, e);
            RequestOk(c, s', s'.tasks[|s.tasks|]) && DataOk(c, parts, s', s'.tasks[|s.tasks|])
  {
    MainKeepsShape(c, s, e);
    FetchablePart(c, parts, |s.handles| - 1, e.index);
  }

  lemma SpawnKeepsTasks(c: Config, parts: seq<seq<Bytes>>, s: State, e: Event)
    requires ShapeOk(c, s) && GoodConfig(c, parts) && Spawns(c, s, e)
    requires TasksOk(c, parts, s) && e.index <= LastIndex(Cf(c, |s.handles| - 1))
    ensures ShapeOk(c, ApplyMain(c, s, e)) && TasksOk(c, parts, ApplyMain(c, s, e))
  {
    MainKeepsShape(c, s, e);
    var s' := ApplyMain(c, s, e);
    forall t | 0 <= t < |s'.tasks|
      ensures RequestOk(c, s', s'.tasks[t]) && DataOk(c, parts, s', s'.tasks[t])
    {
      if t < |s.tasks| {
        assert RequestOk(c, s, s.tasks[t]) && DataOk(c, parts, s, s.tasks[t]);
        SameHandlesKeepTask(c, parts, s, s', s.tasks[t]);
      } else {
        SpawnedTaskOk(c, parts, s, e);
      }
    }
  }

  lemma SameHandlesKeepTask(c: Config, parts: seq<seq<Bytes>>, s: State, s': State, task: Task)
    requires |s.handles| <= |c.entries| == |parts| && s'.handles == s.handles
    requires RequestOk(c, s, task) && DataOk(c, parts, s, task)
    ensures RequestOk(c, s', task) && DataOk(c, parts, s', task)
  {
  }

  lemma SpawnKeepsLocks(c: Config, s: State, e: Event)
    requires ShapeOk(c, s) && Spawns(c, s, e) && LocksOk(c, s)
    ensures LocksOk(c, ApplyMain(c, s, e))
  {
  }

  lemma SpawnKeepsClean(c: Config, s: State, e: Event)
    requires ShapeOk(c, s) && Spawns(c, s, e) && CleanOk(c, s) && RoundOk(c, s)
    ensures ShapeOk(c, ApplyMain(c, s, e)) && CleanOk(c, ApplyMain(c, s, e))
  {
    var k := |s.handles| - 1;
    if s.incomplete == 0 {
      assert e.index in s.outstanding[HashOf(c, k)];
      assert FirstOfHash(c, k);
    }
  }

  lemma SpawnKeepsRoundTasks(tasks: seq<Task>, k: int, first: nat, base: set<nat>, todo: set<nat>, task: Task)
    requires RoundTasks(tasks, k, first, base, todo)
    requires task.entry == k && task.index in todo && !Won(task)
    ensures RoundTasks(tasks + [task], k, first, base, todo - {task.index})
    ensures WonIndices(tasks + [task], first) == WonIndices(tasks, first)
  {
    var tasks' := tasks + [task];
    forall i | i in WonIndices(tasks, first)
      ensures i in WonIndices(tasks', first)
    {
      var u :| first <= u < |tasks| && Won(tasks[u]) && tasks[u].index == i;
      assert Won(tasks'[u]) && tasks'[u].index == i;
    }
  }

  lemma SpawnKeepsRound(c: Config, s: State, e: Event)
    requires ShapeOk(c, s) && Spawns(c, s, e) && RoundOk(c, s)
    ensures ShapeOk(c, ApplyMain(c, s, e)) && RoundOk(c, ApplyMain(c, s, e))
  {
    var s' := ApplyMain(c, s, e);
    SpawnKeepsRoundTasks(s.tasks, |s.handles| - 1, s.main.first, s.main.base, s.main.todo, s'.tasks[|s.tasks|]);
  }

  lemma SpawnKeepsTargets(c: Config, s: State, e: Event)
    requires ShapeOk(c, s) && Spawns(c, s, e) && TargetsOk(c, s) && EmptyOk(c, s)
    ensures ShapeOk(c, ApplyMain(c, s, e))
    ensures TargetsOk(c, ApplyMain(c, s, e)) && EmptyOk(c, ApplyMain(c, s, e))
  {
  }

  lemma SpawnKeepsCount(c: Config, s: State, e: Event)
    requires ShapeOk(c, s) && Spawns(c, s, e) && CountOk(c, s)
    ensures ShapeOk(c, ApplyMain(c, s, e)) && CountOk(c, ApplyMain(c, s, e))
  {
  }

  lemma SpawnKeepsFile(c: Config, p: Source, s: State, e: Event, k: nat)
    requires ShapeOk(c, s) && Spawns(c, s, e) && k < |s.handles| && FileOk(c, p, s, k)
    ensures ShapeOk(c, ApplyMain(c, s, e)) && FileOk(c, p, ApplyMain(c, s, e), k)
  {
  }

  lemma SpawnKeepsFiles(c: Config, parts: seq<seq<Bytes>>, s: State, e: Event)
    requires ShapeOk(c, s) && |parts| == |c.entries| && Spawns(c, s, e) && FilesOk(c, parts, s)
    ensures ShapeOk(c, ApplyMain(c, s, e)) && FilesOk(c, parts, ApplyMain(c, s, e))
  {
    MainKeepsShape(c, s, e);
    var s' := ApplyMain(c, s, e);
    forall k | 0 <= k < |s'.handles| && Tracked(c, s', k)
      ensures FileOk(c, SourceOf(c, parts, k), s', k)
    {
      assert Tracked(c, s, k) && FileOk(c, SourceOf(c, parts, k), s, k);
      SpawnKeepsFile(c, SourceOf(c, parts, k), s, e, k);
    }
  }

  /** A panic while building a request stops the main thread only. */
  lemma SpawnPanicKeepsInv(c: Config, parts: seq<seq<Bytes>>, s: State, e: Event)
    requires Inv(c, parts, s) && e.Spawn? && MainEnabled(c, s, e) && !Spawns(c, s, e)
    ensures Inv(c, parts, ApplyMain(c, s, e))
  {
    var s' := ApplyMain(c, s, e);
    MainKeepsShape(c, s, e);
    SameDataKeepsTasks(c, parts, s, s');
    SameDataKeepsFiles(c, parts, s, s');
    SpawnPanicKeepsRest(c, s, s');
  }

  lemma SpawnPanicKeepsRest(c: Config, s: State, s': State)
    requires ShapeOk(c, s) && ShapeOk(c, s') && CleanOk(c, s) && CountOk(c, s)
    requires Active(s.main) && s' == s.(main := Crashed)
    ensures CleanOk(c, s') && RoundOk(c, s') && CountOk(c, s')
  {
  }

  lemma MainKeepsFetched(c: Config, s: State, e: Event)
    requires ShapeOk(c, s) && MainEvent(e) && MainEnabled(c, s, e) && FetchedOk(c, s)
    ensures ShapeOk(c, ApplyMain(c, s, e)) && FetchedOk(c, ApplyMain(c, s, e))
  {
    MainKeepsShape(c, s, e);
    assert ApplyMain(c, s, e).outstanding == s.outstanding;
  }

  lemma MainKeepsInv(c: Config, parts: seq<seq<Bytes>>, s: State, e: Event)
    requires Inv(c, parts, s) && MainEvent(e) && MainEnabled(c, s, e)
    ensures Inv(c, parts, ApplyMain(c, s, e))
  {
    MainKeepsShape(c, s, e);
    MainKeepsFetched(c, s, e);
    if e.Open? {
      OpenKeepsTasks(c, parts, s);
      OpenKeepsRound(c, parts, s);
      OpenKeepsFiles(c, parts, s);
      OpenKeepsEmpty(c, s);
    } else if !e.Spawn? {
      ControlKeepsInv(c, parts, s, e);
    } else if Spawns(c, s, e) {
      SpawnKeepsInv(c, parts, s, e);
    } else {
      SpawnPanicKeepsInv(c, parts, s, e);
    }
  }

  lemma SpawnKeepsInv(c: Config, parts: seq<seq<Bytes>>, s: State, e: Event)
    requires Inv(c, parts, s) && Spawns(c, s, e)
    ensures Inv(c, parts, ApplyMain(c, s, e))
  {
    MainKeepsShape(c, s, e);
    MainKeepsFetched(c, s, e);
    SpawnedIndex(c, s, e);
    SpawnKeepsTasks(c, parts, s, e);
    SpawnKeepsLocks(c, s, e);
    SpawnKeepsClean(c, s, e);
    SpawnKeepsRound(c, s, e);
    SpawnKeepsTargets(c, s, e);
    SpawnKeepsCount(c, s, e);
    SpawnKeepsFiles(c, parts, s, e);
  }

  lemma ControlKeepsInv(c: Config, parts: seq<seq<Bytes>>, s: State, e: Event)
    requires Inv(c, parts, s) && ControlEvent(e) && MainEnabled(c, s, e)
    ensures Inv(c, parts, ApplyMain(c, s, e))
  {
    ControlKeepsData(c, s, e);
    var s' := ApplyMain(c, s, e);
    SameDataKeepsTasks(c, parts, s, s');
    SameDataKeepsFiles(c, parts, s, s');
    ControlKeepsRounds(c, s, e);
  }

  lemma ControlKeepsData(c: Config, s: State, e: Event)
    requires ShapeOk(c, s) && ControlEvent(e) && MainEnabled(c, s, e) && FetchedOk(c, s)
    ensures SameData(s, ApplyMain(c, s, e))
    ensures ShapeOk(c, ApplyMain(c, s, e)) && FetchedOk(c, ApplyMain(c, s, e))
  {
    MainKeepsShape(c, s, e);
    MainKeepsFetched(c, s, e);
  }

  lemma ControlKeepsRounds(c: Config, s: State, e: Event)
    requires ShapeOk(c, s) && ControlEvent(e) && MainEnabled(c, s, e)
    requires TargetsOk(c, s) && CleanOk(c, s) && RoundOk(c, s) && CountOk(c, s)
    ensures ShapeOk(c, ApplyMain(c, s, e))
    ensures CleanOk(c, ApplyMain(c, s, e)) && RoundOk(c, ApplyMain(c, s, e)) && CountOk(c, ApplyMain(c, s, e))
  {
    ControlKeepsClean(c, s, e);
    ControlKeepsRound(c, s, e);
    ControlKeepsCount(c, s, e);
  }

  // ----- steps of a task -----

  lemma TaskKeepsShape(c: Config, s: State, e: Event)
    requires ShapeOk(c, s) && !MainEvent(e) && TaskEnabled(c, s, e)
    ensures ShapeOk(c, ApplyTask(c, s, e))
  {
  }

  /** One task changes its phase, and its file's handle names it as owner exactly when it has the lock. */
  ghost predicate LockStep(s: State, s': State, t: nat) {
    && t < |s.tasks| == |s'.tasks| && s'.tasks == s.tasks[t := s'.tasks[t]]
    && s'.tasks[t].entry == s.tasks[t].entry < |s.handles|
    && var k := s.tasks[t].entry;
       && |s'.handles| == |s.handles| && s'.handles == s.handles[k := s'.handles[k]]
       && (HasLock(s'.tasks[t].phase) <==> s'.handles[k].owner == Some(t))
       && (s'.handles[k].owner == s.handles[k].owner
           || (s.handles[k].owner.None? && s'.handles[k].owner == Some(t))
           || (HasLock(s.tasks[t].phase) && s'.handles[k].owner.None?))
  }

  lemma LockStepKeepsLocks(c: Config, s: State, s': State, t: nat)
    requires LocksOk(c, s) && LockStep(s, s', t)
    ensures LocksOk(c, s')
  {
    forall u | 0 <= u < |s'.tasks|
      ensures s'.tasks[u].entry < |s'.handles|
      ensures HasLock(s'.tasks[u].phase) <==> s'.handles[s'.tasks[u].entry].owner == Some(u)
    {
      if u != t && s.tasks[u].entry == s.tasks[t].entry && HasLock(s.tasks[u].phase) {
        assert s.handles[s.tasks[u].entry].owner == Some(u);
      }
    }
  }

  lemma TaskKeepsLocks(c: Config, s: State, e: Event)
    requires ShapeOk(c, s) && !MainEvent(e) && TaskEnabled(c, s, e) && LocksOk(c, s)
    ensures LocksOk(c, ApplyTask(c, s, e))
  {
    assert HasLock(s.tasks[e.t].phase) <==> s.handles[s.tasks[e.t].entry].owner == Some(e.t);
    LockStepKeepsLocks(c, s, ApplyTask(c, s, e), e.t);
  }

  lemma StepKeepsOwnRequest(c: Config, s: State, e: Event)
    requires ShapeOk(c, s) && !MainEvent(e) && TaskEnabled(c, s, e)
    requires RequestOk(c, s, s.tasks[e.t])
    ensures ShapeOk(c, ApplyTask(c, s, e)) && RequestOk(c, ApplyTask(c, s, e), ApplyTask(c, s, e).tasks[e.t])
  {
    assert RequestOk(c, s, s.tasks[e.t].(phase := NextPhase(c, s, e),
                                         requests := s.tasks[e.t].requests + if e.Reply? then 1 else 0));
  }

  lemma ReplyKeepsOwnData(c: Config, parts: seq<seq<Bytes>>, s: State, e: Event)
    requires ShapeOk(c, s) && GoodConfig(c, parts) && e.Reply? && TaskEnabled(c, s, e)
    requires RequestOk(c, s, s.tasks[e.t]) && DataOk(c, parts, s, s.tasks[e.t])
    ensures ShapeOk(c, ApplyTask(c, s, e)) && RequestOk(c, ApplyTask(c, s, e), ApplyTask(c, s, e).tasks[e.t])
    ensures DataOk(c, parts, ApplyTask(c, s, e), ApplyTask(c, s, e).tasks[e.t])
  {
    var task := s.tasks[e.t];
    FetchablePart(c, parts, task.entry, task.index);
    ReplyOutcome(c.hash, task.request, task.phase.attempts, e.reply, parts[task.entry][task.index]);
    StepKeepsOwnRequest(c, s, e);
  }

  lemma StepKeepsOwnData(c: Config, parts: seq<seq<Bytes>>, s: State, e: Event)
    requires ShapeOk(c, s) && |parts| == |c.entries| && !MainEvent(e) && !e.Reply? && TaskEnabled(c, s, e)
    requires RequestOk(c, s, s.tasks[e.t]) && DataOk(c, parts, s, s.tasks[e.t])
    ensures ShapeOk(c, ApplyTask(c, s, e)) && RequestOk(c, ApplyTask(c, s, e), ApplyTask(c, s, e).tasks[e.t])
    ensures DataOk(c, parts, ApplyTask(c, s, e), ApplyTask(c, s, e).tasks[e.t])
  {
    StepKeepsOwnRequest(c, s, e);
  }

  lemma StepKeepsOtherTask(c: Config, parts: seq<seq<Bytes>>, s: State, e: Event, u: nat)
    requires ShapeOk(c, s) && |parts| == |c.entries| && LocksOk(c, s)
    requires !MainEvent(e) && TaskEnabled(c, s, e) && u < |s.tasks| && u != e.t
    requires RequestOk(c, s, s.tasks[u]) && DataOk(c, parts, s, s.tasks[u])
    ensures ShapeOk(c, ApplyTask(c, s, e))
    ensures var s' := ApplyTask(c, s, e);
            RequestOk(c, s', s'.tasks[u]) && DataOk(c, parts, s', s'.tasks[u])
  {
  }

  lemma TaskKeepsTasks(c: Config, parts: seq<seq<Bytes>>, s: State, e: Event)
    requires ShapeOk(c, s) && GoodConfig(c, parts) && TasksOk(c, parts, s) && LocksOk(c, s)
    requires !MainEvent(e) && TaskEnabled(c, s, e)
    ensures ShapeOk(c, ApplyTask(c, s, e)) && TasksOk(c, parts, ApplyTask(c, s, e))
  {
    TaskKeepsShape(c, s, e);
    var s' := ApplyTask(c, s, e);
    forall u | 0 <= u < |s'.tasks|
      ensures RequestOk(c, s', s'.tasks[u]) && DataOk(c, parts, s', s'.tasks[u])
    {
      assert RequestOk(c, s, s.tasks[u]) && DataOk(c, parts, s, s.tasks[u]);
      if u == e.t && e.Reply? {
        ReplyKeepsOwnData(c, parts, s, e);
      } else if u == e.t {
        StepKeepsOwnData(c, parts, s, e);
      } else {
        StepKeepsOtherTask(c, parts, s, e, u);
      }
    }
  }

  lemma TaskKeepsFetched(c: Config, parts: seq<seq<Bytes>>, s: State, e: Event)
    requires ShapeOk(c, s) && GoodConfig(c, parts) && !MainEvent(e) && TaskEnabled(c, s, e)
    requires RequestOk(c, s, s.tasks[e.t]) && FetchedOk(c, s)
    ensures ShapeOk(c, ApplyTask(c, s, e)) && FetchedOk(c, ApplyTask(c, s, e))
  {
    TaskKeepsShape(c, s, e);
    var s', j := ApplyTask(c, s, e), s.tasks[e.t].entry;
    forall k, i: nat | 0 <= k < |c.entries| && i <= LastIndex(Cf(c, k)) && i !in s'.outstanding[HashOf(c, k)]
      ensures Fetchable(Cf(c, k), i)
    {
      if i in s.outstanding[HashOf(c, k)] {
        assert HashOf(c, k) == HashOf(c, j) && i == s.tasks[e.t].index;
      }
    }
  }

  lemma TaskKeepsTargets(c: Config, s: State, e: Event)
    requires ShapeOk(c, s) && !MainEvent(e) && TaskEnabled(c, s, e) && TargetsOk(c, s)
    ensures ShapeOk(c, ApplyTask(c, s, e)) && TargetsOk(c, ApplyTask(c, s, e))
  {
  }

  /** A task step changes what a round has won only when it removes an index, and then by that index. */
  lemma StepWins(tasks: seq<Task>, t: nat, task: Task, first: nat, k: int, base: set<nat>, todo: set<nat>)
    requires t < |tasks| && !Won(tasks[t])
    requires task.entry == tasks[t].entry && task.index == tasks[t].index
    requires RoundTasks(tasks, k, first, base, todo)
    ensures RoundTasks(tasks[t := task], k, first, base, todo)
    ensures WonIndices(tasks[t := task], first)
         == WonIndices(tasks, first) + if Won(task) && first <= t then {task.index} else {}
  {
    var tasks' := tasks[t := task];
    forall i | i in WonIndices(tasks, first)
      ensures i in WonIndices(tasks', first)
    {
      var u :| first <= u < |tasks| && Won(tasks[u]) && tasks[u].index == i;
      assert Won(tasks'[u]) && tasks'[u].index == i;
    }
    if Won(task) && first <= t {
      assert tasks'[t].index in WonIndices(tasks', first);
    }
  }

  lemma StepKeepsWinners(tasks: seq<Task>, t: nat, task: Task, lo: nat, hi: nat)
    requires t < |tasks| && hi <= |tasks| && !(lo <= t < hi)
    ensures WinnerIds(tasks[t := task], lo, hi) == WinnerIds(tasks, lo, hi)
  {
  }

  /** What a task step means for the round: one unfinished task changes, and a success removes its index. */
  ghost predicate RoundStep(c: Config, s: State, s': State, t: nat)
    requires ShapeOk(c, s)
  {
    && s'.main == s.main && |s'.handles| == |s.handles| && s'.incomplete == s.incomplete
    && t < |s.tasks| == |s'.tasks| && s'.tasks == s.tasks[t := s'.tasks[t]]
    && Live(s.tasks[t].phase)
    && s'.tasks[t].entry == s.tasks[t].entry < |s.handles| && s'.tasks[t].index == s.tasks[t].index
    && s'.outstanding ==
         var hash := HashOf(c, s.tasks[t].entry);
         if Won(s'.tasks[t]) then s.outstanding[hash := s.outstanding[hash] - {s.tasks[t].index}] else s.outstanding
  }

  /** The task that steps is one of the current round, or it cannot touch the current entry's set. */
  lemma RoundStepOutstanding(c: Config, s: State, s': State, t: nat, first: nat)
    requires ShapeOk(c, s) && RoundStep(c, s, s', t) && CleanOk(c, s) && Active(s.main)
    requires Exclusive(c, s, |s.handles| - 1)
    requires t < first ==> s.tasks[t].entry != |s.handles| - 1
    requires first <= t ==> s.tasks[t].entry == |s.handles| - 1
    ensures var hash := HashOf(c, |s.handles| - 1);
            s'.outstanding[hash]
              == s.outstanding[hash] - if Won(s'.tasks[t]) && first <= t then {s'.tasks[t].index} else {}
  {
    var k := |s.handles| - 1;
    if s.tasks[t].entry != k {
      assert HashOf(c, s.tasks[t].entry) != HashOf(c, k);
    }
  }

  lemma RoundStepKeepsTasks(c: Config, s: State, s': State, t: nat, first: nat, base: set<nat>, todo: set<nat>)
    requires ShapeOk(c, s) && ShapeOk(c, s') && RoundStep(c, s, s', t) && CleanOk(c, s) && Active(s.main)
    requires RoundTasksOk(c, s, first, base, todo)
    requires t < first ==> s.tasks[t].entry != |s.handles| - 1
    ensures RoundTasksOk(c, s', first, base, todo)
  {
    var k, task := |s.handles| - 1, s'.tasks[t];
    StepWins(s.tasks, t, task, first, k, base, todo);
    assert RoundTasks(s'.tasks, k, first, base, todo);
    if Exclusive(c, s', k) {
      var gone := if Won(task) && first <= t then {task.index} else {};
      RoundStepOutstanding(c, s, s', t, first);
      MinusBoth(base, WonIndices(s.tasks, first), gone);
    }
  }

  lemma MinusBoth(base: set<nat>, won: set<nat>, gone: set<nat>)
    ensures base - (won + gone) == (base - won) - gone
  {
  }

  lemma RoundStepKeepsRound(c: Config, s: State, s': State, t: nat)
    requires ShapeOk(c, s) && ShapeOk(c, s') && RoundStep(c, s, s', t) && CleanOk(c, s) && RoundOk(c, s)
    ensures RoundOk(c, s')
  {
    match s.main {
      case Spawning(first, base, todo) =>
        RoundStepKeepsTasks(c, s, s', t, first, base, todo);
      case Joining(first, base, next, won) =>
        RoundStepKeepsTasks(c, s, s', t, first, base, {});
        StepKeepsWinners(s.tasks, t, s'.tasks[t], first, next);
      case _ =>
    }
  }

  lemma RoundStepKeepsClean(c: Config, s: State, s': State, t: nat)
    requires ShapeOk(c, s) && ShapeOk(c, s') && RoundStep(c, s, s', t) && CleanOk(c, s)
    ensures CleanOk(c, s')
  {
  }

  lemma TaskKeepsClean(c: Config, s: State, e: Event)
    requires ShapeOk(c, s) && !MainEvent(e) && TaskEnabled(c, s, e) && CleanOk(c, s)
    ensures ShapeOk(c, ApplyTask(c, s, e)) && CleanOk(c, ApplyTask(c, s, e))
  {
    TaskKeepsShape(c, s, e);
    TaskIsRoundStep(c, s, e);
    RoundStepKeepsClean(c, s, ApplyTask(c, s, e), e.t);
  }

  lemma TaskKeepsRound(c: Config, s: State, e: Event)
    requires ShapeOk(c, s) && !MainEvent(e) && TaskEnabled(c, s, e) && CleanOk(c, s) && RoundOk(c, s)
    ensures ShapeOk(c, ApplyTask(c, s, e)) && RoundOk(c, ApplyTask(c, s, e))
  {
    TaskKeepsShape(c, s, e);
    TaskIsRoundStep(c, s, e);
    RoundStepKeepsRound(c, s, ApplyTask(c, s, e), e.t);
  }

  lemma TaskIsRoundStep(c: Config, s: State, e: Event)
    requires ShapeOk(c, s) && !MainEvent(e) && TaskEnabled(c, s, e)
    ensures RoundStep(c, s, ApplyTask(c, s, e), e.t)
  {
  }

  lemma TaskKeepsCount(c: Config, s: State, e: Event)
    requires ShapeOk(c, s) && !MainEvent(e) && TaskEnabled(c, s, e) && CountOk(c, s)
    ensures ShapeOk(c, ApplyTask(c, s, e)) && CountOk(c, ApplyTask(c, s, e))
  {
    var s' := ApplyTask(c, s, e);
    if Active(s.main) {
      SubsetCard(s'.outstanding[HashOf(c, |s.handles| - 1)], s.outstanding[HashOf(c, |s.handles| - 1)]);
    }
  }

  /** A step of another entry's task leaves a tracked entry's file and outstanding set alone. */
  lemma TrackedIsOwn(c: Config, s: State, k: nat, t: nat)
    requires ShapeOk(c, s) && CleanOk(c, s) && Tracked(c, s, k)
    requires t < |s.tasks| && Live(s.tasks[t].phase) && s.tasks[t].entry < |s.handles|
    ensures s.tasks[t].entry == k
            || (Name(c, s.tasks[t].entry) != Name(c, k) && HashOf(c, s.tasks[t].entry) != HashOf(c, k))
  {
    var j := s.tasks[t].entry;
    if j != k && !Solo(c, k) {
      assert FirstOfHash(c, j) && FirstOfHash(c, k);
      assert HashOf(c, j) != HashOf(c, k);
    }
  }

  lemma OtherEntryKeepsFile(c: Config, p: Source, s: State, e: Event, k: nat)
    requires ShapeOk(c, s) && !MainEvent(e) && TaskEnabled(c, s, e) && k < |s.handles|
    requires Name(c, s.tasks[e.t].entry) != Name(c, k) && HashOf(c, s.tasks[e.t].entry) != HashOf(c, k)
    requires FileOk(c, p, s, k)
    ensures ShapeOk(c, ApplyTask(c, s, e)) && FileOk(c, p, ApplyTask(c, s, e), k)
  {
    TaskKeepsShape(c, s, e);
  }

  predicate HasEntry(c: Config, s: State, k: nat) {
    k < |c.entries| && Cf(c, k).chunkSize > 0 && Name(c, k) in s.files && HashOf(c, k) in s.outstanding
  }

  /** What a task's step on its own file needs: nothing in place is lost, an index leaves the outstanding
      set only when its part is in place, and what the task claims to have written is in place. */
  ghost predicate FileStep(c: Config, p: Source, s: State, s': State, k: nat, t: nat)
    requires HasEntry(c, s, k) && HasEntry(c, s', k)
  {
    var f, g := s.files[Name(c, k)], s'.files[Name(c, k)];
    && t < |s.tasks| == |s'.tasks| && s'.tasks == s.tasks[t := s'.tasks[t]]
    && PartOf(g, p.whole)
    && Keeps(f, g, p.whole)
    && (forall i: nat :: i <= LastIndex(Cf(c, k)) && i !in s'.outstanding[HashOf(c, k)] ==>
          i !in s.outstanding[HashOf(c, k)] || Placed(Cf(c, k), g, p, i))
    && (s'.tasks[t].phase.Stored? ==> Placed(Cf(c, k), g, p, s'.tasks[t].index))
    && (s'.tasks[t].phase.Writing? && s'.tasks[t].phase.done > 0 ==>
          Agrees(g, p.whole, s'.tasks[t].request.start, s'.tasks[t].request.start + s'.tasks[t].phase.done))
  }

  lemma FileStepKeepsFile(c: Config, p: Source, s: State, s': State, k: nat, t: nat)
    requires ShapeOk(c, s) && ShapeOk(c, s') && k < |s.handles| == |s'.handles|
    requires FileOk(c, p, s, k) && FileStep(c, p, s, s', k, t)
    ensures FileOk(c, p, s', k)
  {
    forall u | 0 <= u < |s'.tasks| && s'.tasks[u].entry == k && u != t
      ensures s'.tasks[u].phase.Stored? ==> Placed(Cf(c, k), s'.files[Name(c, k)], p, s'.tasks[u].index)
    {
      assert s'.tasks[u] == s.tasks[u];
    }
  }

  /** Steps of the entry's own tasks that do not write. */
  lemma QuietStepKeepsFile(c: Config, p: Source, s: State, e: Event, k: nat)
    requires ShapeOk(c, s) && !MainEvent(e) && TaskEnabled(c, s, e) && k < |s.handles|
    requires s.tasks[e.t].entry == k && !e.Write?
    requires RequestOk(c, s, s.tasks[e.t])
    requires s.tasks[e.t].index < |p.parts| && p.parts[s.tasks[e.t].index] != []
    requires s.tasks[e.t].phase.Writing? ==> s.tasks[e.t].phase.data == p.parts[s.tasks[e.t].index]
    requires FileOk(c, p, s, k)
    ensures ShapeOk(c, ApplyTask(c, s, e)) && FileOk(c, p, ApplyTask(c, s, e), k)
  {
    TaskKeepsShape(c, s, e);
    assert e.Release? || e.Remove? ==> Placed(Cf(c, k), s.files[Name(c, k)], p, s.tasks[e.t].index);
    FileStepKeepsFile(c, p, s, ApplyTask(c, s, e), k, e.t);
  }

  /** The bytes of p from start on are data. */
  predicate InWhole(p: Bytes, start: nat, data: Bytes) {
    start + |data| <= |p| && data == p[start..start + |data|]
  }

  lemma WriteStepKeepsFile(c: Config, p: Source, s: State, e: Event, k: nat)
    requires ShapeOk(c, s) && e.Write? && TaskEnabled(c, s, e) && k < |s.handles| && s.tasks[e.t].entry == k
    requires InWhole(p.whole, s.tasks[e.t].request.start, s.tasks[e.t].phase.data)
    requires s.handles[k].cursor == s.tasks[e.t].request.start + s.tasks[e.t].phase.done
    requires FileOk(c, p, s, k)
    ensures ShapeOk(c, ApplyTask(c, s, e)) && FileOk(c, p, ApplyTask(c, s, e), k)
  {
    TaskKeepsShape(c, s, e);
    WriteStepEffect(c, s, e, k);
    var task := s.tasks[e.t];
    WriteStepExtends(c, s, e, task, task.request.start, task.phase.data, task.phase.done,
                     s.files[Name(c, k)], p.whole);
    WriteStepIsFileStep(c, p, s, ApplyTask(c, s, e), k, e.t, e.count);
    FileStepKeepsFile(c, p, s, ApplyTask(c, s, e), k, e.t);
  }

  /** The task writes its next bytes at their own place. */
  lemma WriteStepContents(c: Config, s: State, e: Event, task: Task, start: nat, data: Bytes, done: nat)
    requires e.Write? && TaskEnabled(c, s, e) && task == s.tasks[e.t] && Writing(data, done) == task.phase
    requires s.handles[task.entry].cursor == start + done
    ensures 0 < e.count && done + e.count <= |data|
    ensures NextFile(c, s, e) == WriteAt(s.files[Name(c, task.entry)], start + done, data[done..done + e.count])
  {
  }

  lemma WriteStepExtends(c: Config, s: State, e: Event, task: Task, start: nat, data: Bytes, done: nat, f: Bytes, p: Bytes)
    requires e.Write? && TaskEnabled(c, s, e) && task == s.tasks[e.t]
    requires start == task.request.start && Writing(data, done) == task.phase
    requires s.handles[task.entry].cursor == start + done && InWhole(p, start, data)
    requires f == s.files[Name(c, task.entry)] && PartOf(f, p)
    requires done > 0 ==> Agrees(f, p, start, start + done)
    ensures Extends(f, NextFile(c, s, e), p, start, done + e.count)
  {
    WriteStepContents(c, s, e, task, start, data, done);
    WriteExtends(f, p, start, data, done, e.count);
  }

  lemma WriteStepEffect(c: Config, s: State, e: Event, k: nat)
    requires ShapeOk(c, s) && e.Write? && TaskEnabled(c, s, e) && k < |s.handles| && s.tasks[e.t].entry == k
    ensures var (s', task) := (ApplyTask(c, s, e), s.tasks[e.t]);
            && s'.outstanding == s.outstanding
            && s'.tasks == s.tasks[e.t := task.(phase := Writing(task.phase.data, task.phase.done + e.count))]
            && s'.files == s.files[Name(c, k) := NextFile(c, s, e)]
  {
  }

  lemma WriteStepIsFileStep(c: Config, p: Source, s: State, s': State, k: nat, t: nat, count: nat)
    requires HasEntry(c, s, k) && HasEntry(c, s', k)
    requires t < |s.tasks| && s.tasks[t].phase.Writing? && s'.outstanding == s.outstanding
    requires var (start, phase) := (s.tasks[t].request.start, s.tasks[t].phase);
             var (f, g) := (s.files[Name(c, k)], s'.files[Name(c, k)]);
             && s'.tasks == s.tasks[t := s.tasks[t].(phase := Writing(phase.data, phase.done + count))]
             && Extends(f, g, p.whole, start, phase.done + count)
    ensures FileStep(c, p, s, s', k, t)
  {
  }

  lemma SubSlice(p: Bytes, lo: nat, hi: nat, from: nat, to: nat)
    requires lo <= hi <= |p| && from <= to <= hi - lo
    ensures p[lo..hi][from..to] == p[lo + from..lo + to]
  {
    forall x | 0 <= x < to - from
      ensures p[lo..hi][from..to][x] == p[lo + from..lo + to][x]
    {
    }
  }

  /** g has in place all of p that f has, and `done` bytes of it from position start on. */
  ghost predicate Extends(f: Bytes, g: Bytes, p: Bytes, start: nat, done: nat) {
    PartOf(g, p) && Keeps(f, g, p) && Agrees(g, p, start, start + done)
  }

  /** Writing the next bytes of a part of p after the first `done`. */
  lemma WriteExtends(f: Bytes, p: Bytes, start: nat, data: Bytes, done: nat, count: nat)
    requires PartOf(f, p) && 0 < count && done + count <= |data| && InWhole(p, start, data)
    requires done > 0 ==> Agrees(f, p, start, start + done)
    ensures Extends(f, WriteAt(f, start + done, data[done..done + count]), p, start, done + count)
  {
    var part := data[done..done + count];
    SubSlice(p, start, start + |data|, done, done + count);
    WriteInPlace(f, p, start + done, part);
    if done > 0 {
      AgreesJoin(WriteAt(f, start + done, part), p, start, start + done, start + done + count);
    }
  }

  lemma TaskKeepsFiles(c: Config, parts: seq<seq<Bytes>>, s: State, e: Event)
    requires ShapeOk(c, s) && GoodConfig(c, parts) && !MainEvent(e) && TaskEnabled(c, s, e)
    requires TasksOk(c, parts, s) && CleanOk(c, s) && FilesOk(c, parts, s)
    ensures ShapeOk(c, ApplyTask(c, s, e)) && FilesOk(c, parts, ApplyTask(c, s, e))
  {
    TaskKeepsShape(c, s, e);
    var s' := ApplyTask(c, s, e);
    assert RequestOk(c, s, s.tasks[e.t]) && DataOk(c, parts, s, s.tasks[e.t]);
    forall k | 0 <= k < |s'.handles| && Tracked(c, s', k)
      ensures FileOk(c, SourceOf(c, parts, k), s', k)
    {
      assert Tracked(c, s, k) && FileOk(c, SourceOf(c, parts, k), s, k);
      TrackedIsOwn(c, s, k, e.t);
      if s.tasks[e.t].entry != k {
        OtherEntryKeepsFile(c, SourceOf(c, parts, k), s, e, k);
      } else {
        OwnStepKeepsFile(c, parts, s, e, k);
      }
    }
  }

  lemma OwnStepKeepsFile(c: Config, parts: seq<seq<Bytes>>, s: State, e: Event, k: nat)
    requires ShapeOk(c, s) && GoodConfig(c, parts) && !MainEvent(e) && TaskEnabled(c, s, e) && k < |s.handles|
    requires s.tasks[e.t].entry == k && RequestOk(c, s, s.tasks[e.t]) && DataOk(c, parts, s, s.tasks[e.t])
    requires FileOk(c, SourceOf(c, parts, k), s, k)
    ensures ShapeOk(c, ApplyTask(c, s, e)) && FileOk(c, SourceOf(c, parts, k), ApplyTask(c, s, e), k)
  {
    if e.Write? {
      PartInWhole(c, parts, k, s.tasks[e.t].index);
      WriteStepKeepsFile(c, SourceOf(c, parts, k), s, e, k);
    } else {
      QuietStepKeepsFile(c, SourceOf(c, parts, k), s, e, k);
    }
  }

  lemma TaskKeepsEmpty(c: Config, s: State, e: Event)
    requires ShapeOk(c, s) && !MainEvent(e) && TaskEnabled(c, s, e) && CleanOk(c, s) && EmptyOk(c, s)
    ensures ShapeOk(c, ApplyTask(c, s, e)) && EmptyOk(c, ApplyTask(c, s, e))
  {
    TaskKeepsShape(c, s, e);
    var s', j := ApplyTask(c, s, e), s.tasks[e.t].entry;
    forall k | 0 <= k < |s'.handles| && !FirstOfHash(c, k) && LatestOfName(c, k, |s'.handles|) && s'.incomplete == 0
      ensures s'.files[Name(c, k)] == []
    {
      assert Live(s.tasks[e.t].phase);
      assert FirstOfHash(c, j) && j == |s.handles| - 1;
      assert k < j && Name(c, j) != Name(c, k);
    }
  }

  lemma TaskKeepsInv(c: Config, parts: seq<seq<Bytes>>, s: State, e: Event)
    requires Inv(c, parts, s) && !MainEvent(e) && TaskEnabled(c, s, e)
    ensures Inv(c, parts, ApplyTask(c, s, e))
  {
    TaskKeepsShape(c, s, e);
    TaskKeepsTasks(c, parts, s, e);
    TaskKeepsLocks(c, s, e);
    TaskKeepsTargets(c, s, e);
    assert RequestOk(c, s, s.tasks[e.t]);
    TaskKeepsFetched(c, parts, s, e);
    TaskKeepsClean(c, s, e);
    TaskKeepsRound(c, s, e);
    TaskKeepsCount(c, s, e);
    TaskKeepsFiles(c, parts, s, e);
    TaskKeepsEmpty(c, s, e);
  }

  /** Every step keeps the invariant. */
  lemma StepKeepsInv(c: Config, parts: seq<seq<Bytes>>, s: State, e: Event)
    requires Inv(c, parts, s) && Enabled(c, s, e)
    ensures Inv(c, parts, Apply(c, s, e))
  {
    if MainEvent(e) {
      MainKeepsInv(c, parts, s, e);
    } else {
      TaskKeepsInv(c, parts, s, e);
    }
  }

  /** Every run keeps the invariant. */
  lemma {:induction false} RunKeepsInv(c: Config, parts: seq<seq<Bytes>>, s: State, es: seq<Event>)
    requires Inv(c, parts, s) && Exec(c, s, es).Some?
    ensures Inv(c, parts, Exec(c, s, es).value)
    decreases es
  {
    if es != [] {
      StepKeepsInv(c, parts, s, es[0]);
      RunKeepsInv(c, parts, Apply(c, s, es[0]), es[1..]);
    }
  }
}
