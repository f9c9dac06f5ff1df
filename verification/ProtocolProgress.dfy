/**
 Progress of the download: rounds, requests and steps are bounded, only endpoints are blocked, and
 nothing deadlocks.
 */
module ProtocolProgress {
  import opened Basics
  import opened ChunkFiles
  import opened Protocol
  import opened ProtocolInvariant
  import opened ProtocolResults
  import opened Text
  import opened Urls

  // ----- rounds -----

  lemma CountBoundsRounds(c: Config, s: State)
    requires ShapeOk(c, s) && TargetsOk(c, s) && CountOk(c, s)
    requires Active(s.main) && Exclusive(c, s, |s.handles| - 1)
    ensures s.rounds - s.barren <= |IndexSet(Cf(c, |s.handles| - 1))|
    ensures s.main.Checking? && s.rounds - s.barren == |IndexSet(Cf(c, |s.handles| - 1))| ==>
              s.outstanding[HashOf(c, |s.handles| - 1)] == {}
  {
  }

  /** The rounds of an entry that had a success are at most as many as the file's indices; when they are
      as many, nothing is outstanding. */
  lemma RoundsBounded(c: Config, parts: seq<seq<Bytes>>, s0: State, es: seq<Event>, s: State)
    requires GoodConfig(c, parts) && Init(c, s0) && Exec(c, s0, es) == Some(s)
    requires Active(s.main) && 0 < |s.handles| <= |c.entries|
    requires Exclusive(c, s, |s.handles| - 1)
    ensures var cf := Cf(c, |s.handles| - 1);
            && cf.chunkSize > 0
            && s.rounds - s.barren <= LastIndex(cf) + 1
            && (s.main.Checking? && s.rounds - s.barren == LastIndex(cf) + 1 ==>
                  Remaining(s.outstanding, HashOf(c, |s.handles| - 1)) == {})
  {
    ReachableInv(c, parts, s0, es, s);
    CountBoundsRounds(c, s);
  }

  /** At the end of a round the outstanding set has lost exactly as many indices as tasks succeeded. */
  lemma RoundLoss(c: Config, parts: seq<seq<Bytes>>, s0: State, es: seq<Event>, s: State)
    requires GoodConfig(c, parts) && Init(c, s0) && Exec(c, s0, es) == Some(s)
    requires MainEnabled(c, s, EndRound) && |s.handles| > 0 && Exclusive(c, s, |s.handles| - 1)
    ensures var left := Remaining(s.outstanding, HashOf(c, |s.handles| - 1));
            && left <= s.main.base
            && s.main.first <= |s.tasks|
            && |s.main.base| - |left| == |set t: nat | s.main.first <= t < |s.tasks| && Won(s.tasks[t])|
  {
    ReachableInv(c, parts, s0, es, s);
    RoundShrinks(c, s);
    assert WinnerIds(s.tasks, s.main.first, |s.tasks|)
        == set t: nat | s.main.first <= t < |s.tasks| && Won(s.tasks[t]);
  }

  /** A finished round is counted, and as barren exactly when none of its tasks succeeded. Opening a file starts
      the counts again, and nothing else changes them. */
  lemma RoundsCounted(c: Config, parts: seq<seq<Bytes>>, s0: State, es: seq<Event>, s: State, e: Event)
    requires GoodConfig(c, parts) && Init(c, s0) && Exec(c, s0, es) == Some(s) && Enabled(c, s, e)
    ensures e.EndRound? ==>
              && Apply(c, s, e).rounds == s.rounds + 1
              && Apply(c, s, e).barren == s.barren
                   + if exists t: nat :: s.main.first <= t < |s.tasks| && Won(s.tasks[t]) then 0 else 1
    ensures e.Open? ==> Apply(c, s, e).rounds == 0 && Apply(c, s, e).barren == 0
    ensures !e.EndRound? && !e.Open? ==> Apply(c, s, e).rounds == s.rounds && Apply(c, s, e).barren == s.barren
  {
    ReachableInv(c, parts, s0, es, s);
    if e.EndRound? {
      EndRoundCounted(c, s);
    } else {
      OtherStepsCounted(c, s, e);
    }
  }

  lemma EndRoundCounted(c: Config, s: State)
    requires ShapeOk(c, s) && RoundOk(c, s) && MainEnabled(c, s, EndRound)
    ensures ApplyMain(c, s, EndRound).rounds == s.rounds + 1
    ensures ApplyMain(c, s, EndRound).barren == s.barren
              + if exists t: nat :: s.main.first <= t < |s.tasks| && Won(s.tasks[t]) then 0 else 1
  {
    var ids := WinnerIds(s.tasks, s.main.first, |s.tasks|);
    if t: nat :| s.main.first <= t < |s.tasks| && Won(s.tasks[t]) {
      assert t in ids;
    } else {
      assert ids == {};
    }
  }

  lemma OtherStepsCounted(c: Config, s: State, e: Event)
    requires Enabled(c, s, e) && !e.EndRound?
    ensures e.Open? ==> Apply(c, s, e).rounds == 0 && Apply(c, s, e).barren == 0
    ensures !e.Open? ==> Apply(c, s, e).rounds == s.rounds && Apply(c, s, e).barren == s.barren
  {
  }

  // ----- tasks -----

  /** A task sends at most max(1, max_retry) requests. */
  lemma RequestsBounded(c: Config, parts: seq<seq<Bytes>>, s0: State, es: seq<Event>, s: State, t: nat)
    requires GoodConfig(c, parts) && Init(c, s0) && Exec(c, s0, es) == Some(s) && t < |s.tasks|
    ensures s.tasks[t].requests <= Max(1, c.maxRetry)
  {
    ReachableInv(c, parts, s0, es, s);
    assert RequestOk(c, s, s.tasks[t]);
  }

  function CountOf(es: seq<Event>, e: Event): nat {
    if es == [] then 0 else (if es[0] == e then 1 else 0) + CountOf(es[1..], e)
  }

  /** The complete writes task t has made. */
  function CompleteWrites(s: State, t: nat): nat {
    if t < |s.tasks| && (s.tasks[t].phase.Stored? || Won(s.tasks[t])) then 1 else 0
  }

  lemma {:induction false} WritesCounted(c: Config, s: State, es: seq<Event>, s': State, t: nat)
    requires Exec(c, s, es) == Some(s')
    ensures CompleteWrites(s, t) + CountOf(es, Release(t)) == CompleteWrites(s', t)
    decreases es
  {
    if es != [] {
      WritesCounted(c, Apply(c, s, es[0]), es[1..], s', t);
    }
  }

  /** A task that returned Ok has completed exactly one write, and a task that failed none. */
  lemma OneWritePerSuccess(c: Config, s0: State, es: seq<Event>, s: State, t: nat)
    requires Init(c, s0) && Exec(c, s0, es) == Some(s)
    requires t < |s.tasks| && s.tasks[t].phase.Ended?
    ensures CountOf(es, Release(t)) == if s.tasks[t].phase.ok then 1 else 0
  {
    WritesCounted(c, s0, es, s, t);
  }

  predicate StepOf(e: Event, t: nat) {
    !MainEvent(e) && e.t == t
  }

  function StepsOf(es: seq<Event>, t: nat): nat {
    if es == [] then 0 else (if StepOf(es[0], t) then 1 else 0) + StepsOf(es[1..], t)
  }

  /** No part of the task's file is longer. */
  function SizeLimit(c: Config, task: Task): nat {
    if task.entry < |c.entries| then Cf(c, task.entry).chunkSize else 0
  }

  /** An upper bound on the steps a task has left. */
  function StepsLeft(c: Config, task: Task): int {
    var size := SizeLimit(c, task);
    match task.phase
    case Requesting(attempts) => Max(1, c.maxRetry) - attempts + size + 5
    case Verified(data) => size + 5
    case Holding(data) => size + 4
    case Writing(data, done) => size - done + 3
    case Stored => 2
    case Failing => 1
    case _ => 0
  }

  lemma StepUsesOne(c: Config, parts: seq<seq<Bytes>>, s: State, e: Event)
    requires |s.handles| <= |c.entries| == |parts| && !MainEvent(e) && TaskEnabled(c, s, e)
    requires RequestOk(c, s, s.tasks[e.t]) && DataOk(c, parts, s, s.tasks[e.t])
    ensures StepsLeft(c, s.tasks[e.t]) >= StepsLeft(c, ApplyTask(c, s, e).tasks[e.t]) + 1
  {
    var task := s.tasks[e.t];
    assert ApplyTask(c, s, e).tasks[e.t].entry == task.entry;
    assert ApplyTask(c, s, e).tasks[e.t].phase == NextPhase(c, s, e);
  }

  lemma OtherStepLeavesTask(c: Config, s: State, e: Event, t: nat)
    requires Enabled(c, s, e) && t < |s.tasks| && !StepOf(e, t)
    ensures t < |Apply(c, s, e).tasks| && Apply(c, s, e).tasks[t] == s.tasks[t]
  {
  }

  lemma StepLeavesOrUses(c: Config, parts: seq<seq<Bytes>>, s: State, e: Event, t: nat)
    requires Inv(c, parts, s) && Enabled(c, s, e) && t < |s.tasks|
    ensures t < |Apply(c, s, e).tasks| && Apply(c, s, e).tasks[t].entry == s.tasks[t].entry
    ensures StepsLeft(c, Apply(c, s, e).tasks[t]) + (if StepOf(e, t) then 1 else 0) <= StepsLeft(c, s.tasks[t])
  {
    if StepOf(e, t) {
      assert RequestOk(c, s, s.tasks[t]) && DataOk(c, parts, s, s.tasks[t]);
      StepUsesOne(c, parts, s, e);
    } else {
      OtherStepLeavesTask(c, s, e, t);
    }
  }

  lemma StepsLeftNat(c: Config, parts: seq<seq<Bytes>>, s: State, t: nat)
    requires |s.handles| <= |c.entries| == |parts| && TasksOk(c, parts, s) && t < |s.tasks|
    ensures StepsLeft(c, s.tasks[t]) >= 0
  {
    assert RequestOk(c, s, s.tasks[t]) && DataOk(c, parts, s, s.tasks[t]);
  }

  /** A task takes no more steps than the requests allowed, one per byte of a chunk at most for writing, and
      five others. */
  lemma {:induction false} StepsBounded(c: Config, parts: seq<seq<Bytes>>, s: State, es: seq<Event>, s': State, t: nat)
    requires Inv(c, parts, s) && Exec(c, s, es) == Some(s') && t < |s.tasks|
    ensures t < |s'.tasks| && s'.tasks[t].entry == s.tasks[t].entry
    ensures 0 <= StepsLeft(c, s'.tasks[t])
    ensures StepsOf(es, t) + StepsLeft(c, s'.tasks[t]) <= StepsLeft(c, s.tasks[t])
    decreases es
  {
    if es == [] {
      StepsLeftNat(c, parts, s, t);
    } else {
      var next := Apply(c, s, es[0]);
      StepKeepsInv(c, parts, s, es[0]);
      StepLeavesOrUses(c, parts, s, es[0], t);
      StepsBounded(c, parts, next, es[1..], s', t);
    }
  }

  lemma NewTaskStepsLeft(c: Config, s: State, e: Event, t: nat)
    requires Enabled(c, s, e) && |s.tasks| <= t
    ensures !StepOf(e, t)
    ensures t < |Apply(c, s, e).tasks| ==>
              StepsLeft(c, Apply(c, s, e).tasks[t]) == Max(1, c.maxRetry) + SizeLimit(c, Apply(c, s, e).tasks[t]) + 5
  {
  }

  lemma {:induction false} LaterTaskSteps(c: Config, parts: seq<seq<Bytes>>, s: State, es: seq<Event>, s': State, t: nat)
    requires Inv(c, parts, s) && Exec(c, s, es) == Some(s') && |s.tasks| <= t < |s'.tasks|
    ensures StepsOf(es, t) <= Max(1, c.maxRetry) + SizeLimit(c, s'.tasks[t]) + 5
    decreases es
  {
    var next := Apply(c, s, es[0]);
    StepKeepsInv(c, parts, s, es[0]);
    NewTaskStepsLeft(c, s, es[0], t);
    if t < |next.tasks| {
      StepsBounded(c, parts, next, es[1..], s', t);
    } else {
      LaterTaskSteps(c, parts, next, es[1..], s', t);
    }
  }

  /** Over a whole run a task takes at most max(1, max_retry) + chunk_size + 5 steps. */
  lemma TaskStepsBounded(c: Config, parts: seq<seq<Bytes>>, s0: State, es: seq<Event>, s: State, t: nat)
    requires GoodConfig(c, parts) && Init(c, s0) && Exec(c, s0, es) == Some(s) && t < |s.tasks|
    ensures s.tasks[t].entry < |c.entries|
    ensures StepsOf(es, t) <= Max(1, c.maxRetry) + c.entries[s.tasks[t].entry].chunkFile.chunkSize + 5
  {
    InitInv(c, parts, s0);
    ReachableInv(c, parts, s0, es, s);
    assert RequestOk(c, s, s.tasks[t]);
    LaterTaskSteps(c, parts, s0, es, s, t);
  }

  // ----- what is possible -----

  /** What can happen to a task in a state with the invariant: any reply to a request, or a panic instead; a seek and each
      write may fail; a lock can be taken while no task has it. */
  lemma TaskPossible(c: Config, s: State, t: nat)
    requires ShapeOk(c, s) && LocksOk(c, s) && t < |s.tasks|
    ensures forall reply :: Enabled(c, s, Reply(t, reply)) <==> s.tasks[t].phase.Requesting?
    ensures Enabled(c, s, Die(t)) <==> s.tasks[t].phase.Requesting?
    ensures Enabled(c, s, Acquire(t)) <==>
              && s.tasks[t].phase.Verified?
              && forall u :: 0 <= u < |s.tasks| && s.tasks[u].entry == s.tasks[t].entry ==> !HasLock(s.tasks[u].phase)
    ensures forall success :: Enabled(c, s, Seek(t, success)) <==> s.tasks[t].phase.Holding?
    ensures forall n: nat :: Enabled(c, s, Write(t, n)) <==>
              s.tasks[t].phase.Writing? && 0 < n && s.tasks[t].phase.done + n <= |s.tasks[t].phase.data|
    ensures Enabled(c, s, WriteFails(t)) <==>
              s.tasks[t].phase.Writing? && s.tasks[t].phase.done < |s.tasks[t].phase.data|
    ensures Enabled(c, s, Release(t)) <==>
              s.tasks[t].phase.Writing? && s.tasks[t].phase.done == |s.tasks[t].phase.data|
    ensures Enabled(c, s, Remove(t)) <==> s.tasks[t].phase.Stored?
    ensures Enabled(c, s, Block(t)) <==> s.tasks[t].phase.Failing?
  {
    var owner := s.handles[s.tasks[t].entry].owner;
    if owner.Some? {
      assert HasLock(s.tasks[owner.value].phase) && s.tasks[owner.value].entry == s.tasks[t].entry;
    }
  }

  /** What the main thread can do in a state with the invariant. */
  lemma MainPossible(c: Config, s: State)
    requires ShapeOk(c, s)
    ensures Enabled(c, s, Open) <==> s.main.Opening? && |s.handles| < |c.entries|
    ensures Enabled(c, s, OpenFails) <==> s.main.Opening? && |s.handles| < |c.entries|
    ensures Enabled(c, s, Finish) <==> s.main.Opening? && |s.handles| == |c.entries|
    ensures Enabled(c, s, Check) <==> s.main.Checking?
    ensures Enabled(c, s, Snapshot) <==> s.main.Snapshotting?
    ensures forall i: nat, e :: Enabled(c, s, Spawn(i, e)) <==> s.main.Spawning? && i in s.main.todo && e in c.endpoints
    ensures Enabled(c, s, NoEndpoint) <==> s.main.Spawning? && s.main.todo != {} && c.endpoints == []
    ensures Enabled(c, s, SpawnsDone) <==> s.main.Spawning? && s.main.todo == {}
    ensures Enabled(c, s, Join) <==>
              && s.main.Joining? && s.main.next < |s.tasks|
              && (s.tasks[s.main.next].phase.Ended? || s.tasks[s.main.next].phase.Dead?)
    ensures Enabled(c, s, EndRound) <==> s.main.Joining? && s.main.next == |s.tasks|
  {
  }

  // ----- the blocklist -----

  /** The request goes to the subfile's route at e, which is one of the endpoints. */
  predicate Asked(c: Config, request: Request, e: IndexerEndpoint) {
    e in c.endpoints && request.queryEndpoint == e.url + "/subfiles/id/" + c.subfileId
  }

  ghost predicate AskedSomewhere(c: Config, request: Request) {
    exists e :: Asked(c, request, e)
  }

  /** All requests go to an endpoint of the list. */
  ghost predicate FromEndpoints(c: Config, s: State) {
    forall t :: 0 <= t < |s.tasks| ==> AskedSomewhere(c, s.tasks[t].request)
  }

  lemma StepKeepsEndpoints(c: Config, s: State, e: Event)
    requires FromEndpoints(c, s) && Enabled(c, s, e)
    ensures FromEndpoints(c, Apply(c, s, e))
  {
    var s' := Apply(c, s, e);
    if e.Spawn? {
      if |s'.tasks| > |s.tasks| {
        RequestExact(c, c.entries[|s.handles| - 1], e.index, e.endpoint);
        assert Asked(c, s'.tasks[|s.tasks|].request, e.endpoint);
      }
    } else if !MainEvent(e) {
      assert s'.tasks[e.t].request == s.tasks[e.t].request;
    }
  }

  /** A task that ended in an error, and the URL blocked for it. */
  predicate FailedAt(task: Task, url: string) {
    task.phase == Ended(false) && BlockedUrl(task.request.queryEndpoint) == url
  }

  /** Blocked are the URLs of `before`, and those of the tasks that ended in an error. */
  ghost predicate BlocklistOk(before: set<string>, s: State) {
    forall url :: url in s.blocklist <==> url in before || exists t :: 0 <= t < |s.tasks| && FailedAt(s.tasks[t], url)
  }

  lemma StepKeepsBlocklist(c: Config, s: State, e: Event, before: set<string>)
    requires Enabled(c, s, e) && BlocklistOk(before, s)
    ensures BlocklistOk(before, Apply(c, s, e))
  {
    var s' := Apply(c, s, e);
    forall url
      ensures url in s'.blocklist <==> url in before || exists t :: 0 <= t < |s'.tasks| && FailedAt(s'.tasks[t], url)
    {
      StepBlocks(c, s, e, url);
      if t :| 0 <= t < |s.tasks| && FailedAt(s.tasks[t], url) {
        StepFails(c, s, e, t, url);
      }
      if t :| 0 <= t < |s'.tasks| && FailedAt(s'.tasks[t], url) {
        StepFails(c, s, e, t, url);
      }
      if e.Block? {
        StepFails(c, s, e, e.t, url);
      }
    }
  }

  /** A task has failed after a step if it had before, or if the step is that of its blocking the endpoint. */
  lemma StepFails(c: Config, s: State, e: Event, t: nat, url: string)
    requires Enabled(c, s, e) && t < |Apply(c, s, e).tasks|
    ensures FailedAt(Apply(c, s, e).tasks[t], url) <==>
              || (t < |s.tasks| && FailedAt(s.tasks[t], url))
              || (e == Block(t) && BlockedUrl(s.tasks[t].request.queryEndpoint) == url)
  {
    if t >= |s.tasks| {
      NewTaskRequests(c, s, e, t);
    } else if StepOf(e, t) {
      OwnStepFails(c, s, e, url);
    } else {
      OtherStepLeavesTask(c, s, e, t);
    }
  }

  lemma NewTaskRequests(c: Config, s: State, e: Event, t: nat)
    requires Enabled(c, s, e) && |s.tasks| <= t < |Apply(c, s, e).tasks|
    ensures Apply(c, s, e).tasks[t].phase.Requesting? && e.Spawn?
  {
  }

  lemma OwnStepFails(c: Config, s: State, e: Event, url: string)
    requires !MainEvent(e) && TaskEnabled(c, s, e)
    ensures !FailedAt(s.tasks[e.t], url)
    ensures FailedAt(ApplyTask(c, s, e).tasks[e.t], url) <==>
              e.Block? && BlockedUrl(s.tasks[e.t].request.queryEndpoint) == url
  {
  }

  lemma StepBlocks(c: Config, s: State, e: Event, url: string)
    requires Enabled(c, s, e)
    ensures url in Apply(c, s, e).blocklist <==>
              url in s.blocklist || (e.Block? && BlockedUrl(s.tasks[e.t].request.queryEndpoint) == url)
    ensures |s.tasks| <= |Apply(c, s, e).tasks|
  {
  }

  lemma {:induction false} RunKeepsBlocklist(c: Config, s: State, es: seq<Event>, s': State, before: set<string>)
    requires Exec(c, s, es) == Some(s') && BlocklistOk(before, s) && FromEndpoints(c, s)
    ensures BlocklistOk(before, s') && FromEndpoints(c, s')
    decreases es
  {
    if es != [] {
      StepKeepsBlocklist(c, s, es[0], before);
      StepKeepsEndpoints(c, s, es[0]);
      RunKeepsBlocklist(c, Apply(c, s, es[0]), es[1..], s', before);
    }
  }

  /** If no endpoint's URL runs into the route, a run has blocked exactly the endpoints of the tasks that ended
      in an error, under their own URLs, beside what was blocked before. */
  lemma BlocklistIff(c: Config, s0: State, es: seq<Event>, s: State, url: string)
    requires s0.tasks == [] && Exec(c, s0, es) == Some(s)
    requires forall e :: e in c.endpoints ==> !Contains(e.url + "/", ROUTE)
    ensures url in s.blocklist <==>
              || url in s0.blocklist
              || exists t, e :: && 0 <= t < |s.tasks| && s.tasks[t].phase == Ended(false)
                                && Asked(c, s.tasks[t].request, e) && e.url == url
  {
    RunKeepsBlocklist(c, s0, es, s, s0.blocklist);
    forall t, e | 0 <= t < |s.tasks| && Asked(c, s.tasks[t].request, e)
      ensures BlockedUrl(s.tasks[t].request.queryEndpoint) == e.url
    {
      assert s.tasks[t].request.queryEndpoint == QueryEndpoint(e.url, c.subfileId);
      BaseUrlRoundTripIff(e.url, c.subfileId);
    }
    if t :| 0 <= t < |s.tasks| && FailedAt(s.tasks[t], url) {
      assert AskedSomewhere(c, s.tasks[t].request);
      var e :| Asked(c, s.tasks[t].request, e);
      assert e.url == url;
    }
    if t, e :| 0 <= t < |s.tasks| && s.tasks[t].phase == Ended(false) && Asked(c, s.tasks[t].request, e) && e.url == url {
      assert FailedAt(s.tasks[t], url);
    }
  }

  /** So a run blocks only endpoints of the list, under their own URLs. */
  lemma BlocksOnlyEndpoints(c: Config, s0: State, es: seq<Event>, s: State, url: string)
    requires s0.tasks == [] && Exec(c, s0, es) == Some(s)
    requires forall e :: e in c.endpoints ==> !Contains(e.url + "/", ROUTE)
    requires url in s.blocklist
    ensures url in s0.blocklist || exists e :: e in c.endpoints && e.url == url
  {
    BlocklistIff(c, s0, es, s, url);
  }

  /** For every task that ended in an error there is an endpoint it asked, and that endpoint is blocked. */
  lemma FailedIsBlocked(c: Config, s0: State, es: seq<Event>, s: State, t: nat) returns (e: IndexerEndpoint)
    requires s0.tasks == [] && Exec(c, s0, es) == Some(s)
    requires t < |s.tasks| && s.tasks[t].phase == Ended(false)
    ensures Asked(c, s.tasks[t].request, e)
    ensures !Contains(e.url + "/", ROUTE) ==> e.url in s.blocklist
  {
    RunKeepsBlocklist(c, s0, es, s, s0.blocklist);
    assert AskedSomewhere(c, s.tasks[t].request);
    e :| Asked(c, s.tasks[t].request, e);
    assert s.tasks[t].request.queryEndpoint == QueryEndpoint(e.url, c.subfileId);
    BaseUrlRoundTripIff(e.url, c.subfileId);
    assert FailedAt(s.tasks[t], BlockedUrl(s.tasks[t].request.queryEndpoint));
  }

  /** Nothing is ever taken off the blocklist. */
  lemma {:induction false} BlocklistGrows(c: Config, s: State, es: seq<Event>, s': State)
    requires Exec(c, s, es) == Some(s')
    ensures s.blocklist <= s'.blocklist
    decreases es
  {
    if es != [] {
      BlocklistGrows(c, Apply(c, s, es[0]), es[1..], s');
    }
  }

  // ----- no deadlock -----

  /** An unfinished task can step, or waits for a lock whose holder can step. */
  lemma LiveTaskEnabled(c: Config, parts: seq<seq<Bytes>>, s: State, t: nat) returns (e: Event)
    requires Inv(c, parts, s) && t < |s.tasks| && Live(s.tasks[t].phase)
    ensures Enabled(c, s, e) && !MainEvent(e)
    ensures !e.Die? && !e.WriteFails? && (e.Seek? ==> e.success) && (e.Reply? ==> s.tasks[t].phase.Requesting?)
    ensures e.t == t || s.handles[s.tasks[t].entry].owner == Some(e.t)
  {
    var u := t;
    if s.tasks[t].phase.Verified? && s.handles[s.tasks[t].entry].owner.Some? {
      u := s.handles[s.tasks[t].entry].owner.value;
    }
    assert RequestOk(c, s, s.tasks[u]) && DataOk(c, parts, s, s.tasks[u]);
    match s.tasks[u].phase {
      case Requesting(_) => e := Reply(u, None);
      case Verified(_) => e := Acquire(u);
      case Holding(_) => e := Seek(u, true);
      case Writing(data, done) => e := if done == |data| then Release(u) else Write(u, 1);
      case Stored => e := Remove(u);
      case Failing => e := Block(u);
    }
  }

  lemma MainEnabledOrWaits(c: Config, s: State) returns (e: Event)
    requires ShapeOk(c, s) && RoundOk(c, s) && !s.main.Finished? && !s.main.Crashed?
    requires s.main.Joining? && s.main.next < |s.tasks| ==> !Live(s.tasks[s.main.next].phase)
    ensures MainEvent(e) && MainEnabled(c, s, e) && !e.OpenFails?
  {
    match s.main {
      case Opening => e := if |s.handles| < |c.entries| then Open else Finish;
      case Checking => e := Check;
      case Snapshotting => e := Snapshot;
      case Spawning(_, _, todo) =>
        if todo == {} {
          e := SpawnsDone;
        } else if c.endpoints == [] {
          e := NoEndpoint;
        } else {
          var i :| i in todo;
          e := Spawn(i, c.endpoints[0]);
        }
      case Joining(_, _, next, _) =>
        e := if next == |s.tasks| then EndRound else Join;
    }
  }

  /** Until the download has finished or panicked, some step is possible. */
  lemma DeadlockFree(c: Config, parts: seq<seq<Bytes>>, s: State) returns (e: Event)
    requires Inv(c, parts, s) && !s.main.Finished? && !s.main.Crashed?
    ensures Enabled(c, s, e)
  {
    if s.main.Joining? && s.main.next < |s.tasks| && Live(s.tasks[s.main.next].phase) {
      e := LiveTaskEnabled(c, parts, s, s.main.next);
    } else {
      e := MainEnabledOrWaits(c, s);
    }
  }
}
