/**
 When a download succeeds. A run is honest when every reply passes the check, every file opens and every
 write succeeds, under any schedule: then no entry fails, one round per entry is enough, the run is bounded,
 and it stops only in success. And what a failed download or a panic of the main thread was caused by.
 */
module ProtocolSuccess {
  import opened Arithmetic
  import opened Basics
  import opened ChunkFiles
  import opened Protocol
  import opened ProtocolInvariant
  import opened ProtocolProgress
  import opened ProtocolResults

  /** The events lead from the start to the state s. */
  ghost predicate Reached(c: Config, parts: seq<seq<Bytes>>, s0: State, es: seq<Event>, s: State) {
    GoodConfig(c, parts) && Init(c, s0) && Exec(c, s0, es) == Some(s)
  }

  /** Every index of every entry's loop has a range and a hash. */
  predicate AllAskable(c: Config) {
    forall k :: 0 <= k < |c.entries| ==> Askable(Cf(c, k))
  }

  /** There is an endpoint to ask, or nothing to ask for, and every index can be asked for. */
  predicate Downloadable(c: Config) {
    (c.entries == [] || c.endpoints != []) && AllAskable(c)
  }

  // ----- honest runs -----

  /** Whether the event is one of a world without failures: a reply is data of the expected hash. */
  predicate HonestEvent(c: Config, s: State, e: Event) {
    match e
    case OpenFails => false
    case Reply(t, reply) => t < |s.tasks| && reply.Some? && c.hash(reply.value) == s.tasks[t].request.chunkHash
    case Die(_) => false
    case Seek(_, success) => success
    case WriteFails(_) => false
    case _ => true
  }

  predicate HonestRun(c: Config, s: State, es: seq<Event>)
    decreases es
  {
    es != [] ==>
      Enabled(c, s, es[0]) && HonestEvent(c, s, es[0]) && HonestRun(c, Apply(c, s, es[0]), es[1..])
  }

  predicate HonestPhase(phase: Phase) {
    match phase
    case Requesting(attempts) => attempts == 0
    case Failing => false
    case Ended(ok) => ok
    case Dead => false
    case _ => true
  }

  /** The first round of an entry, in which every joined task has succeeded, is its last. */
  ghost predicate HonestMain(c: Config, s: State)
    requires ShapeOk(c, s)
  {
    match s.main
    case Opening => true
    case Checking => s.rounds == 1 ==> s.outstanding[HashOf(c, |s.handles| - 1)] == {}
    case Snapshotting => s.rounds == 0
    case Spawning(_, _, _) => s.rounds == 0
    case Joining(first, _, next, won) => s.rounds == 0 && won == next - first
    case Finished(ok) => ok
    case Crashed => false
  }

  /** What an honest run keeps. */
  ghost predicate HonestInv(c: Config, s: State)
    requires ShapeOk(c, s)
  {
    && s.incomplete == 0 && s.rounds <= 1
    && (forall t :: 0 <= t < |s.tasks| ==> HonestPhase(s.tasks[t].phase))
    && HonestMain(c, s)
  }

  // ----- an honest run keeps its invariant -----

  /** Every index that is to be asked for has a request. */
  lemma RequestExists(c: Config, parts: seq<seq<Bytes>>, s: State, e: Event)
    requires Inv(c, parts, s) && AllAskable(c) && e.Spawn? && MainEnabled(c, s, e)
    ensures Spawns(c, s, e)
  {
    SpawnedIndex(c, s, e);
    AskableBelow(Cf(c, |s.handles| - 1), e.index);
  }

  /** A round all of whose tasks have succeeded leaves nothing outstanding. */
  lemma AllWon(c: Config, s: State)
    requires ShapeOk(c, s) && RoundOk(c, s) && HonestInv(c, s) && MainEnabled(c, s, EndRound)
    ensures s.outstanding[HashOf(c, |s.handles| - 1)] == {}
  {
    RoundShrinks(c, s);
    assert s.main.won == |s.main.base|;
  }

  lemma MainKeepsHonest(c: Config, parts: seq<seq<Bytes>>, s: State, e: Event)
    requires Inv(c, parts, s) && Downloadable(c) && HonestInv(c, s)
    requires MainEvent(e) && MainEnabled(c, s, e) && HonestEvent(c, s, e)
    ensures ShapeOk(c, ApplyMain(c, s, e)) && HonestInv(c, ApplyMain(c, s, e))
  {
    if e.Spawn? {
      RequestExists(c, parts, s, e);
      SpawnKeepsHonest(c, s, e);
    } else if e.EndRound? {
      AllWon(c, s);
      EndRoundKeepsHonest(c, s);
    } else if e.Join? {
      JoinKeepsHonest(c, s);
    } else {
      assert !e.NoEndpoint?;
      OtherKeepsHonest(c, s, e);
    }
  }

  lemma SpawnKeepsHonest(c: Config, s: State, e: Event)
    requires ShapeOk(c, s) && HonestInv(c, s) && Spawns(c, s, e)
    ensures ShapeOk(c, ApplyMain(c, s, e)) && HonestInv(c, ApplyMain(c, s, e))
  {
    MainKeepsShape(c, s, e);
  }

  lemma EndRoundKeepsHonest(c: Config, s: State)
    requires ShapeOk(c, s) && HonestInv(c, s) && MainEnabled(c, s, EndRound)
    requires s.outstanding[HashOf(c, |s.handles| - 1)] == {}
    ensures ShapeOk(c, ApplyMain(c, s, EndRound)) && HonestInv(c, ApplyMain(c, s, EndRound))
  {
    MainKeepsShape(c, s, EndRound);
  }

  lemma JoinKeepsHonest(c: Config, s: State)
    requires ShapeOk(c, s) && HonestInv(c, s) && MainEnabled(c, s, Join)
    ensures ShapeOk(c, ApplyMain(c, s, Join)) && HonestInv(c, ApplyMain(c, s, Join))
    ensures s.tasks[s.main.next].phase == Ended(true)
  {
    MainKeepsShape(c, s, Join);
    assert HonestPhase(s.tasks[s.main.next].phase);
  }

  lemma OtherKeepsHonest(c: Config, s: State, e: Event)
    requires ShapeOk(c, s) && HonestInv(c, s)
    requires MainEvent(e) && !e.Spawn? && !e.EndRound? && !e.Join? && !e.NoEndpoint? && !e.OpenFails?
    requires MainEnabled(c, s, e)
    ensures ShapeOk(c, ApplyMain(c, s, e)) && HonestInv(c, ApplyMain(c, s, e))
  {
    MainKeepsShape(c, s, e);
  }

  lemma TaskKeepsHonest(c: Config, s: State, e: Event)
    requires ShapeOk(c, s) && HonestInv(c, s)
    requires !MainEvent(e) && TaskEnabled(c, s, e) && HonestEvent(c, s, e)
    ensures ShapeOk(c, ApplyTask(c, s, e)) && HonestInv(c, ApplyTask(c, s, e))
  {
    TaskKeepsShape(c, s, e);
    assert HonestPhase(s.tasks[e.t].phase);
    assert HonestPhase(NextPhase(c, s, e));
  }

  lemma StepKeepsHonest(c: Config, parts: seq<seq<Bytes>>, s: State, e: Event)
    requires Inv(c, parts, s) && Downloadable(c) && HonestInv(c, s) && Enabled(c, s, e) && HonestEvent(c, s, e)
    ensures Inv(c, parts, Apply(c, s, e)) && HonestInv(c, Apply(c, s, e))
  {
    StepKeepsInv(c, parts, s, e);
    if MainEvent(e) {
      MainKeepsHonest(c, parts, s, e);
    } else {
      TaskKeepsHonest(c, s, e);
    }
  }

  // ----- an honest run is bounded -----

  /** The steps a task has ahead when its first reply is data. */
  function StepsAhead(c: Config, task: Task): nat {
    Max(0, if task.phase.Requesting? then SizeLimit(c, task) + 6 else StepsLeft(c, task))
  }

  function TaskSum(c: Config, tasks: seq<Task>): nat {
    if tasks == [] then 0 else StepsAhead(c, tasks[0]) + TaskSum(c, tasks[1..])
  }

  lemma {:induction false} TaskSumUpdate(c: Config, tasks: seq<Task>, t: nat, task: Task)
    requires t < |tasks|
    ensures TaskSum(c, tasks[t := task]) + StepsAhead(c, tasks[t]) == TaskSum(c, tasks) + StepsAhead(c, task)
  {
    if t == 0 {
      assert tasks[t := task][1..] == tasks[1..];
    } else {
      assert tasks[t := task][1..] == tasks[1..][t - 1 := task];
      TaskSumUpdate(c, tasks[1..], t - 1, task);
    }
  }

  lemma {:induction false} TaskSumAppend(c: Config, tasks: seq<Task>, task: Task)
    ensures TaskSum(c, tasks + [task]) == TaskSum(c, tasks) + StepsAhead(c, task)
  {
    if tasks == [] {
      assert (tasks + [task])[1..] == [];
    } else {
      assert (tasks + [task])[1..] == tasks[1..] + [task];
      TaskSumAppend(c, tasks[1..], task);
    }
  }

  /** The steps of one index of entry k: spawning its task, the task's own, and joining it. */
  function IndexCost(c: Config, k: nat): nat
    requires k < |c.entries|
  {
    Cf(c, k).chunkSize + 8
  }

  /** The steps of n indices of entry k. */
  function IndexCosts(c: Config, k: nat, n: nat): nat
    requires k < |c.entries|
  {
    if n == 0 then 0 else IndexCosts(c, k, n - 1) + IndexCost(c, k)
  }

  lemma {:induction false} IndexCostsProduct(c: Config, k: nat, n: nat)
    requires k < |c.entries|
    ensures IndexCosts(c, k, n) == n * IndexCost(c, k)
  {
    if n > 0 {
      IndexCostsProduct(c, k, n - 1);
      MulNext(n - 1, IndexCost(c, k));
    }
  }

  /** All steps of entry k, from opening its file to finding that nothing is outstanding. */
  function EntryCost(c: Config, k: nat): nat
    requires AllAskable(c) && k < |c.entries|
  {
    6 + IndexCosts(c, k, LastIndex(Cf(c, k)) + 1)
  }

  /** Six steps, and for each index one more per byte of a chunk and eight others. */
  lemma EntryCostIs(c: Config, k: nat)
    requires AllAskable(c) && k < |c.entries|
    ensures var cf := c.entries[k].chunkFile;
            cf.chunkSize > 0 && EntryCost(c, k) == 6 + (LastIndex(cf) + 1) * (cf.chunkSize + 8)
  {
    assert Askable(Cf(c, k));
    IndexCostsProduct(c, k, LastIndex(Cf(c, k)) + 1);
  }

  function EntryCosts(c: Config, k: nat): nat
    requires AllAskable(c)
    decreases |c.entries| - k
  {
    if k < |c.entries| then EntryCost(c, k) + EntryCosts(c, k + 1) else 0
  }

  /** The most steps an honest run takes. */
  function RunBound(c: Config): nat
    requires AllAskable(c)
  {
    EntryCosts(c, 0) + 1
  }

  /** The steps the main thread has ahead for the current entry, those of tasks still to be spawned included. */
  ghost function MainAhead(c: Config, s: State): int
    requires AllAskable(c) && ShapeOk(c, s)
  {
    var k := |s.handles| - 1;
    match s.main
    case Opening => 1
    case Checking => if s.rounds == 0 then EntryCost(c, k) else 2
    case Snapshotting => EntryCost(c, k) - 1
    case Spawning(first, _, todo) => 4 + (|s.tasks| - first) + IndexCosts(c, k, |todo|)
    case Joining(_, _, next, _) => 3 + (|s.tasks| - next)
    case Finished(_) => 0
    case Crashed => 0
  }

  /** A bound on the steps an honest run has ahead. */
  ghost function Ahead(c: Config, s: State): int
    requires AllAskable(c) && ShapeOk(c, s)
  {
    MainAhead(c, s) + TaskSum(c, s.tasks) + EntryCosts(c, |s.handles|)
  }

  lemma AheadNat(c: Config, s: State)
    requires AllAskable(c) && ShapeOk(c, s) && RoundOk(c, s)
    ensures Ahead(c, s) >= 0
  {
  }

  lemma {:induction false} MoreIndexCosts(c: Config, k: nat, m: nat, n: nat)
    requires k < |c.entries| && m <= n
    ensures IndexCosts(c, k, m) <= IndexCosts(c, k, n)
  {
    if m < n {
      MoreIndexCosts(c, k, m, n - 1);
    }
  }

  /** A spawned task has at most the steps that were accounted for its index. */
  lemma NewTaskSteps(c: Config, s: State, e: Event)
    requires ShapeOk(c, s) && Spawns(c, s, e)
    ensures var s' := ApplyMain(c, s, e);
            && s'.tasks == s.tasks + [s'.tasks[|s.tasks|]]
            && StepsAhead(c, s'.tasks[|s.tasks|]) + 2 <= IndexCost(c, |s.handles| - 1)
  {
  }

  lemma SpawnUsesOne(c: Config, s: State, e: Event)
    requires AllAskable(c) && ShapeOk(c, s) && Spawns(c, s, e)
    ensures ShapeOk(c, ApplyMain(c, s, e)) && Ahead(c, ApplyMain(c, s, e)) + 1 <= Ahead(c, s)
  {
    MainKeepsShape(c, s, e);
    var task := ApplyMain(c, s, e).tasks[|s.tasks|];
    NewTaskSteps(c, s, e);
    TaskSumAppend(c, s.tasks, task);
    assert |s.main.todo - {e.index}| == |s.main.todo| - 1;
  }

  lemma OutstandingCosts(c: Config, s: State, k: nat)
    requires AllAskable(c) && ShapeOk(c, s) && TargetsOk(c, s) && k < |c.entries|
    ensures IndexCosts(c, k, |s.outstanding[HashOf(c, k)]|) + 6 <= EntryCost(c, k)
  {
    SubsetCard(s.outstanding[HashOf(c, k)], IndexSet(Cf(c, k)));
    MoreIndexCosts(c, k, |s.outstanding[HashOf(c, k)]|, LastIndex(Cf(c, k)) + 1);
  }

  lemma SnapshotUsesOne(c: Config, s: State, base: set<nat>)
    requires AllAskable(c) && ShapeOk(c, s) && MainEnabled(c, s, Snapshot)
    requires base == s.outstanding[HashOf(c, |s.handles| - 1)]
    requires IndexCosts(c, |s.handles| - 1, |base|) + 6 <= EntryCost(c, |s.handles| - 1)
    ensures ShapeOk(c, ApplyMain(c, s, Snapshot)) && Ahead(c, ApplyMain(c, s, Snapshot)) + 1 <= Ahead(c, s)
  {
    MainKeepsShape(c, s, Snapshot);
    assert ApplyMain(c, s, Snapshot) == s.(main := Spawning(|s.tasks|, base, base));
  }

  lemma MainUsesOne(c: Config, s: State, e: Event)
    requires ShapeOk(c, s) && TargetsOk(c, s) && Downloadable(c) && HonestInv(c, s)
    requires MainEvent(e) && MainEnabled(c, s, e) && HonestEvent(c, s, e) && (e.Spawn? ==> Spawns(c, s, e))
    ensures ShapeOk(c, ApplyMain(c, s, e)) && Ahead(c, ApplyMain(c, s, e)) + 1 <= Ahead(c, s)
  {
    if e.Spawn? {
      SpawnUsesOne(c, s, e);
    } else if e.Snapshot? {
      SnapshotStepUsesOne(c, s);
    } else if e.Join? {
      JoinUsesOne(c, s);
    } else {
      assert !e.NoEndpoint?;
      OtherUsesOne(c, s, e);
    }
  }

  lemma SnapshotStepUsesOne(c: Config, s: State)
    requires AllAskable(c) && ShapeOk(c, s) && TargetsOk(c, s) && MainEnabled(c, s, Snapshot)
    ensures ShapeOk(c, ApplyMain(c, s, Snapshot)) && Ahead(c, ApplyMain(c, s, Snapshot)) + 1 <= Ahead(c, s)
  {
    OutstandingCosts(c, s, |s.handles| - 1);
    SnapshotUsesOne(c, s, s.outstanding[HashOf(c, |s.handles| - 1)]);
  }

  lemma JoinUsesOne(c: Config, s: State)
    requires AllAskable(c) && ShapeOk(c, s) && HonestInv(c, s) && MainEnabled(c, s, Join)
    ensures ShapeOk(c, ApplyMain(c, s, Join)) && Ahead(c, ApplyMain(c, s, Join)) + 1 <= Ahead(c, s)
  {
    JoinKeepsHonest(c, s);
  }

  lemma OtherUsesOne(c: Config, s: State, e: Event)
    requires AllAskable(c) && ShapeOk(c, s) && HonestInv(c, s)
    requires MainEvent(e) && !e.Spawn? && !e.Snapshot? && !e.Join? && !e.NoEndpoint? && !e.OpenFails?
    requires MainEnabled(c, s, e)
    ensures ShapeOk(c, ApplyMain(c, s, e)) && Ahead(c, ApplyMain(c, s, e)) + 1 <= Ahead(c, s)
  {
    MainKeepsShape(c, s, e);
  }

  lemma TaskUsesOne(c: Config, parts: seq<seq<Bytes>>, s: State, e: Event)
    requires Inv(c, parts, s) && AllAskable(c) && !MainEvent(e) && TaskEnabled(c, s, e) && HonestEvent(c, s, e)
    ensures ShapeOk(c, ApplyTask(c, s, e)) && Ahead(c, ApplyTask(c, s, e)) + 1 <= Ahead(c, s)
  {
    TaskKeepsShape(c, s, e);
    TaskKeepsTasks(c, parts, s, e);
    var s' := ApplyTask(c, s, e);
    assert RequestOk(c, s, s.tasks[e.t]) && DataOk(c, parts, s, s.tasks[e.t]);
    StepUsesOne(c, parts, s, e);
    StepsLeftNat(c, parts, s', e.t);
    assert s'.tasks[e.t].phase == NextPhase(c, s, e) && s'.tasks[e.t].entry == s.tasks[e.t].entry;
    StepShrinksAhead(c, s, s', e.t);
  }

  lemma StepShrinksAhead(c: Config, s: State, s': State, t: nat)
    requires AllAskable(c) && ShapeOk(c, s) && ShapeOk(c, s')
    requires s'.main == s.main && s'.rounds == s.rounds && |s'.handles| == |s.handles|
    requires t < |s.tasks| == |s'.tasks| && s'.tasks == s.tasks[t := s'.tasks[t]]
    requires StepsAhead(c, s'.tasks[t]) + 1 <= StepsAhead(c, s.tasks[t])
    ensures Ahead(c, s') + 1 <= Ahead(c, s)
  {
    TaskSumUpdate(c, s.tasks, t, s'.tasks[t]);
  }

  lemma StepUsesUp(c: Config, parts: seq<seq<Bytes>>, s: State, e: Event)
    requires Inv(c, parts, s) && Downloadable(c) && HonestInv(c, s) && Enabled(c, s, e) && HonestEvent(c, s, e)
    ensures ShapeOk(c, Apply(c, s, e)) && Ahead(c, Apply(c, s, e)) + 1 <= Ahead(c, s)
  {
    if MainEvent(e) {
      if e.Spawn? {
        RequestExists(c, parts, s, e);
      }
      MainUsesOne(c, s, e);
    } else {
      TaskUsesOne(c, parts, s, e);
    }
  }

  lemma {:induction false} HonestRunKeeps(c: Config, parts: seq<seq<Bytes>>, s: State, es: seq<Event>)
    requires Inv(c, parts, s) && Downloadable(c) && HonestInv(c, s) && HonestRun(c, s, es)
    ensures Exec(c, s, es).Some?
    ensures var s' := Exec(c, s, es).value;
            Inv(c, parts, s') && HonestInv(c, s') && |es| + Ahead(c, s') <= Ahead(c, s)
    decreases es
  {
    if es != [] {
      StepKeepsHonest(c, parts, s, es[0]);
      StepUsesUp(c, parts, s, es[0]);
      HonestRunKeeps(c, parts, Apply(c, s, es[0]), es[1..]);
    }
  }

  // ----- an honest run stops only in success -----

  /** There is data the task accepts. */
  lemma AcceptedData(c: Config, parts: seq<seq<Bytes>>, s: State, task: Task) returns (part: Bytes)
    requires GoodConfig(c, parts) && |s.handles| <= |c.entries| && RequestOk(c, s, task)
    ensures c.hash(part) == task.request.chunkHash
  {
    FetchablePart(c, parts, task.entry, task.index);
    part := parts[task.entry][task.index];
  }

  lemma HonestProgress(c: Config, parts: seq<seq<Bytes>>, s: State) returns (e: Event)
    requires Inv(c, parts, s) && HonestInv(c, s) && !s.main.Finished?
    ensures Enabled(c, s, e) && HonestEvent(c, s, e)
  {
    if s.main.Joining? && s.main.next < |s.tasks| && Live(s.tasks[s.main.next].phase) {
      var t := s.main.next;
      e := LiveTaskEnabled(c, parts, s, t);
      if s.tasks[t].phase.Requesting? {
        var part := AcceptedData(c, parts, s, s.tasks[t]);
        e := Reply(t, Some(part));
      }
    } else {
      e := MainEnabledOrWaits(c, s);
    }
  }

  /** After success nothing runs any more. */
  lemma NothingAfterSuccess(c: Config, s: State, e: Event)
    requires ShapeOk(c, s) && CleanOk(c, s) && s.main == Finished(true)
    ensures !Enabled(c, s, e)
  {
    if !MainEvent(e) && TaskEnabled(c, s, e) {
      assert Live(s.tasks[e.t].phase);
    }
  }

  /** In an honest run, under every schedule, no entry fails, no entry needs a second round, the steps are
      bounded by the manifest, and no step is possible exactly when the download has succeeded. */
  lemma HonestRunSucceeds(c: Config, parts: seq<seq<Bytes>>, s0: State, es: seq<Event>)
    requires GoodConfig(c, parts) && Init(c, s0) && Downloadable(c) && HonestRun(c, s0, es)
    ensures Exec(c, s0, es).Some? && |es| <= RunBound(c)
    ensures var s := Exec(c, s0, es).value;
            && s.incomplete == 0 && s.rounds <= 1 && !s.main.Crashed?
            && (s.main == Finished(true) <==> forall e :: HonestEvent(c, s, e) ==> !Enabled(c, s, e))
  {
    InitInv(c, parts, s0);
    HonestRunKeeps(c, parts, s0, es);
    var s := Exec(c, s0, es).value;
    AheadNat(c, s);
    if s.main.Finished? {
      forall e
        ensures !Enabled(c, s, e)
      {
        NothingAfterSuccess(c, s, e);
      }
    } else {
      var e := HonestProgress(c, parts, s);
      assert HonestEvent(c, s, e) && Enabled(c, s, e);
    }
  }

  /** Every honest run can be continued to a success. */
  lemma {:induction false} HonestRunEnds(c: Config, parts: seq<seq<Bytes>>, s: State) returns (es: seq<Event>, s': State)
    requires Inv(c, parts, s) && Downloadable(c) && HonestInv(c, s)
    ensures HonestRun(c, s, es) && Exec(c, s, es) == Some(s') && s'.main == Finished(true)
    decreases Ahead(c, s)
  {
    if s.main.Finished? {
      es, s' := [], s;
    } else {
      var e := HonestProgress(c, parts, s);
      StepKeepsHonest(c, parts, s, e);
      StepUsesUp(c, parts, s, e);
      AheadNat(c, s);
      AheadNat(c, Apply(c, s, e));
      var rest;
      rest, s' := HonestRunEnds(c, parts, Apply(c, s, e));
      es := [e] + rest;
    }
  }

  // ----- what a success needs -----

  /** Without an endpoint no task is spawned and no index is ever removed. */
  lemma {:induction false} NothingHappens(c: Config, s: State, es: seq<Event>)
    requires c.endpoints == [] && s.tasks == [] && Exec(c, s, es).Some?
    ensures Exec(c, s, es).value.tasks == [] && Exec(c, s, es).value.outstanding == s.outstanding
    decreases es
  {
    if es != [] {
      NothingHappens(c, Apply(c, s, es[0]), es[1..]);
    }
  }

  lemma SuccessNeedsAskable(c: Config, parts: seq<seq<Bytes>>, s0: State, es: seq<Event>, s: State)
    requires Reached(c, parts, s0, es, s) && s.main == Finished(true)
    ensures AllAskable(c)
  {
    ReachableInv(c, parts, s0, es, s);
    forall k | 0 <= k < |c.entries|
      ensures Askable(Cf(c, k))
    {
      FinishedAskable(c, parts, s, k);
    }
  }

  lemma SuccessNeedsEndpoint(c: Config, parts: seq<seq<Bytes>>, s0: State, es: seq<Event>, s: State)
    requires Reached(c, parts, s0, es, s) && s.main == Finished(true) && c.entries != []
    ensures c.endpoints != []
  {
    var k: nat := 0;
    var hash := HashOf(c, k);
    assert 0 in s0.outstanding[hash];
    ReachableInv(c, parts, s0, es, s);
    FinishedOutstanding(c, parts, s, k);
    if c.endpoints == [] {
      NothingHappens(c, s0, es);
    }
  }

  /** Some run of the download succeeds if and only if there is an endpoint to ask (or nothing to ask for)
      and every index of every entry's loop has a range that fits 64 bits and a hash. */
  lemma SuccessPossibleIff(c: Config, parts: seq<seq<Bytes>>, s0: State)
    requires GoodConfig(c, parts) && Init(c, s0)
    ensures (exists es, s :: Exec(c, s0, es) == Some(s) && s.main == Finished(true)) <==> Downloadable(c)
  {
    if es, s :| Exec(c, s0, es) == Some(s) && s.main == Finished(true) {
      SuccessNeedsAskable(c, parts, s0, es, s);
      if c.entries != [] {
        SuccessNeedsEndpoint(c, parts, s0, es, s);
      }
    }
    if Downloadable(c) {
      InitInv(c, parts, s0);
      var es, s := HonestRunEnds(c, parts, s0);
    }
  }

  // ----- what a failure was caused by -----

  ghost predicate SomeDied(s: State) {
    exists t :: 0 <= t < |s.tasks| && s.tasks[t].phase.Dead?
  }

  lemma StepKeepsDead(c: Config, s: State, e: Event)
    requires Enabled(c, s, e) && SomeDied(s)
    ensures SomeDied(Apply(c, s, e))
  {
    var t :| 0 <= t < |s.tasks| && s.tasks[t].phase.Dead?;
    assert Apply(c, s, e).tasks[t].phase.Dead?;
  }

  /** An entry fails only when there is no endpoint to ask or a task has panicked: a task that returned an
      error is retried in the next round. */
  lemma {:induction false} FailureCause(c: Config, s: State, es: seq<Event>, s': State)
    requires Exec(c, s, es) == Some(s') && (s.incomplete > 0 ==> c.endpoints == [] || SomeDied(s))
    ensures s'.incomplete > 0 ==> c.endpoints == [] || SomeDied(s')
    decreases es
  {
    if es != [] {
      if es[0].Join? && s.tasks[s.main.next].phase.Dead? {
        assert SomeDied(s);
      }
      if SomeDied(s) {
        StepKeepsDead(c, s, es[0]);
      }
      FailureCause(c, Apply(c, s, es[0]), es[1..], s');
    }
  }

  /** A download that ends without success has counted a failed entry. */
  lemma {:induction false} FinishedIncomplete(c: Config, s: State, es: seq<Event>, s': State)
    requires Exec(c, s, es) == Some(s') && (s.main.Finished? ==> s.main.ok == (s.incomplete == 0))
    ensures s'.main.Finished? ==> s'.main.ok == (s'.incomplete == 0)
    decreases es
  {
    if es != [] {
      FinishedIncomplete(c, Apply(c, s, es[0]), es[1..], s');
    }
  }

  lemma StepPanics(c: Config, s: State, e: Event)
    requires Enabled(c, s, e) && !s.main.Crashed? && !e.OpenFails? && (e.Spawn? ==> Spawns(c, s, e))
    ensures !Apply(c, s, e).main.Crashed?
  {
  }

  /** The main thread panics only when a file cannot be opened or some index has no range or no hash. */
  lemma {:induction false} CrashCause(c: Config, parts: seq<seq<Bytes>>, s: State, es: seq<Event>, s': State)
    requires Inv(c, parts, s) && AllAskable(c) && Exec(c, s, es) == Some(s') && OpenFails !in es
    requires !s.main.Crashed?
    ensures !s'.main.Crashed?
    decreases es
  {
    if es != [] {
      if es[0].Spawn? {
        RequestExists(c, parts, s, es[0]);
      }
      assert es[0] in es;
      StepPanics(c, s, es[0]);
      StepKeepsInv(c, parts, s, es[0]);
      CrashCause(c, parts, Apply(c, s, es[0]), es[1..], s');
    }
  }
}
