/**
 One task on its own: the retry loop that requests a chunk, verifies it and writes it. `replies` says
 what each request would get, and the two write parameters how seeking and writing would go.
 */
module ChunkDownload {
  import opened Basics
  import opened OutputFile
  import opened Protocol

  /** An output file with its cursor. */
  class SharedFile {
    var contents: Bytes
    var cursor: nat

    constructor (contents: Bytes)
      ensures this.contents == contents && cursor == 0
    {
      this.contents, cursor := contents, 0;
    }

    method Seek(to: nat)
      modifies this
      ensures cursor == to && contents == old(contents)
    {
      cursor := to;
    }

    /** Writes all the data, or only `limit` bytes of it and reports the error. */
    method WriteAll(data: Bytes, limit: Option<nat>) returns (ok: bool)
      modifies this
      ensures ok <==> limit.None? || limit.value >= |data|
      ensures var written := if ok then data else data[..limit.value];
              contents == WriteAt(old(contents), old(cursor), written) && cursor == old(cursor) + |written|
    {
      ok := limit.None? || limit.value >= |data|;
      var written := if ok then data else data[..limit.value];
      contents := WriteAt(contents, cursor, written);
      cursor := cursor + |written|;
    }
  }

  /** The phase in which the retry loop ends, and the requests it has sent by then. */
  function RequestLoop(hash: Hasher, request: Request, replies: seq<Option<Bytes>>, attempts: nat): (Phase, nat)
    requires attempts < |replies| && request.maxRetry <= |replies|
    decreases |replies| - attempts
  {
    var phase := OnReply(hash, request, attempts, replies[attempts]);
    if phase.Requesting? then RequestLoop(hash, request, replies, attempts + 1) else (phase, attempts + 1)
  }

  /** Verified data has been written completely. */
  predicate Succeeds(phase: Phase, seekOk: bool, writeLimit: Option<nat>) {
    phase.Verified? && seekOk && (writeLimit.None? || writeLimit.value >= |phase.data|)
  }

  /** The file after a task: as it was, or with the verified data, or what could be written of it, in its place. */
  function AfterTask(contents: Bytes, start: nat, phase: Phase, seekOk: bool, writeLimit: Option<nat>): Bytes {
    if !phase.Verified? || !seekOk then contents
    else if Succeeds(phase, seekOk, writeLimit) then WriteAt(contents, start, phase.data)
    else WriteAt(contents, start, phase.data[..writeLimit.value])
  }

  method DownloadChunkAndWriteToFile(hash: Hasher, request: Request, replies: seq<Option<Bytes>>,
                                     file: SharedFile, seekOk: bool, writeLimit: Option<nat>)
    returns (r: Outcome<()>, sent: nat)
    requires Max(1, request.maxRetry) <= |replies|
    modifies file
    ensures var (phase, requests) := RequestLoop(hash, request, replies, 0);
            && 0 < sent == requests <= Max(1, request.maxRetry)
            && (r.Ok? <==> phase.Verified? && seekOk && (writeLimit.None? || writeLimit.value >= |phase.data|))
            && file.contents ==
                 (if !phase.Verified? || !seekOk then old(file.contents)
                  else if r.Ok? then WriteAt(old(file.contents), request.start, phase.data)
                  else WriteAt(old(file.contents), request.start, phase.data[..writeLimit.value]))
            && (r.Err? ==> r.error == if phase.Verified? then FileIOError
                                      else if replies[sent - 1].Some? then ChunkInvalid
                                      else DataUnavailable)
    ensures !r.Panic?
  {
    var attempts := 0;
    while true
      invariant attempts < Max(1, request.maxRetry)
      invariant RequestLoop(hash, request, replies, attempts) == RequestLoop(hash, request, replies, 0)
      invariant file.contents == old(file.contents)
      invariant forall i :: 0 <= i < attempts ==> replies[i].None?
      decreases Max(1, request.maxRetry) - attempts
    {
      match replies[attempts] {
        case Some(data) =>
          sent := attempts + 1;
          if hash(data) != request.chunkHash {
            return Err(ChunkInvalid), sent;
          }
          if !seekOk {
            return Err(FileIOError), sent;
          }
          file.Seek(request.start);
          var written := file.WriteAll(data, writeLimit);
          return if written then Ok(()) else Err(FileIOError), sent;
        case None =>
          attempts := attempts + 1;
          if attempts >= request.maxRetry {
            return Err(DataUnavailable), attempts;
          }
      }
    }
  }

  /** The loop verifies data exactly when the first reply that is no error comes within the allowed
      number of requests and has the expected hash; it sends one request more than there were errors. */
  lemma {:induction false} RequestLoopIff(hash: Hasher, request: Request, replies: seq<Option<Bytes>>, attempts: nat, j: nat)
    requires attempts < Max(1, request.maxRetry) <= |replies|
    requires attempts <= j < Max(1, request.maxRetry) && forall i :: attempts <= i < j ==> replies[i].None?
    requires replies[j].Some? || j == Max(1, request.maxRetry) - 1
    ensures RequestLoop(hash, request, replies, attempts) ==
            (if replies[j].Some? && hash(replies[j].value) == request.chunkHash then Verified(replies[j].value) else Failing,
             j + 1)
    decreases j - attempts
  {
    if attempts < j {
      RequestLoopIff(hash, request, replies, attempts + 1, j);
    }
  }

  /** The events by which a task goes through the replies. */
  function ReplyEvents(t: nat, replies: seq<Option<Bytes>>, lo: nat, hi: nat): seq<Event>
    requires lo <= hi <= |replies|
    decreases hi - lo
  {
    if lo == hi then [] else [Reply(t, replies[lo])] + ReplyEvents(t, replies, lo + 1, hi)
  }

  lemma ReplyStep(c: Config, s: State, t: nat, reply: Option<Bytes>)
    requires TaskEnabled(c, s, Reply(t, None))
    ensures Enabled(c, s, Reply(t, reply))
    ensures var (r, task) := (Apply(c, s, Reply(t, reply)), s.tasks[t]);
            var phase := OnReply(c.hash, task.request, task.phase.attempts, reply);
            && r == s.(tasks := s.tasks[t := task.(phase := phase, requests := task.requests + 1)])
            && (phase.Requesting? ==> TaskEnabled(c, r, Reply(t, None)))
  {
    var r, task := Apply(c, s, Reply(t, reply)), s.tasks[t];
    assert r.handles == s.handles && r.files == s.files;
    assert r.outstanding == s.outstanding && r.blocklist == s.blocklist;
  }

  /** The step machine's task goes through the loop's phases and sends the loop's requests, and nothing else
      changes. */
  lemma {:induction false} LoopIsProtocol(c: Config, s: State, t: nat, replies: seq<Option<Bytes>>)
    requires TaskEnabled(c, s, Reply(t, None)) && s.tasks[t].phase.attempts == s.tasks[t].requests
    requires s.tasks[t].requests < |replies| && s.tasks[t].request.maxRetry <= |replies|
    ensures var (phase, sent) := RequestLoop(c.hash, s.tasks[t].request, replies, s.tasks[t].requests);
            && s.tasks[t].requests <= sent <= |replies|
            && Exec(c, s, ReplyEvents(t, replies, s.tasks[t].requests, sent))
               == Some(s.(tasks := s.tasks[t := s.tasks[t].(phase := phase, requests := sent)]))
    decreases |replies| - s.tasks[t].requests
  {
    var n := s.tasks[t].requests;
    var e := Reply(t, replies[n]);
    ReplyStep(c, s, t, replies[n]);
    var r := Apply(c, s, e);
    assert r.tasks[t].request == s.tasks[t].request && r.tasks[t].requests == n + 1;
    if r.tasks[t].phase.Requesting? {
      LoopIsProtocol(c, r, t, replies);
      var (phase, sent) := RequestLoop(c.hash, s.tasks[t].request, replies, n);
      var last := s.tasks[t].(phase := phase, requests := sent);
      assert r.tasks[t := last] == s.tasks[t := last];
      assert ReplyEvents(t, replies, n, sent)[1..] == ReplyEvents(t, replies, n + 1, sent);
    } else {
      assert ReplyEvents(t, replies, n, n + 1) == [e];
      assert Exec(c, r, []) == Some(r);
    }
  }

  // ----- a whole task -----

  /** The task's file is open and there. */
  predicate OnFile(c: Config, s: State, t: nat) {
    t < |s.tasks| && s.tasks[t].entry < |s.handles| <= |c.entries| && Name(c, s.tasks[t].entry) in s.files
  }

  /** A step of the task, and what it changes. */
  lemma OwnStep(c: Config, s0: State, es: seq<Event>, s: State, e: Event) returns (fs: seq<Event>, s': State)
    requires Exec(c, s0, es) == Some(s) && !MainEvent(e) && TaskEnabled(c, s, e)
    ensures Exec(c, s0, fs) == Some(s') && OnFile(c, s', e.t)
    ensures s'.tasks == s.tasks[e.t := s.tasks[e.t].(phase := NextPhase(c, s, e),
                                                     requests := s.tasks[e.t].requests + if e.Reply? then 1 else 0)]
    ensures s'.handles == s.handles[s.tasks[e.t].entry := NextHandle(c, s, e)]
    ensures s'.files == s.files[Name(c, s.tasks[e.t].entry) := NextFile(c, s, e)]
  {
    ExecStep(c, s0, es, s, e);
    fs, s' := es + [e], ApplyTask(c, s, e);
  }

  /** Writes the first n bytes of the data, in one step or, if there are none, in no step. */
  lemma WriteSome(c: Config, s0: State, es: seq<Event>, s: State, t: nat, n: nat) returns (fs: seq<Event>, s': State)
    requires Exec(c, s0, es) == Some(s) && OnFile(c, s, t)
    requires s.tasks[t].phase.Writing? && s.tasks[t].phase.done == 0 && n <= |s.tasks[t].phase.data|
    ensures Exec(c, s0, fs) == Some(s') && OnFile(c, s', t)
    ensures s'.tasks == s.tasks[t := s.tasks[t].(phase := Writing(s.tasks[t].phase.data, n))]
    ensures s'.files == s.files[Name(c, s.tasks[t].entry) :=
              WriteAt(s.files[Name(c, s.tasks[t].entry)], s.handles[s.tasks[t].entry].cursor, s.tasks[t].phase.data[..n])]
  {
    if n == 0 {
      fs, s' := es, s;
    } else {
      fs, s' := OwnStep(c, s0, es, s, Write(t, n));
      assert s.tasks[t].phase.data[0..0 + n] == s.tasks[t].phase.data[..n];
    }
  }

  /** From verified data to the start of the write, or to its failure. */
  lemma TakeAndSeek(c: Config, s0: State, es: seq<Event>, s: State, t: nat, seekOk: bool)
    returns (fs: seq<Event>, s': State)
    requires Exec(c, s0, es) == Some(s) && OnFile(c, s, t)
    requires s.tasks[t].phase.Verified? && s.handles[s.tasks[t].entry].owner.None?
    ensures Exec(c, s0, fs) == Some(s') && OnFile(c, s', t)
    ensures var phase := if seekOk then Writing(s.tasks[t].phase.data, 0) else Failing;
            s'.tasks == s.tasks[t := s.tasks[t].(phase := phase)]
    ensures s'.files == s.files
    ensures seekOk ==> s'.handles[s.tasks[t].entry].cursor == s.tasks[t].request.start
  {
    fs, s' := OwnStep(c, s0, es, s, Acquire(t));
    fs, s' := OwnStep(c, s0, fs, s', Seek(t, seekOk));
    assert s'.files == s.files;
  }

  /** From verified data to the end of the task. */
  lemma WriteIsProtocol(c: Config, s0: State, es: seq<Event>, s: State, t: nat, seekOk: bool, writeLimit: Option<nat>)
    returns (fs: seq<Event>, s': State)
    requires Exec(c, s0, es) == Some(s) && OnFile(c, s, t)
    requires s.tasks[t].phase.Verified? && s.handles[s.tasks[t].entry].owner.None?
    ensures Exec(c, s0, fs) == Some(s')
    ensures s'.tasks == s.tasks[t := s.tasks[t].(phase := Ended(Succeeds(s.tasks[t].phase, seekOk, writeLimit)))]
    ensures s'.files == s.files[Name(c, s.tasks[t].entry) :=
              AfterTask(s.files[Name(c, s.tasks[t].entry)], s.tasks[t].request.start, s.tasks[t].phase, seekOk, writeLimit)]
  {
    fs, s' := TakeAndSeek(c, s0, es, s, t, seekOk);
    if !seekOk {
      fs, s' := OwnStep(c, s0, fs, s', Block(t));
    } else if writeLimit.None? || writeLimit.value >= |s.tasks[t].phase.data| {
      fs, s' := WriteAll(c, s0, fs, s', t);
    } else {
      fs, s' := WriteTooLittle(c, s0, fs, s', t, writeLimit.value);
    }
  }

  lemma WriteAll(c: Config, s0: State, es: seq<Event>, s: State, t: nat) returns (fs: seq<Event>, s': State)
    requires Exec(c, s0, es) == Some(s) && OnFile(c, s, t)
    requires s.tasks[t].phase.Writing? && s.tasks[t].phase.done == 0
    ensures Exec(c, s0, fs) == Some(s')
    ensures s'.tasks == s.tasks[t := s.tasks[t].(phase := Ended(true))]
    ensures s'.files == s.files[Name(c, s.tasks[t].entry) :=
              WriteAt(s.files[Name(c, s.tasks[t].entry)], s.handles[s.tasks[t].entry].cursor, s.tasks[t].phase.data)]
  {
    var data := s.tasks[t].phase.data;
    fs, s' := WriteSome(c, s0, es, s, t, |data|);
    assert data[..|data|] == data;
    fs, s' := OwnStep(c, s0, fs, s', Release(t));
    fs, s' := OwnStep(c, s0, fs, s', Remove(t));
  }

  lemma WriteTooLittle(c: Config, s0: State, es: seq<Event>, s: State, t: nat, n: nat) returns (fs: seq<Event>, s': State)
    requires Exec(c, s0, es) == Some(s) && OnFile(c, s, t)
    requires s.tasks[t].phase.Writing? && s.tasks[t].phase.done == 0 && n < |s.tasks[t].phase.data|
    ensures Exec(c, s0, fs) == Some(s')
    ensures s'.tasks == s.tasks[t := s.tasks[t].(phase := Ended(false))]
    ensures s'.files == s.files[Name(c, s.tasks[t].entry) :=
              WriteAt(s.files[Name(c, s.tasks[t].entry)], s.handles[s.tasks[t].entry].cursor, s.tasks[t].phase.data[..n])]
  {
    fs, s' := WriteSome(c, s0, es, s, t, n);
    fs, s' := OwnStep(c, s0, fs, s', WriteFails(t));
    fs, s' := OwnStep(c, s0, fs, s', Block(t));
  }

  /** A task that finds its file's lock free does in the step machine what the method does: it sends as many
      requests, ends in success exactly when the method returns Ok, and leaves the same file. */
  lemma TaskIsProtocol(c: Config, s: State, t: nat, replies: seq<Option<Bytes>>, seekOk: bool, writeLimit: Option<nat>)
    returns (es: seq<Event>, s': State)
    requires OnFile(c, s, t) && s.tasks[t].phase == Requesting(0) && s.tasks[t].requests == 0
    requires s.handles[s.tasks[t].entry].owner.None? && Max(1, s.tasks[t].request.maxRetry) <= |replies|
    ensures Exec(c, s, es) == Some(s')
    ensures var (phase, sent) := RequestLoop(c.hash, s.tasks[t].request, replies, 0);
            var name := Name(c, s.tasks[t].entry);
            && s'.tasks == s.tasks[t := s.tasks[t].(phase := Ended(Succeeds(phase, seekOk, writeLimit)), requests := sent)]
            && s'.files == s.files[name := AfterTask(s.files[name], s.tasks[t].request.start, phase, seekOk, writeLimit)]
  {
    LoopIsProtocol(c, s, t, replies);
    var (phase, sent) := RequestLoop(c.hash, s.tasks[t].request, replies, 0);
    LoopEnds(c.hash, s.tasks[t].request, replies, 0);
    es := ReplyEvents(t, replies, 0, sent);
    s' := s.(tasks := s.tasks[t := s.tasks[t].(phase := phase, requests := sent)]);
    if phase.Verified? {
      es, s' := WriteIsProtocol(c, s, es, s', t, seekOk, writeLimit);
    } else {
      es, s' := OwnStep(c, s, es, s', Block(t));
    }
  }

  lemma {:induction false} LoopEnds(hash: Hasher, request: Request, replies: seq<Option<Bytes>>, attempts: nat)
    requires attempts < |replies| && request.maxRetry <= |replies|
    ensures var phase := RequestLoop(hash, request, replies, attempts).0;
            phase.Verified? || phase.Failing?
    decreases |replies| - attempts
  {
    if OnReply(hash, request, attempts, replies[attempts]).Requesting? {
      LoopEnds(hash, request, replies, attempts + 1);
    }
  }
}
