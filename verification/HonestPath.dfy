/**
 From publisher to downloader: what an honest server answers to the requests the downloader builds.
 */
module HonestPath {
  import opened Admin
  import opened Arithmetic
  import opened Assembly
  import opened Basics
  import opened ChunkFiles
  import opened Entries
  import opened FileReader
  import opened Finder
  import opened Protocol
  import opened ProtocolInvariant
  import opened ProtocolProgress
  import opened ProtocolResults
  import opened ProtocolSuccess
  import opened RangeHeader
  import opened Serving
  import opened Text
  import opened Urls
  import opened Validation

  /** The request as it reaches the server at `url`. */
  function HttpRequest(url: string, request: Request, authToken: string): FileRequest
    requires url <= request.queryEndpoint
  {
    FileRequest(request.queryEndpoint[|url|..], Some(authToken), Some(request.fileHash),
                Some(RangeText(request.start, request.end)))
  }

  /** A server that keeps its keys in order serves the downloader's subfile, admits its token, and has
      validated its local copy. */
  ghost predicate HonestServer(c: Config, served: Served, token: Option<string>, disk: Disk, authToken: string) {
    && KeysOk(served)
    && c.subfileId in served
    && served[c.subfileId].chunkFiles == c.entries
    && ValidateSubfile(c.hash, disk, served[c.subfileId]).Ok?
    && Authorized(token, Some(authToken))
  }

  /** A validated file's every index has a request, and the bytes in its range have the expected hash. */
  lemma ValidatedIndex(h: Hasher, disk: Disk, localPath: string, meta: ChunkFileMeta, i: nat)
    requires ValidateFile(h, disk, localPath, meta).Ok?
    requires meta.chunkFile.chunkSize > 0 && i <= LastIndex(meta.chunkFile)
    ensures ChunkRange(meta.chunkFile, i).Ok? && i < |meta.chunkFile.chunkHashes|
    ensures var (start, end) := ChunkRange(meta.chunkFile, i).value;
            var data := FileSlice(disk, PathPush(localPath, meta.metaInfo.name), start, end);
            data.Ok? && h(data.value) == meta.chunkFile.chunkHashes[i]
  {
    var path := PathPush(localPath, meta.metaInfo.name);
    ValidateFromOkIff(h, disk, path, meta.chunkFile, 0);
    assert CheckChunk(h, disk, path, meta.chunkFile, i).Ok?;
  }

  /** The server finds, under a request's file hash, a file with the same record. */
  lemma FoundRecord(metas: seq<ChunkFileMeta>, k: nat)
    requires k < |metas| && SameHashSameRecord(metas)
    ensures var found := FindChunkFile(metas, metas[k].metaInfo.hash);
            found.Some? && found.value in metas && found.value.chunkFile == metas[k].chunkFile
  {
  }

  /** The server finds the subfile's identifier and the range in the request that the downloader builds. */
  lemma RequestRouted(c: Config, meta: ChunkFileMeta, i: nat, endpoint: IndexerEndpoint, authToken: string)
    requires DownloadRangeRequest(c, meta, i, endpoint).Ok? && ValidIpfsHash(c.subfileId)
    ensures var request := DownloadRangeRequest(c, meta, i, endpoint).value;
            && endpoint.url <= request.queryEndpoint
            && var received := HttpRequest(endpoint.url, request, authToken);
               && TrimStartMatches(received.path, ROUTE) == c.subfileId
               && received.authorization == Some(authToken) && received.fileHash == Some(meta.metaInfo.hash)
               && received.contentRange.Some?
               && ParseRangeHeader(received.contentRange.value) == Ok((request.start, request.end))
  {
    var request := DownloadRangeRequest(c, meta, i, endpoint).value;
    RequestExact(c, meta, i, endpoint);
    assert request.queryEndpoint[|endpoint.url|..] == ROUTE + c.subfileId;
    IdIsNoRoute(c.subfileId);
    RoutedId(c.subfileId, 1);
    RangeRoundTrip(request.start, request.end);
  }

  /** Every request the downloader can build is parsed and answered by an honest server with bytes that
      the downloader accepts and verifies. */
  lemma HonestReply(c: Config, served: Served, token: Option<string>, disk: Disk, authToken: string,
                    k: nat, i: nat, endpoint: IndexerEndpoint)
    requires HonestServer(c, served, token, disk, authToken)
    requires k < |c.entries| && c.entries[k].chunkFile.chunkSize > 0 && i <= LastIndex(c.entries[k].chunkFile)
    ensures DownloadRangeRequest(c, c.entries[k], i, endpoint).Ok?
    ensures endpoint.url <= DownloadRangeRequest(c, c.entries[k], i, endpoint).value.queryEndpoint
    ensures var request := DownloadRangeRequest(c, c.entries[k], i, endpoint).value;
            var response := FileService(served, token, disk, HttpRequest(endpoint.url, request, authToken));
            var body := AcceptedBody(response);
            && response.Ok? && response.value.status == 206
            && body.Some? && |body.value| == request.end - request.start + 1
            && c.hash(body.value) == request.chunkHash
            && forall attempts: nat :: OnReply(c.hash, request, attempts, body) == Verified(body.value)
  {
    var subfile := served[c.subfileId];
    FoundRecord(c.entries, k);
    var found := FindChunkFile(c.entries, c.entries[k].metaInfo.hash).value;
    ValidateSubfileOkIff(c.hash, disk, subfile, 0);
    var j :| 0 <= j < |c.entries| && c.entries[j] == found;
    assert ValidateFile(c.hash, disk, subfile.localPath, subfile.chunkFiles[j]).Ok?;
    ValidatedIndex(c.hash, disk, subfile.localPath, found, i);
    var request := DownloadRangeRequest(c, c.entries[k], i, endpoint).value;
    RequestRouted(c, c.entries[k], i, endpoint, authToken);
    ServerAgreesWithValidator(disk, PathPush(subfile.localPath, found.metaInfo.name), request.start, request.end);
  }

  /** In every reachable state a task about to send a request has an endpoint to send it to, and gets from an
      honest server there a reply it accepts. */
  lemma HonestServerReply(c: Config, parts: seq<seq<Bytes>>, s0: State, es: seq<Event>, s: State, served: Served,
                          token: Option<string>, disk: Disk, authToken: string, t: nat) returns (e: IndexerEndpoint)
    requires Reached(c, parts, s0, es, s) && HonestServer(c, served, token, disk, authToken)
    requires t < |s.tasks| && s.tasks[t].phase.Requesting?
    ensures Asked(c, s.tasks[t].request, e) && e.url <= s.tasks[t].request.queryEndpoint
    ensures var request := HttpRequest(e.url, s.tasks[t].request, authToken);
            var reply := Reply(t, AcceptedBody(FileService(served, token, disk, request)));
            Enabled(c, s, reply) && HonestEvent(c, s, reply)
  {
    ReachableInv(c, parts, s0, es, s);
    ReachableEndpoints(c, s0, es, s);
    assert AskedSomewhere(c, s.tasks[t].request);
    e :| Asked(c, s.tasks[t].request, e);
    HonestTaskReply(c, parts, s, served, token, disk, authToken, t, e);
  }

  lemma {:induction false} ReachableEndpoints(c: Config, s: State, es: seq<Event>, s': State)
    requires FromEndpoints(c, s) && Exec(c, s, es) == Some(s')
    ensures FromEndpoints(c, s')
    decreases es
  {
    if es != [] {
      StepKeepsEndpoints(c, s, es[0]);
      ReachableEndpoints(c, Apply(c, s, es[0]), es[1..], s');
    }
  }

  lemma HonestTaskReply(c: Config, parts: seq<seq<Bytes>>, s: State, served: Served, token: Option<string>, disk: Disk,
                        authToken: string, t: nat, e: IndexerEndpoint)
    requires Inv(c, parts, s) && HonestServer(c, served, token, disk, authToken)
    requires t < |s.tasks| && s.tasks[t].phase.Requesting? && Asked(c, s.tasks[t].request, e)
    ensures e.url <= s.tasks[t].request.queryEndpoint
    ensures var request := HttpRequest(e.url, s.tasks[t].request, authToken);
            var reply := Reply(t, AcceptedBody(FileService(served, token, disk, request)));
            Enabled(c, s, reply) && HonestEvent(c, s, reply)
  {
    var task := s.tasks[t];
    assert RequestOk(c, s, task);
    RequestExact(c, c.entries[task.entry], task.index, e);
    HonestReply(c, served, token, disk, authToken, task.entry, task.index, e);
    assert task.request == DownloadRangeRequest(c, c.entries[task.entry], task.index, e).value;
  }

  /** An honest server can only have validated a file whose record is one of whole chunks and servable. */
  lemma HonestServerWhole(c: Config, parts: seq<seq<Bytes>>, served: Served, token: Option<string>, disk: Disk,
                          authToken: string, k: nat)
    requires GoodConfig(c, parts) && HonestServer(c, served, token, disk, authToken) && k < |c.entries|
    ensures Askable(Cf(c, k)) && Servable(Cf(c, k))
    ensures parts[k] == Chunks(Flatten(parts[k]), Cf(c, k).chunkSize)
    ensures Whole(Cf(c, k), parts[k]) == Flatten(parts[k])
  {
    var subfile := served[c.subfileId];
    ValidateSubfileOkIff(c.hash, disk, subfile, 0);
    assert ValidateFile(c.hash, disk, subfile.localPath, subfile.chunkFiles[k]).Ok?;
    assert Recorded(c.hash, Cf(c, k), parts[k]) && PartsCollisionFree(c.hash, parts[k]);
    ValidatedIsWhole(c.hash, disk, subfile.localPath, subfile.chunkFiles[k], parts[k]);
  }

  lemma ValidatedPart(h: Hasher, disk: Disk, localPath: string, meta: ChunkFileMeta, parts: seq<Bytes>, i: nat)
    requires ValidateFile(h, disk, localPath, meta).Ok?
    requires Recorded(h, meta.chunkFile, parts) && PartsCollisionFree(h, parts) && i <= LastIndex(meta.chunkFile)
    ensures Fetchable(meta.chunkFile, i) && i < |parts|
    ensures var (start, end) := ChunkRange(meta.chunkFile, i).value;
            start <= end && |parts[i]| == end + 1 - start
  {
    ValidatedIndex(h, disk, localPath, meta, i);
  }

  /** Part i of a validated file is as long as chunk i, so the parts are the chunks. */
  lemma ValidatedIsWhole(h: Hasher, disk: Disk, localPath: string, meta: ChunkFileMeta, parts: seq<Bytes>)
    requires ValidateFile(h, disk, localPath, meta).Ok?
    requires Recorded(h, meta.chunkFile, parts) && PartsCollisionFree(h, parts)
    ensures Askable(meta.chunkFile) && Servable(meta.chunkFile)
    ensures parts == Chunks(Flatten(parts), meta.chunkFile.chunkSize)
    ensures Whole(meta.chunkFile, parts) == Flatten(parts)
  {
    var cf, p := meta.chunkFile, Flatten(parts);
    FlattenLength(parts);
    ValidatedPart(h, disk, localPath, meta, parts, LastIndex(cf));
    LastRangeServable(cf);
    forall i: nat | i < LastIndex(cf)
      ensures |parts[i]| == cf.chunkSize
    {
      ValidatedPart(h, disk, localPath, meta, parts, i);
      RangesPartition(cf, i);
      MulNext(i, cf.chunkSize);
    }
    RangesPartition(cf, LastIndex(cf));
    LastPartEnds(cf, parts);
    CutIsChunksIff(parts, p, cf.chunkSize);
    ChunksReassembleIff(cf, p);
    ReassemblesIff(cf, parts, p);
  }

  /** If the last range is not empty, the record is servable. */
  lemma LastRangeServable(cf: ChunkFile)
    requires cf.chunkSize > 0 && Fetchable(cf, LastIndex(cf))
    requires ChunkRange(cf, LastIndex(cf)).value.0 <= ChunkRange(cf, LastIndex(cf)).value.1
    ensures Servable(cf)
  {
    LastRangeNonEmptyIff(cf);
  }

  /** The reply is what some honest server, at the endpoint asked, answers to the request of task t. */
  ghost predicate ServedReply(c: Config, s: State, t: nat, reply: Option<Bytes>)
    requires t < |s.tasks|
  {
    exists e, served, token, disk, authToken ::
      && Asked(c, s.tasks[t].request, e) && e.url <= s.tasks[t].request.queryEndpoint
      && HonestServer(c, served, token, disk, authToken)
      && reply == AcceptedBody(FileService(served, token, disk, HttpRequest(e.url, s.tasks[t].request, authToken)))
  }

  /** A run that only honest servers answer, with files that open and can be written. */
  ghost predicate ServedRun(c: Config, s: State, es: seq<Event>)
    decreases es
  {
    es != [] ==>
      && Enabled(c, s, es[0])
      && !es[0].OpenFails? && !es[0].Die? && !es[0].WriteFails? && (es[0].Seek? ==> es[0].success)
      && (es[0].Reply? ==> ServedReply(c, s, es[0].t, es[0].reply))
      && ServedRun(c, Apply(c, s, es[0]), es[1..])
  }

  lemma {:induction false} ServedRunHonest(c: Config, parts: seq<seq<Bytes>>, s: State, es: seq<Event>)
    requires Inv(c, parts, s) && ServedRun(c, s, es)
    ensures HonestRun(c, s, es)
    decreases es
  {
    if es != [] {
      if es[0].Reply? {
        var request := s.tasks[es[0].t].request;
        var e, served, token, disk, authToken :| Asked(c, request, e) && e.url <= request.queryEndpoint
          && HonestServer(c, served, token, disk, authToken)
          && es[0].reply == AcceptedBody(FileService(served, token, disk, HttpRequest(e.url, request, authToken)));
        HonestTaskReply(c, parts, s, served, token, disk, authToken, es[0].t, e);
      }
      StepKeepsInv(c, parts, s, es[0]);
      ServedRunHonest(c, parts, Apply(c, s, es[0]), es[1..]);
    }
  }

  /** What a successful download leaves where an honest server serves the manifest. */
  lemma HonestServerLeaves(c: Config, parts: seq<seq<Bytes>>, s0: State, es: seq<Event>, s: State,
                           served: Served, token: Option<string>, disk: Disk, authToken: string, k: nat)
    requires GoodConfig(c, parts) && Init(c, s0) && k < |c.entries|
    requires Exec(c, s0, es) == Some(s) && s.main == Finished(true)
    requires HonestServer(c, served, token, disk, authToken)
    ensures Name(c, k) in s.files
    ensures s.files[Name(c, k)] == if FirstOfHash(c, LastWriter(c, k)) then Flatten(parts[LastWriter(c, k)]) else []
  {
    SuccessLeaves(c, parts, s0, es, s, k);
    HonestServerWhole(c, parts, served, token, disk, authToken, LastWriter(c, k));
  }

  lemma HonestServerAskable(c: Config, parts: seq<seq<Bytes>>, served: Served, token: Option<string>, disk: Disk,
                            authToken: string)
    requires GoodConfig(c, parts) && HonestServer(c, served, token, disk, authToken)
    ensures AllAskable(c)
  {
    forall k | 0 <= k < |c.entries|
      ensures Askable(Cf(c, k))
    {
      HonestServerWhole(c, parts, served, token, disk, authToken, k);
    }
  }

  /** A download answered by honest servers only, of which there may be many: under every schedule no entry
      fails, the steps are bounded, and it stops exactly when it has succeeded; then each name holds the
      published content of the last entry with that name, or nothing if an earlier entry had the same hash. */
  lemma ServedRunSucceeds(c: Config, parts: seq<seq<Bytes>>, s0: State, es: seq<Event>, s: State,
                          served: Served, token: Option<string>, disk: Disk, authToken: string)
    requires GoodConfig(c, parts) && Init(c, s0) && c.endpoints != []
    requires HonestServer(c, served, token, disk, authToken) && ServedRun(c, s0, es)
    requires Exec(c, s0, es) == Some(s)
    ensures AllAskable(c) && |es| <= RunBound(c)
    ensures s.incomplete == 0
    ensures s.main == Finished(true) <==> forall e :: HonestEvent(c, s, e) ==> !Enabled(c, s, e)
    ensures s.main == Finished(true) ==>
              forall k :: 0 <= k < |c.entries| ==>
                && Name(c, k) in s.files
                && s.files[Name(c, k)] == if FirstOfHash(c, LastWriter(c, k)) then Flatten(parts[LastWriter(c, k)]) else []
  {
    HonestServerAskable(c, parts, served, token, disk, authToken);
    InitInv(c, parts, s0);
    ServedRunHonest(c, parts, s0, es);
    HonestRunSucceeds(c, parts, s0, es);
    if s.main == Finished(true) {
      forall k | 0 <= k < |c.entries|
        ensures Name(c, k) in s.files
        ensures s.files[Name(c, k)] == if FirstOfHash(c, LastWriter(c, k)) then Flatten(parts[LastWriter(c, k)]) else []
      {
        HonestServerLeaves(c, parts, s0, es, s, served, token, disk, authToken, k);
      }
    }
  }

  /** Every state of an honest run can be continued to success with an honest server's replies alone. */
  lemma {:induction false} ServedRunEnds(c: Config, parts: seq<seq<Bytes>>, s: State, served: Served,
                                         token: Option<string>, disk: Disk, authToken: string)
    returns (es: seq<Event>, s': State)
    requires Inv(c, parts, s) && Downloadable(c) && HonestInv(c, s) && FromEndpoints(c, s)
    requires HonestServer(c, served, token, disk, authToken)
    ensures ServedRun(c, s, es) && Exec(c, s, es) == Some(s') && s'.main == Finished(true)
    decreases Ahead(c, s)
  {
    if s.main.Finished? {
      es, s' := [], s;
    } else {
      var e := ServedProgress(c, parts, s, served, token, disk, authToken);
      StepKeepsHonest(c, parts, s, e);
      StepKeepsEndpoints(c, s, e);
      StepUsesUp(c, parts, s, e);
      AheadNat(c, s);
      AheadNat(c, Apply(c, s, e));
      var rest;
      rest, s' := ServedRunEnds(c, parts, Apply(c, s, e), served, token, disk, authToken);
      es := [e] + rest;
    }
  }

  lemma ServedProgress(c: Config, parts: seq<seq<Bytes>>, s: State, served: Served, token: Option<string>, disk: Disk,
                       authToken: string) returns (e: Event)
    requires Inv(c, parts, s) && HonestInv(c, s) && FromEndpoints(c, s) && !s.main.Finished?
    requires HonestServer(c, served, token, disk, authToken)
    ensures Enabled(c, s, e) && HonestEvent(c, s, e)
    ensures e.Reply? ==> ServedReply(c, s, e.t, e.reply)
  {
    e := HonestProgress(c, parts, s);
    if e.Reply? {
      var t := e.t;
      assert AskedSomewhere(c, s.tasks[t].request);
      var endpoint :| Asked(c, s.tasks[t].request, endpoint);
      HonestTaskReply(c, parts, s, served, token, disk, authToken, t, endpoint);
      var request := HttpRequest(endpoint.url, s.tasks[t].request, authToken);
      e := Reply(t, AcceptedBody(FileService(served, token, disk, request)));
    }
  }

  lemma IdIsNoRoute(id: string)
    requires ValidIpfsHash(id)
    ensures !(ROUTE <= id)
  {
    assert id[0] == 'Q' && ROUTE[0] == '/';
  }

  /** All the way: files published in whole chunks and servable, a server whose local files begin with the
      published contents. Then the server validates, and answers each request with the published chunk. */
  lemma PublishedIsServed(c: Config, pub: seq<Bytes>, served: Served, token: Option<string>, disk: Disk,
                          authToken: string, k: nat, i: nat, endpoint: IndexerEndpoint)
    requires |pub| == |c.entries|
    requires forall j :: 0 <= j < |c.entries| ==>
               && Published(c.hash, c.entries[j].chunkFile, pub[j])
               && CollisionFree(c.hash, c.entries[j].chunkFile.chunkSize, pub[j])
    requires KeysOk(served) && c.subfileId in served && served[c.subfileId].chunkFiles == c.entries
    requires Authorized(token, Some(authToken))
    requires forall j :: 0 <= j < |c.entries| ==>
               && Servable(c.entries[j].chunkFile)
               && var path := PathPush(served[c.subfileId].localPath, c.entries[j].metaInfo.name);
                  path in disk && pub[j] <= disk[path]
    requires k < |c.entries| && c.entries[k].chunkFile.chunkSize > 0 && i <= LastIndex(c.entries[k].chunkFile)
    ensures DownloadRangeRequest(c, c.entries[k], i, endpoint).Ok?
    ensures endpoint.url <= DownloadRangeRequest(c, c.entries[k], i, endpoint).value.queryEndpoint
    ensures var request := DownloadRangeRequest(c, c.entries[k], i, endpoint).value;
            AcceptedBody(FileService(served, token, disk, HttpRequest(endpoint.url, request, authToken)))
              == Some(Chunk(pub[k], c.entries[k].chunkFile.chunkSize, i))
  {
    var subfile := served[c.subfileId];
    ValidateSubfileOkIff(c.hash, disk, subfile, 0);
    forall j | 0 <= j < |c.entries|
      ensures ValidateFile(c.hash, disk, subfile.localPath, subfile.chunkFiles[j]).Ok?
    {
      ValidatorExact(c.hash, disk, subfile.localPath, subfile.chunkFiles[j], pub[j]);
    }
    HonestReply(c, served, token, disk, authToken, k, i, endpoint);
    var cf := c.entries[k].chunkFile;
    LastIndexBounds(|pub[k]|, cf.chunkSize, i);
    CountedIffStartsInside(|pub[k]|, cf.chunkSize, i);
    assert cf.chunkHashes[i] == c.hash(Chunk(pub[k], cf.chunkSize, i));
  }
}
