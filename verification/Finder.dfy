/**
 Finding out who serves what. The network and IPFS are given as maps: a URL or a hash that is missing
 is a request that fails.
 */
module Finder {
  import opened Basics
  import opened ChunkFiles
  import opened Urls

  datatype Network = Network(
    operators: map<string, string>,
    status: map<string, seq<string>>,
    manifests: map<string, seq<FileMetaInfo>>,
    chunkFiles: map<string, ChunkFile>)

  // ----- reading a subfile from IPFS -----

  function ReadChunkFiles(net: Network, files: seq<FileMetaInfo>): (r: Outcome<seq<ChunkFileMeta>>)
    ensures r.Ok? <==> forall k :: 0 <= k < |files| ==> files[k].hash in net.chunkFiles
    ensures r.Ok? ==> |r.value| == |files| && forall k :: 0 <= k < |files| ==>
                        r.value[k].metaInfo == files[k] && r.value[k].chunkFile == net.chunkFiles[files[k].hash]
  {
    if files == [] then Ok([])
    else if files[0].hash !in net.chunkFiles then Err(IpfsError)
    else
      match ReadChunkFiles(net, files[1..])
      case Ok(rest) => Ok([ChunkFileMeta(files[0], net.chunkFiles[files[0].hash])] + rest)
      case _ => Err(IpfsError)
  }

  /** The subfile of a hash: its manifest, and the chunk file of every hash the manifest names. */
  function ReadSubfile(net: Network, ipfsHash: string, localPath: string): (r: Outcome<Subfile>)
    ensures !r.Panic?
    ensures r.Ok? ==> r.value.ipfsHash == ipfsHash && r.value.localPath == localPath
    ensures r.Ok? ==> ipfsHash in net.manifests && |r.value.chunkFiles| == |net.manifests[ipfsHash]|
                      && forall k :: 0 <= k < |r.value.chunkFiles| ==>
                           r.value.chunkFiles[k].metaInfo == net.manifests[ipfsHash][k]
    ensures r.Ok? <==> ipfsHash in net.manifests && forall k :: 0 <= k < |net.manifests[ipfsHash]| ==>
                                                       net.manifests[ipfsHash][k].hash in net.chunkFiles
    ensures r.Ok? ==> forall k :: 0 <= k < |r.value.chunkFiles| ==>
                        r.value.chunkFiles[k].chunkFile == net.chunkFiles[net.manifests[ipfsHash][k].hash]
    ensures !r.Ok? ==> r == Err(IpfsError)
    ensures r.Ok? ==> SameHashSameRecord(r.value.chunkFiles)
  {
    if ipfsHash !in net.manifests then Err(IpfsError)
    else
      match ReadChunkFiles(net, net.manifests[ipfsHash])
      case Ok(metas) => Ok(Subfile(ipfsHash, localPath, metas))
      case _ => Err(IpfsError)
  }

  /** Records are fetched by hash, so entries with one hash have one record. */
  predicate SameHashSameRecord(metas: seq<ChunkFileMeta>) {
    forall j, k :: 0 <= j < |metas| && 0 <= k < |metas| && metas[j].metaInfo.hash == metas[k].metaInfo.hash
      ==> metas[j].chunkFile == metas[k].chunkFile
  }

  // ----- who serves a subfile -----

  function SubfileAvailability(net: Network, subfileId: string, url: string): Outcome<IndexerEndpoint> {
    if url !in net.status then Err(DataUnavailable)
    else if url !in net.operators then Err(DataUnavailable)
    else if subfileId !in net.status[url] then Err(DataUnavailable)
    else Ok(IndexerEndpoint(net.operators[url], url))
  }

  /** The endpoints of the checklist that serve the subfile. */
  function SubfileAvailabilities(net: Network, subfileId: string, urls: seq<string>): (r: seq<IndexerEndpoint>)
    ensures forall e :: e in r <==>
              && e.url in urls
              && e.url in net.operators && e.operator == net.operators[e.url]
              && e.url in net.status && subfileId in net.status[e.url]
  {
    if urls == [] then []
    else
      var rest := SubfileAvailabilities(net, subfileId, urls[1..]);
      match SubfileAvailability(net, subfileId, urls[0])
      case Ok(endpoint) => [endpoint] + rest
      case _ => rest
  }

  // ----- which files of a subfile are served as part of others -----

  type Index = map<string, map<IndexerEndpoint, seq<string>>>

  predicate ManifestHas(net: Network, subfile: string, target: string) {
    subfile in net.manifests && exists k :: 0 <= k < |net.manifests[subfile]| && net.manifests[subfile][k].hash == target
  }

  /** The subfiles of a list, up to the first whose manifest cannot be fetched, that contain the target. */
  function Matching(net: Network, subfiles: seq<string>, target: string): seq<string> {
    if subfiles == [] || subfiles[0] !in net.manifests then []
    else (if ManifestHas(net, subfiles[0], target) then [subfiles[0]] else []) + Matching(net, subfiles[1..], target)
  }

  predicate AllFetched(net: Network, subfiles: seq<string>) {
    forall i :: 0 <= i < |subfiles| ==> subfiles[i] in net.manifests
  }

  predicate Answers(net: Network, url: string) {
    url in net.operators && url in net.status
  }

  function EndpointOf(net: Network, url: string): IndexerEndpoint
    requires Answers(net, url)
  {
    IndexerEndpoint(net.operators[url], url)
  }

  /** What one endpoint's check adds to the list of a target. */
  function Found(net: Network, url: string, target: string, endpoint: IndexerEndpoint): seq<string> {
    if Answers(net, url) && EndpointOf(net, url) == endpoint then Matching(net, net.status[url], target) else []
  }

  function FoundAll(net: Network, urls: seq<string>, target: string, endpoint: IndexerEndpoint): seq<string> {
    if urls == [] then [] else FoundAll(net, urls[..|urls| - 1], target, endpoint) + Found(net, urls[|urls| - 1], target, endpoint)
  }

  function ListAt(index: Index, target: string, endpoint: IndexerEndpoint): seq<string> {
    if target in index && endpoint in index[target] then index[target][endpoint] else []
  }

  /** Lists are recorded only when there is something in them. */
  predicate NoEmptyLists(index: Index) {
    forall t, e :: t in index && e in index[t] ==> index[t][e] != []
  }

  /** The index after `extra` has been appended at one endpoint. */
  ghost predicate Extended(before: Index, after: Index, endpoint: IndexerEndpoint, extra: string -> seq<string>) {
    && after.Keys == before.Keys
    && NoEmptyLists(after)
    && forall t, e :: t in before ==>
         ListAt(after, t, e) == ListAt(before, t, e) + if e == endpoint then extra(t) else []
  }

  ghost predicate RecordedOne(net: Network, before: Index, after: Index, endpoint: IndexerEndpoint, subfile: string) {
    Extended(before, after, endpoint, t => if ManifestHas(net, subfile, t) then [subfile] else [])
  }

  ghost predicate RecordedMany(net: Network, before: Index, after: Index, endpoint: IndexerEndpoint,
                               subfiles: seq<string>) {
    Extended(before, after, endpoint, t => Matching(net, subfiles, t))
  }

  /** One more fetched manifest adds its subfile to the lists of the targets it contains. */
  lemma MatchingAppend(net: Network, subfiles: seq<string>, i: nat)
    requires i < |subfiles| && forall j :: 0 <= j <= i ==> subfiles[j] in net.manifests
    ensures forall t :: Matching(net, subfiles[..i + 1], t)
                     == Matching(net, subfiles[..i], t) + if ManifestHas(net, subfiles[i], t) then [subfiles[i]] else []
  {
    forall t
      ensures Matching(net, subfiles[..i + 1], t)
           == Matching(net, subfiles[..i], t) + if ManifestHas(net, subfiles[i], t) then [subfiles[i]] else []
    {
      MatchingConcat(net, subfiles[..i], [subfiles[i]], t);
      assert subfiles[..i + 1] == subfiles[..i] + [subfiles[i]];
    }
  }

  lemma RecordedNext(net: Network, before: Index, middle: Index, after: Index, endpoint: IndexerEndpoint,
                     subfiles: seq<string>, i: nat)
    requires i < |subfiles| && forall j :: 0 <= j <= i ==> subfiles[j] in net.manifests
    requires RecordedMany(net, before, middle, endpoint, subfiles[..i])
    requires RecordedOne(net, middle, after, endpoint, subfiles[i])
    ensures RecordedMany(net, before, after, endpoint, subfiles[..i + 1])
  {
    MatchingAppend(net, subfiles, i);
  }

  lemma RecordedStop(net: Network, before: Index, after: Index, endpoint: IndexerEndpoint, subfiles: seq<string>, i: nat)
    requires i < |subfiles| && (forall j :: 0 <= j < i ==> subfiles[j] in net.manifests)
    requires subfiles[i] !in net.manifests
    requires RecordedMany(net, before, after, endpoint, subfiles[..i])
    ensures RecordedMany(net, before, after, endpoint, subfiles)
  {
    StopsHere(net, subfiles, i);
  }

  /** A manifest that cannot be fetched ends the list. */
  lemma StopsHere(net: Network, subfiles: seq<string>, i: nat)
    requires i < |subfiles| && (forall j :: 0 <= j < i ==> subfiles[j] in net.manifests)
    requires subfiles[i] !in net.manifests
    ensures forall t :: Matching(net, subfiles, t) == Matching(net, subfiles[..i], t)
  {
    forall t
      ensures Matching(net, subfiles, t) == Matching(net, subfiles[..i], t)
    {
      MatchingConcat(net, subfiles[..i], subfiles[i..], t);
      assert subfiles == subfiles[..i] + subfiles[i..];
    }
  }

  lemma {:induction false} MatchingConcat(net: Network, a: seq<string>, b: seq<string>, target: string)
    requires AllFetched(net, a)
    ensures Matching(net, a + b, target) == Matching(net, a, target) + Matching(net, b, target)
  {
    if a == [] {
      assert a + b == b;
    } else {
      assert (a + b)[1..] == a[1..] + b;
      MatchingConcat(net, a[1..], b, target);
    }
  }

  class AvailabilityMap {
    var index: Index

    constructor (targets: set<string>)
      ensures index.Keys == targets && forall t :: t in targets ==> index[t] == map[]
    {
      index := map t | t in targets :: map[];
    }

    /** Appends to the list of one target at one endpoint. */
    method Push(target: string, endpoint: IndexerEndpoint, subfile: string)
      requires target in index && NoEmptyLists(index)
      modifies this
      ensures index.Keys == old(index).Keys && NoEmptyLists(index)
      ensures forall t, e :: t in index ==>
                ListAt(index, t, e) == ListAt(old(index), t, e) + if t == target && e == endpoint then [subfile] else []
    {
      var inner := index[target];
      if endpoint in inner {
        inner := inner[endpoint := inner[endpoint] + [subfile]];
      } else {
        inner := inner[endpoint := [subfile]];
      }
      index := index[target := inner];
    }

    /** Records the subfile for every target its manifest contains. */
    method Record(net: Network, endpoint: IndexerEndpoint, subfile: string)
      requires NoEmptyLists(index)
      modifies this
      ensures RecordedOne(net, old(index), index, endpoint, subfile)
    {
      var rest := index.Keys;
      while rest != {}
        invariant index.Keys == old(index).Keys && rest <= index.Keys
        invariant NoEmptyLists(index)
        invariant forall t, e :: t in old(index) ==>
                    ListAt(index, t, e) == ListAt(old(index), t, e)
                      + if t !in rest && e == endpoint && ManifestHas(net, subfile, t) then [subfile] else []
        decreases |rest|
      {
        var target :| target in rest;
        if ManifestHas(net, subfile, target) {
          Push(target, endpoint, subfile);
        }
        rest := rest - {target};
      }
    }

    /** Fetches the manifests in turn and records each subfile; stops at the first that cannot be fetched. */
    method RecordAll(net: Network, endpoint: IndexerEndpoint, subfiles: seq<string>) returns (ok: bool)
      requires NoEmptyLists(index)
      modifies this
      ensures ok <==> AllFetched(net, subfiles)
      ensures RecordedMany(net, old(index), index, endpoint, subfiles)
    {
      ghost var before := index;
      for i := 0 to |subfiles|
        invariant forall j :: 0 <= j < i ==> subfiles[j] in net.manifests
        invariant NoEmptyLists(index) && RecordedMany(net, before, index, endpoint, subfiles[..i])
      {
        if subfiles[i] !in net.manifests {
          RecordedStop(net, before, index, endpoint, subfiles, i);
          return false;
        }
        ghost var middle := index;
        Record(net, endpoint, subfiles[i]);
        RecordedNext(net, before, middle, index, endpoint, subfiles, i);
      }
      assert subfiles[..|subfiles|] == subfiles;
      ok := true;
    }

    /** Asks one endpoint for its operator and its subfiles, and records what it serves. */
    method FileAvailability(net: Network, url: string) returns (r: Outcome<()>)
      requires NoEmptyLists(index)
      modifies this
      ensures index.Keys == old(index).Keys && NoEmptyLists(index)
      ensures forall t, e :: t in index ==> ListAt(index, t, e) == ListAt(old(index), t, e) + Found(net, url, t, e)
      ensures r.Ok? <==> Answers(net, url) && AllFetched(net, net.status[url]) && forall t :: t in index ==> index[t] != map[]
      ensures !r.Ok? ==> r == Err(if Answers(net, url) && !AllFetched(net, net.status[url]) then IpfsError else DataUnavailable)
    {
      if url !in net.operators {
        return Err(DataUnavailable);
      }
      if url !in net.status {
        return Err(DataUnavailable);
      }
      var fetched := RecordAll(net, EndpointOf(net, url), net.status[url]);
      if !fetched {
        return Err(IpfsError);
      }
      var missing := UnavailableFiles();
      if missing != [] {
        var first := missing[0];
        assert index[first] == map[];
        r := Err(DataUnavailable);
      } else {
        r := Ok(());
      }
    }

    /** The targets nobody serves, each once, in no particular order. */
    method UnavailableFiles() returns (missing: seq<string>)
      ensures forall t :: t in missing <==> t in index && index[t] == map[]
      ensures forall i, j :: 0 <= i < j < |missing| ==> missing[i] != missing[j]
    {
      missing := [];
      var rest := index.Keys;
      while rest != {}
        invariant rest <= index.Keys
        invariant forall t :: t in missing <==> t in index && t !in rest && index[t] == map[]
        invariant forall i, j :: 0 <= i < j < |missing| ==> missing[i] != missing[j]
        decreases |rest|
      {
        var key :| key in rest;
        if index[key] == map[] {
          missing := missing + [key];
        }
        rest := rest - {key};
      }
    }
  }

  function TargetHashes(subfile: Subfile): set<string> {
    set k | 0 <= k < |subfile.chunkFiles| :: subfile.chunkFiles[k].metaInfo.hash
  }

  /** The index of a subfile's files over a checklist of endpoints. An endpoint that fails is passed over. */
  method FileDiscovery(net: Network, subfileId: string, urls: seq<string>) returns (r: Outcome<AvailabilityMap>)
    ensures r.Ok? <==> subfileId in net.manifests && forall k :: 0 <= k < |net.manifests[subfileId]| ==>
                                                        net.manifests[subfileId][k].hash in net.chunkFiles
    ensures !r.Ok? ==> r == Err(IpfsError)
    ensures r.Ok? ==>
              && fresh(r.value)
              && (forall t :: t in r.value.index <==>
                    exists k :: 0 <= k < |net.manifests[subfileId]| && net.manifests[subfileId][k].hash == t)
              && NoEmptyLists(r.value.index)
              && forall t, e :: t in r.value.index ==> ListAt(r.value.index, t, e) == FoundAll(net, urls, t, e)
  {
    var read := ReadSubfile(net, subfileId, "");
    match read {
      case Err(e) => return Err(e);
      case Panic => return Panic;
      case Ok(subfile) =>
        var found := new AvailabilityMap(TargetHashes(subfile));
        for i := 0 to |urls|
          invariant found.index.Keys == TargetHashes(subfile) && NoEmptyLists(found.index)
          invariant forall t, e :: t in found.index ==> ListAt(found.index, t, e) == FoundAll(net, urls[..i], t, e)
        {
          assert urls[..i + 1][..i] == urls[..i];
          var checked := found.FileAvailability(net, urls[i]);
        }
        assert urls[..|urls|] == urls;
        r := Ok(found);
    }
  }

  // ----- what the index means -----

  /** The endpoint lists s before any subfile whose manifest cannot be fetched, and s has a file with the hash. */
  ghost predicate Serves(net: Network, e: IndexerEndpoint, target: string, s: string) {
    && e.url in net.operators && e.operator == net.operators[e.url] && e.url in net.status
    && (exists i :: 0 <= i < |net.status[e.url]| && net.status[e.url][i] == s
                    && forall j :: 0 <= j <= i ==> net.status[e.url][j] in net.manifests)
    && (exists k :: 0 <= k < |net.manifests[s]| && net.manifests[s][k].hash == target)
  }

  /** A list of the index holds exactly the subfiles that an endpoint of the checklist serves with the target. */
  lemma {:induction false} DiscoveredIff(net: Network, urls: seq<string>, target: string, e: IndexerEndpoint, s: string)
    ensures s in FoundAll(net, urls, target, e) <==> e.url in urls && Serves(net, e, target, s)
  {
    if urls != [] {
      var front, last := urls[..|urls| - 1], urls[|urls| - 1];
      DiscoveredIff(net, front, target, e, s);
      assert urls == front + [last];
      FoundIff(net, last, target, e, s);
    }
  }

  lemma FoundIff(net: Network, url: string, target: string, e: IndexerEndpoint, s: string)
    ensures s in Found(net, url, target, e) <==> e.url == url && Serves(net, e, target, s)
  {
    if Answers(net, url) && EndpointOf(net, url) == e {
      var subfiles := net.status[url];
      MatchingIff(net, subfiles, target, s);
      if i :| 0 <= i < |subfiles| && subfiles[i] == s && AllFetched(net, subfiles[..i + 1]) {
        FetchedPrefix(net, subfiles, i);
      }
      if i :| 0 <= i < |subfiles| && subfiles[i] == s && forall j :: 0 <= j <= i ==> subfiles[j] in net.manifests {
        FetchedPrefix(net, subfiles, i);
      }
    }
  }

  lemma FetchedPrefix(net: Network, subfiles: seq<string>, i: nat)
    requires i < |subfiles|
    ensures AllFetched(net, subfiles[..i + 1]) <==> forall j :: 0 <= j <= i ==> subfiles[j] in net.manifests
  {
    assert forall j :: 0 <= j <= i ==> subfiles[..i + 1][j] == subfiles[j];
  }

  /** The order of a list: subfile after subfile, until one cannot be fetched. */
  lemma MatchingIs(net: Network, first: string, rest: seq<string>, target: string)
    ensures first !in net.manifests ==> Matching(net, [first] + rest, target) == []
    ensures first in net.manifests && (exists k :: 0 <= k < |net.manifests[first]| && net.manifests[first][k].hash == target) ==>
              Matching(net, [first] + rest, target) == [first] + Matching(net, rest, target)
    ensures first in net.manifests && !(exists k :: 0 <= k < |net.manifests[first]| && net.manifests[first][k].hash == target) ==>
              Matching(net, [first] + rest, target) == Matching(net, rest, target)
    ensures Matching(net, [], target) == []
  {
    assert ([first] + rest)[1..] == rest;
  }

  ghost predicate Distinct(urls: seq<string>) {
    forall i, j :: 0 <= i < j < |urls| ==> urls[i] != urls[j]
  }

  /** With distinct endpoints, the list of a target at an endpoint is what that endpoint alone was found to serve. */
  lemma {:induction false} FoundAllDistinct(net: Network, urls: seq<string>, target: string, endpoint: IndexerEndpoint)
    requires Distinct(urls)
    ensures FoundAll(net, urls, target, endpoint)
         == if endpoint.url in urls then Found(net, endpoint.url, target, endpoint) else []
  {
    if urls != [] {
      var front, last := urls[..|urls| - 1], urls[|urls| - 1];
      assert Distinct(front) && last !in front;
      FoundAllDistinct(net, front, target, endpoint);
      assert urls == front + [last];
      assert last != endpoint.url ==> Found(net, last, target, endpoint) == [];
    }
  }

  ghost predicate ServedNowhere(net: Network, urls: seq<string>, target: string) {
    forall i :: 0 <= i < |urls| && Answers(net, urls[i]) ==> Matching(net, net.status[urls[i]], target) == []
  }

  lemma ServedNowhereIff(net: Network, urls: seq<string>, target: string)
    ensures ServedNowhere(net, urls, target) <==> forall e :: FoundAll(net, urls, target, e) == []
  {
    if ServedNowhere(net, urls, target) {
      forall e
        ensures FoundAll(net, urls, target, e) == []
      {
        FoundAllEmptyIff(net, urls, target, e);
      }
    } else {
      var i :| 0 <= i < |urls| && Answers(net, urls[i]) && Matching(net, net.status[urls[i]], target) != [];
      var e := EndpointOf(net, urls[i]);
      FoundAllEmptyIff(net, urls, target, e);
      assert Found(net, urls[i], target, e) != [];
    }
  }

  /** A target's entry in a finished index is empty if and only if no endpoint was found to serve it. */
  lemma UnavailableIff(net: Network, urls: seq<string>, index: Index, target: string)
    requires target in index && NoEmptyLists(index)
    requires forall e :: ListAt(index, target, e) == FoundAll(net, urls, target, e)
    ensures index[target] == map[] <==> ServedNowhere(net, urls, target)
  {
    ServedNowhereIff(net, urls, target);
    if index[target] != map[] {
      var e :| e in index[target];
      assert ListAt(index, target, e) != [];
      assert FoundAll(net, urls, target, e) != [];
      assert !(forall e :: FoundAll(net, urls, target, e) == []);
      assert !ServedNowhere(net, urls, target);
    } else {
      forall e
        ensures FoundAll(net, urls, target, e) == []
      {
        assert ListAt(index, target, e) == [];
      }
    }
  }

  lemma {:induction false} FoundAllEmptyIff(net: Network, urls: seq<string>, target: string, endpoint: IndexerEndpoint)
    ensures FoundAll(net, urls, target, endpoint) == [] <==>
              forall i :: 0 <= i < |urls| ==> Found(net, urls[i], target, endpoint) == []
  {
    if urls != [] {
      FoundAllEmptyIff(net, urls[..|urls| - 1], target, endpoint);
      assert urls == urls[..|urls| - 1] + [urls[|urls| - 1]];
    }
  }

  /** The matching subfiles are exactly those of the fetched prefix that contain the target, in order. */
  lemma {:induction false} MatchingIff(net: Network, subfiles: seq<string>, target: string, s: string)
    ensures s in Matching(net, subfiles, target) <==>
              exists i :: 0 <= i < |subfiles| && subfiles[i] == s && AllFetched(net, subfiles[..i + 1])
                          && ManifestHas(net, s, target)
  {
    if subfiles != [] && subfiles[0] in net.manifests {
      MatchingIff(net, subfiles[1..], target, s);
      if i :| 0 <= i < |subfiles[1..]| && subfiles[1..][i] == s && AllFetched(net, subfiles[1..][..i + 1])
              && ManifestHas(net, s, target) {
        assert subfiles[..i + 2] == [subfiles[0]] + subfiles[1..][..i + 1];
        assert subfiles[i + 1] == s;
      }
      if i :| 0 <= i < |subfiles| && subfiles[i] == s && AllFetched(net, subfiles[..i + 1]) && ManifestHas(net, s, target) {
        if i > 0 {
          assert subfiles[1..][i - 1] == s;
          assert forall j :: 0 <= j < i ==> subfiles[1..][..i][j] == subfiles[..i + 1][j + 1];
        }
      }
    } else if subfiles != [] {
      if i :| 0 <= i < |subfiles| && subfiles[i] == s && AllFetched(net, subfiles[..i + 1]) {
        FirstFetched(net, subfiles, i + 1);
      }
    }
  }

  lemma FirstFetched(net: Network, subfiles: seq<string>, n: nat)
    requires 0 < n <= |subfiles|
    ensures AllFetched(net, subfiles[..n]) ==> subfiles[0] in net.manifests
  {
    assert subfiles[..n][0] == subfiles[0];
  }
}
