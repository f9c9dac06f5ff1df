/** The set of served subfiles, from start-up and through admin requests. */
module Admin {
  import opened Basics
  import opened ChunkFiles
  import opened Entries
  import opened FileReader
  import opened Finder
  import opened Validation

  type Served = map<string, Subfile>

  /** What the server can reach when it handles a request: IPFS, its disk and the paths on it. */
  datatype Site = Site(net: Network, disk: Disk, existing: set<string>, hash: Hasher)

  /** The parameters of a request: absent, of the wrong form, or a list of strings. */
  datatype Params = Missing | Malformed | Strings(values: seq<string>)

  const SUCCESS: nat := 200
  const BAD_REQUEST: nat := 400

  // ----- adding -----

  /** An entry can be read from IPFS and its local files validate. */
  predicate Addable(site: Site, entry: (string, string)) {
    && ReadSubfile(site.net, entry.0, entry.1).Ok?
    && ValidateSubfile(site.hash, site.disk, ReadSubfile(site.net, entry.0, entry.1).value).Ok?
  }

  /** The number of entries before the first that is not addable. */
  function AddableCount(site: Site, entries: seq<(string, string)>): (n: nat)
    ensures n <= |entries|
    ensures forall i :: 0 <= i < n ==> Addable(site, entries[i])
    ensures n < |entries| ==> !Addable(site, entries[n])
  {
    if entries == [] || !Addable(site, entries[0]) then 0 else 1 + AddableCount(site, entries[1..])
  }

  /** The served subfiles after the entries have been inserted in order. */
  function Inserted(site: Site, served: Served, entries: seq<(string, string)>): Served
    requires forall i :: 0 <= i < |entries| ==> Addable(site, entries[i])
  {
    if entries == [] then served
    else
      var front, last := entries[..|entries| - 1], entries[|entries| - 1];
      assert Addable(site, entries[|entries| - 1]);
      Inserted(site, served, front)[last.0 := ReadSubfile(site.net, last.0, last.1).value]
  }

  /** The response to a list of entries: success only if all were addable. A validation can also panic. */
  function AddResponse(site: Site, entries: seq<(string, string)>): Outcome<nat> {
    var n := AddableCount(site, entries);
    if n == |entries| then Ok(SUCCESS)
    else
      match ReadSubfile(site.net, entries[n].0, entries[n].1)
      case Ok(subfile) => if ValidateSubfile(site.hash, site.disk, subfile).Panic? then Panic else Ok(BAD_REQUEST)
      case _ => Ok(BAD_REQUEST)
  }

  /** The response to a request to add. */
  function AddOutcome(site: Site, params: Params): Outcome<nat> {
    match params
    case Missing => Ok(BAD_REQUEST)
    case Malformed => Err(JsonError)
    case Strings(values) =>
      match ValidateEntries(values, site.existing)
      case Ok(entries) => AddResponse(site, entries)
      case _ => Ok(BAD_REQUEST)
  }

  function AfterAdd(site: Site, served: Served, params: Params): Served {
    match params
    case Strings(values) =>
      (match ValidateEntries(values, site.existing)
       case Ok(entries) => Inserted(site, served, entries[..AddableCount(site, entries)])
       case _ => served)
    case _ => served
  }

  // ----- removing -----

  predicate RemovalAccepted(params: Params) {
    params.Strings? && forall i :: 0 <= i < |params.values| ==> ValidIpfsHash(params.values[i])
  }

  function AfterRemove(served: Served, params: Params): Served {
    if RemovalAccepted(params) then served - (set h | h in params.values) else served
  }

  class ServerState {
    var subfiles: Served

    constructor (subfiles: Served)
      ensures this.subfiles == subfiles
    {
      this.subfiles := subfiles;
    }

    /** Inserts entry after entry, and stops at the first that cannot be read or does not validate. */
    method AddSubfile(site: Site, params: Params) returns (r: Outcome<nat>)
      modifies this
      ensures subfiles == AfterAdd(site, old(subfiles), params)
      ensures r == AddOutcome(site, params)
    {
      match params {
        case Missing => return Ok(BAD_REQUEST);
        case Malformed => return Err(JsonError);
        case Strings(values) =>
          var validated := ValidateSubfileEntries(values, site.existing);
          if !validated.Ok? {
            return Ok(BAD_REQUEST);
          }
          r := AddEntries(site, validated.value);
      }
    }

    method AddEntries(site: Site, entries: seq<(string, string)>) returns (r: Outcome<nat>)
      modifies this
      ensures subfiles == Inserted(site, old(subfiles), entries[..AddableCount(site, entries)])
      ensures r == AddResponse(site, entries)
    {
      for i := 0 to |entries|
        invariant forall j :: 0 <= j < i ==> Addable(site, entries[j])
        invariant subfiles == Inserted(site, old(subfiles), entries[..i])
      {
        var (ipfsHash, localPath) := entries[i];
        var read := ReadSubfile(site.net, ipfsHash, localPath);
        if !read.Ok? {
          AddableCountIs(site, entries, i);
          return Ok(BAD_REQUEST);
        }
        var valid := ValidateLocalSubfile(site.hash, site.disk, read.value);
        if !valid.Ok? {
          AddableCountIs(site, entries, i);
          return if valid.Panic? then Panic else Ok(BAD_REQUEST);
        }
        subfiles := subfiles[read.value.ipfsHash := read.value];
        assert entries[..i + 1][..i] == entries[..i];
      }
      AddableCountIs(site, entries, |entries|);
      r := Ok(SUCCESS);
    }

    /** Removes all the hashes, or none if one of them has not the form of a hash. */
    method RemoveSubfile(params: Params) returns (r: Outcome<nat>)
      modifies this
      ensures subfiles == AfterRemove(old(subfiles), params)
      ensures r == Ok(if RemovalAccepted(params) then 200 else 400)
    {
      if !params.Strings? {
        return Ok(BAD_REQUEST);
      }
      var hashes := params.values;
      for i := 0 to |hashes|
        invariant subfiles == old(subfiles)
        invariant forall j :: 0 <= j < i ==> ValidIpfsHash(hashes[j])
      {
        if !ValidIpfsHash(hashes[i]) {
          return Ok(BAD_REQUEST);
        }
      }
      for i := 0 to |hashes|
        invariant subfiles == old(subfiles) - (set h | h in hashes[..i])
      {
        subfiles := subfiles - {hashes[i]};
        assert hashes[..i + 1] == hashes[..i] + [hashes[i]];
      }
      assert hashes[..|hashes|] == hashes;
      r := Ok(SUCCESS);
    }
  }

  // ----- what adding and removing mean -----

  /** The request lists entries that are all of the right form. */
  predicate WellFormed(site: Site, params: Params) {
    params.Strings? && forall i :: 0 <= i < |params.values| ==> ValidateEntry(params.values[i], site.existing).Ok?
  }

  /** The i-th entry of a well-formed request can be read, and its local files validate. */
  predicate Acceptable(site: Site, params: Params, i: nat)
    requires WellFormed(site, params) && i < |params.values|
  {
    var (hash, path) := ValidateEntry(params.values[i], site.existing).value;
    && ReadSubfile(site.net, hash, path).Ok?
    && ValidateSubfile(site.hash, site.disk, ReadSubfile(site.net, hash, path).value).Ok?
  }

  /** Success means that every entry was accepted; a request that is not well formed changes nothing. The first
      entry that is not accepted makes the server panic if its validation does, and is refused otherwise. */
  lemma AddOutcomeIff(site: Site, params: Params)
    ensures AddOutcome(site, params) == Ok(200) <==>
              WellFormed(site, params) && forall i: nat :: i < |params.values| ==> Acceptable(site, params, i)
    ensures params.Malformed? <==> AddOutcome(site, params) == Err(JsonError)
    ensures AddOutcome(site, params) == Panic <==>
              && WellFormed(site, params)
              && exists i: nat :: && i < |params.values| && (forall j: nat :: j < i ==> Acceptable(site, params, j))
                                  && PanicsAt(site, params, i)
    ensures AddOutcome(site, params) in {Ok(200), Ok(400), Err(JsonError), Panic}
  {
    if WellFormed(site, params) {
      var entries, n := AcceptedPrefix(site, params);
      if n < |entries| {
        assert PanicsAt(site, params, n) <==> AddOutcome(site, params) == Panic;
        if i: nat :| && i < |params.values| && (forall j: nat :: j < i ==> Acceptable(site, params, j))
                     && PanicsAt(site, params, i) {
          assert !Acceptable(site, params, i);
          assert i == n;
        }
      }
    }
  }

  /** The entries of a well-formed request, and how many are accepted before the first that is not. */
  lemma AcceptedPrefix(site: Site, params: Params) returns (entries: seq<(string, string)>, n: nat)
    requires WellFormed(site, params)
    ensures ValidateEntries(params.values, site.existing) == Ok(entries) && n == AddableCount(site, entries)
    ensures n <= |entries| == |params.values|
    ensures forall i :: 0 <= i < |entries| ==> ValidateEntry(params.values[i], site.existing) == Ok(entries[i])
    ensures forall i: nat :: i < n ==> Acceptable(site, params, i)
    ensures n < |entries| ==> !Acceptable(site, params, n)
  {
    ValidateEntriesIff(params.values, site.existing);
    entries := ValidateEntries(params.values, site.existing).value;
    n := AddableCount(site, entries);
    forall i: nat | i < |params.values|
      ensures Acceptable(site, params, i) <==> Addable(site, entries[i])
    {
    }
  }

  /** The validation of the i-th entry panics. */
  predicate PanicsAt(site: Site, params: Params, i: nat)
    requires WellFormed(site, params) && i < |params.values|
  {
    var (hash, path) := ValidateEntry(params.values[i], site.existing).value;
    && ReadSubfile(site.net, hash, path).Ok?
    && ValidateSubfile(site.hash, site.disk, ReadSubfile(site.net, hash, path).value).Panic?
  }

  /** A key is served after a request to add exactly when it was before, or an entry names it that was accepted
      together with all entries before it. */
  lemma AddedKeys(site: Site, served: Served, params: Params, key: string)
    ensures key in AfterAdd(site, served, params) <==>
              key in served || (WellFormed(site, params) && NamesAccepted(site, params, key))
    ensures !WellFormed(site, params) ==> AfterAdd(site, served, params) == served
  {
    if WellFormed(site, params) {
      var entries, n := AcceptedPrefix(site, params);
      InsertedContents(site, served, entries[..n], key);
      NamedPrefix(site, params, entries, n, key);
    }
  }

  lemma NamedPrefix(site: Site, params: Params, entries: seq<(string, string)>, n: nat, key: string)
    requires WellFormed(site, params) && n <= |entries| == |params.values|
    requires forall i :: 0 <= i < |entries| ==> ValidateEntry(params.values[i], site.existing) == Ok(entries[i])
    requires (forall i: nat :: i < n ==> Acceptable(site, params, i)) && (n < |entries| ==> !Acceptable(site, params, n))
    ensures Names(entries[..n], key) <==> NamesAccepted(site, params, key)
  {
    if i :| 0 <= i < n && entries[..n][i].0 == key {
      assert ValidateEntry(params.values[i], site.existing).value.0 == key;
    }
    if i: nat :| && i < |params.values| && ValidateEntry(params.values[i], site.existing).value.0 == key
                 && forall j: nat :: j <= i ==> Acceptable(site, params, j) {
      assert entries[..n][i].0 == key;
    }
  }

  /** An entry with the key is accepted together with all entries before it. */
  ghost predicate NamesAccepted(site: Site, params: Params, key: string)
    requires WellFormed(site, params)
  {
    exists i: nat :: && i < |params.values| && ValidateEntry(params.values[i], site.existing).value.0 == key
                     && forall j: nat :: j <= i ==> Acceptable(site, params, j)
  }

  /** A request to remove is accepted when it is a list of texts of the form of a hash; then exactly the
      listed keys are gone, and otherwise none. */
  lemma RemovedExact(served: Served, params: Params, key: string)
    ensures RemovalAccepted(params) <==>
              params.Strings? && forall i :: 0 <= i < |params.values| ==> "Qm" <= params.values[i] && |params.values[i]| == 46
    ensures key in AfterRemove(served, params) <==>
              key in served && !(RemovalAccepted(params) && key in params.values)
    ensures key in AfterRemove(served, params) ==> AfterRemove(served, params)[key] == served[key]
  {
  }

  lemma AddableCountIs(site: Site, entries: seq<(string, string)>, n: nat)
    requires n <= |entries| && (forall i :: 0 <= i < n ==> Addable(site, entries[i]))
    requires n < |entries| ==> !Addable(site, entries[n])
    ensures AddableCount(site, entries) == n
  {
  }

  // ----- start-up -----

  /** At start-up the local files are validated too, but an error there is ignored. */
  function Started(site: Site, entries: seq<(string, string)>): Outcome<Served> {
    if entries == [] then Ok(map[])
    else
      var front, last := entries[..|entries| - 1], entries[|entries| - 1];
      match Started(site, front)
      case Err(e) => Err(e)
      case Panic => Panic
      case Ok(served) =>
        match ReadSubfile(site.net, last.0, last.1)
        case Ok(subfile) =>
          if ValidateSubfile(site.hash, site.disk, subfile).Panic? then Panic
          else Ok(served[subfile.ipfsHash := subfile])
        case Err(e) => Err(e)
        case Panic => Panic
  }

  /** What start-up serves, given the configured entries. */
  function StartUp(site: Site, values: seq<string>): Outcome<Served> {
    match ValidateEntries(values, site.existing)
    case Ok(entries) => Started(site, entries)
    case Err(e) => Err(e)
    case Panic => Panic
  }

  method InitializeSubfileServerContext(site: Site, values: seq<string>) returns (r: Outcome<Served>)
    ensures r == StartUp(site, values)
  {
    var validated := ValidateSubfileEntries(values, site.existing);
    if !validated.Ok? {
      return Err(InvalidConfig);
    }
    var entries := validated.value;
    var subfiles: Served := map[];
    for i := 0 to |entries|
      invariant Started(site, entries[..i]) == Ok(subfiles)
    {
      assert entries[..i + 1][..i] == entries[..i];
      StartedStops(site, entries, i + 1);
      var (ipfsHash, localPath) := entries[i];
      var read := ReadSubfile(site.net, ipfsHash, localPath);
      if !read.Ok? {
        return Err(read.error);
      }
      var valid := ValidateLocalSubfile(site.hash, site.disk, read.value);
      if valid.Panic? {
        return Panic;
      }
      subfiles := subfiles[read.value.ipfsHash := read.value];
    }
    assert entries[..|entries|] == entries;
    r := Ok(subfiles);
  }

  lemma {:induction false} StartedStops(site: Site, entries: seq<(string, string)>, n: nat)
    requires n <= |entries|
    ensures !Started(site, entries[..n]).Ok? ==> Started(site, entries) == Started(site, entries[..n])
    decreases |entries| - n
  {
    if n < |entries| {
      StartedStops(site, entries, n + 1);
      assert entries[..n + 1][..n] == entries[..n];
    } else {
      assert entries[..n] == entries;
    }
  }

  /** Start-up succeeds exactly when every entry can be read and no validation panics: local files that
      fail validation are served all the same. */
  lemma {:induction false} StartedOkIff(site: Site, entries: seq<(string, string)>)
    ensures Started(site, entries).Ok? <==>
              forall i :: 0 <= i < |entries| ==>
                && ReadSubfile(site.net, entries[i].0, entries[i].1).Ok?
                && !ValidateSubfile(site.hash, site.disk, ReadSubfile(site.net, entries[i].0, entries[i].1).value).Panic?
  {
    if entries != [] {
      StartedOkIff(site, entries[..|entries| - 1]);
      assert entries == entries[..|entries| - 1] + [entries[|entries| - 1]];
    }
  }

  /** Entry i of the configuration can be read, and its validation does not panic. */
  predicate Startable(site: Site, entry: (string, string)) {
    && ReadSubfile(site.net, entry.0, entry.1).Ok?
    && !ValidateSubfile(site.hash, site.disk, ReadSubfile(site.net, entry.0, entry.1).value).Panic?
  }

  /** Otherwise the first such entry decides: start-up ends with the error of reading it, or panics. */
  lemma FirstEntryDecides(site: Site, entries: seq<(string, string)>, n: nat)
    requires n < |entries| && !Startable(site, entries[n]) && forall i :: 0 <= i < n ==> Startable(site, entries[i])
    ensures Started(site, entries) ==
            if ReadSubfile(site.net, entries[n].0, entries[n].1).Ok? then Panic else Err(IpfsError)
  {
    StartedOkIff(site, entries[..n]);
    assert entries[..n + 1][..n] == entries[..n];
    StartedStops(site, entries, n + 1);
  }

  /** Start-up refuses a configuration with an entry of the wrong form, and goes through the entries otherwise. */
  lemma StartUpIs(site: Site, values: seq<string>)
    ensures (forall i :: 0 <= i < |values| ==> ValidateEntry(values[i], site.existing).Ok?) ==>
              exists entries :: && |entries| == |values|
                                && (forall i :: 0 <= i < |values| ==> ValidateEntry(values[i], site.existing) == Ok(entries[i]))
                                && StartUp(site, values) == Started(site, entries)
    ensures !(forall i :: 0 <= i < |values| ==> ValidateEntry(values[i], site.existing).Ok?) ==>
              StartUp(site, values) == Err(InvalidConfig)
  {
    ValidateEntriesIff(values, site.existing);
    if ValidateEntries(values, site.existing).Ok? {
      var entries := ValidateEntries(values, site.existing).value;
      assert StartUp(site, values) == Started(site, entries);
    }
  }

  /** The entry i is the last with its hash. */
  predicate LastWithHash(entries: seq<(string, string)>, i: nat) {
    i < |entries| && forall j :: i < j < |entries| ==> entries[j].0 != entries[i].0
  }

  /** After start-up a key is served exactly when an entry names it. */
  lemma {:induction false} StartedKeys(site: Site, entries: seq<(string, string)>, key: string)
    requires Started(site, entries).Ok?
    ensures key in Started(site, entries).value <==> Names(entries, key)
  {
    if entries != [] {
      var front, last := entries[..|entries| - 1], entries[|entries| - 1];
      StartedKeys(site, front, key);
      NamesPush(front, last, key);
      assert entries == front + [last];
    }
  }

  /** What is served under a hash is the subfile of the last entry with it. */
  lemma {:induction false} StartedContents(site: Site, entries: seq<(string, string)>, i: nat)
    requires Started(site, entries).Ok? && LastWithHash(entries, i)
    ensures entries[i].0 in Started(site, entries).value
    ensures ReadSubfile(site.net, entries[i].0, entries[i].1) == Ok(Started(site, entries).value[entries[i].0])
  {
    if i < |entries| - 1 {
      var front := entries[..|entries| - 1];
      assert LastWithHash(front, i);
      StartedContents(site, front, i);
    }
  }

  /** The last entry with a hash that is named. */
  lemma {:induction false} LastNamedEntry(entries: seq<(string, string)>, key: string) returns (i: nat)
    requires Names(entries, key)
    ensures LastWithHash(entries, i) && entries[i].0 == key
  {
    var front, last := entries[..|entries| - 1], entries[|entries| - 1];
    if last.0 == key {
      i := |entries| - 1;
    } else {
      assert entries == front + [last];
      NamesPush(front, last, key);
      i := LastNamedEntry(front, key);
    }
  }

  /** Everything served has been read from IPFS and its local files validate. */
  ghost predicate AllValid(site: Site, served: Served) {
    forall key :: key in served ==> ValidateSubfile(site.hash, site.disk, served[key]).Ok?
  }

  /** After a start-up that returned Ok, everything served validates if and only if the local files of
      every entry without a later entry of the same hash do: start-up itself does not see to it. */
  lemma StartedValidIff(site: Site, entries: seq<(string, string)>)
    requires Started(site, entries).Ok?
    ensures AllValid(site, Started(site, entries).value) <==>
              forall i: nat :: LastWithHash(entries, i) ==> Addable(site, entries[i])
  {
    var served := Started(site, entries).value;
    forall i: nat | LastWithHash(entries, i)
      ensures entries[i].0 in served
      ensures Addable(site, entries[i]) <==> ValidateSubfile(site.hash, site.disk, served[entries[i].0]).Ok?
    {
      StartedContents(site, entries, i);
    }
    forall key | key in served
      ensures exists i: nat :: LastWithHash(entries, i) && entries[i].0 == key
    {
      StartedKeys(site, entries, key);
      var i := LastNamedEntry(entries, key);
    }
  }

  // ----- every run of admin requests -----

  datatype AdminRequest = Add(site: Site, params: Params) | RemoveAll(params: Params)

  function AfterRequest(served: Served, request: AdminRequest): Served {
    match request
    case Add(site, params) => AfterAdd(site, served, params)
    case RemoveAll(params) => AfterRemove(served, params)
  }

  function AfterRequests(served: Served, requests: seq<AdminRequest>): Served {
    if requests == [] then served
    else AfterRequest(AfterRequests(served, requests[..|requests| - 1]), requests[|requests| - 1])
  }

  /** Every key is the hash of its subfile, and has the form of a hash. */
  ghost predicate KeysOk(served: Served) {
    forall key :: key in served ==> served[key].ipfsHash == key && ValidIpfsHash(key)
                                    && SameHashSameRecord(served[key].chunkFiles)
  }

  /** The subfile was read at this site and its local files validated there. */
  predicate AddedAt(site: Site, subfile: Subfile) {
    ReadSubfile(site.net, subfile.ipfsHash, subfile.localPath) == Ok(subfile)
    && ValidateSubfile(site.hash, site.disk, subfile).Ok?
  }

  /** One of the entries has the hash. */
  predicate Names(entries: seq<(string, string)>, key: string) {
    exists i :: 0 <= i < |entries| && entries[i].0 == key
  }

  lemma NamesPush(front: seq<(string, string)>, last: (string, string), key: string)
    ensures Names(front + [last], key) <==> Names(front, key) || last.0 == key
  {
    var entries := front + [last];
    assert entries[|front|] == last;
    if Names(front, key) {
      var i :| 0 <= i < |front| && front[i].0 == key;
      assert entries[i].0 == key;
    }
  }

  /** A key is in the map after the inserts exactly when it was before or names an entry; what is there under
      it is what was before, or was read and validated for one of the entries. */
  lemma {:induction false} InsertedContents(site: Site, served: Served, entries: seq<(string, string)>, key: string)
    requires forall i :: 0 <= i < |entries| ==> Addable(site, entries[i])
    ensures key in Inserted(site, served, entries) <==> key in served || Names(entries, key)
    ensures key in Inserted(site, served, entries) ==>
              var subfile := Inserted(site, served, entries)[key];
              || (key in served && subfile == served[key])
              || (Names(entries, key) && subfile.ipfsHash == key && AddedAt(site, subfile))
  {
    if entries != [] {
      var front, last := entries[..|entries| - 1], entries[|entries| - 1];
      assert entries == front + [last] && Addable(site, entries[|entries| - 1]);
      InsertedContents(site, served, front, key);
      NamesPush(front, last, key);
    }
  }

  /** The last of several entries with one hash is the one that stays. */
  lemma {:induction false} LastInsertStays(site: Site, served: Served, entries: seq<(string, string)>, i: nat)
    requires forall j :: 0 <= j < |entries| ==> Addable(site, entries[j])
    requires i < |entries| && forall j :: i < j < |entries| ==> entries[j].0 != entries[i].0
    ensures entries[i].0 in Inserted(site, served, entries)
    ensures Inserted(site, served, entries)[entries[i].0]
         == ReadSubfile(site.net, entries[i].0, entries[i].1).value
  {
    if i < |entries| - 1 {
      LastInsertStays(site, served, entries[..|entries| - 1], i);
    }
  }

  lemma NamesAreValid(site: Site, values: seq<string>, n: nat, key: string)
    requires ValidateEntries(values, site.existing).Ok? && n <= |values|
    requires Names(ValidateEntries(values, site.existing).value[..n], key)
    ensures ValidIpfsHash(key)
  {
    var entries := ValidateEntries(values, site.existing).value;
    var i :| 0 <= i < n && entries[..n][i].0 == key;
    assert ValidateEntry(values[i], site.existing) == Ok(entries[i]);
  }

  lemma RequestKeepsKeys(served: Served, request: AdminRequest)
    requires KeysOk(served)
    ensures KeysOk(AfterRequest(served, request))
  {
    match request {
      case RemoveAll(_) =>
      case Add(site, params) =>
        if params.Strings? && ValidateEntries(params.values, site.existing).Ok? {
          var entries := ValidateEntries(params.values, site.existing).value;
          var n := AddableCount(site, entries);
          var added := entries[..n];
          forall key | key in Inserted(site, served, added)
            ensures var s := Inserted(site, served, added)[key];
                    s.ipfsHash == key && ValidIpfsHash(key) && SameHashSameRecord(s.chunkFiles)
          {
            InsertedContents(site, served, added, key);
            if Names(added, key) {
              NamesAreValid(site, params.values, n, key);
            }
          }
        }
    }
  }

  /** Start-up gives served subfiles under their own, valid hashes. */
  lemma {:induction false} StartedKeysOk(site: Site, values: seq<string>, n: nat)
    requires ValidateEntries(values, site.existing).Ok? && n <= |values|
    requires Started(site, ValidateEntries(values, site.existing).value[..n]).Ok?
    ensures KeysOk(Started(site, ValidateEntries(values, site.existing).value[..n]).value)
  {
    if n > 0 {
      var entries := ValidateEntries(values, site.existing).value;
      assert entries[..n][..n - 1] == entries[..n - 1];
      StartedKeysOk(site, values, n - 1);
      assert ValidateEntry(values[n - 1], site.existing) == Ok(entries[n - 1]);
    }
  }

  /** Over every run of admin requests the keys stay in order, and whatever is served was served from the
      start, or was read and validated by one of the requests. */
  lemma {:induction false} ServedMapInvariant(served: Served, requests: seq<AdminRequest>, key: string)
    requires KeysOk(served)
    ensures KeysOk(AfterRequests(served, requests))
    ensures key in AfterRequests(served, requests) ==>
              || (key in served && AfterRequests(served, requests)[key] == served[key])
              || (exists j :: 0 <= j < |requests| && requests[j].Add?
                    && AddedAt(requests[j].site, AfterRequests(served, requests)[key]))
  {
    if requests != [] {
      var front, last := requests[..|requests| - 1], requests[|requests| - 1];
      ServedMapInvariant(served, front, key);
      RequestKeepsKeys(AfterRequests(served, front), last);
      assert requests == front + [last];
      if key in AfterRequests(served, requests) {
        RequestProvenance(AfterRequests(served, front), last, key);
      }
    }
  }

  lemma RequestProvenance(served: Served, request: AdminRequest, key: string)
    requires key in AfterRequest(served, request)
    ensures || (key in served && AfterRequest(served, request)[key] == served[key])
            || (request.Add? && AddedAt(request.site, AfterRequest(served, request)[key]))
  {
    if request.Add? && request.params.Strings? && ValidateEntries(request.params.values, request.site.existing).Ok? {
      var entries := ValidateEntries(request.params.values, request.site.existing).value;
      InsertedContents(request.site, served, entries[..AddableCount(request.site, entries)], key);
    }
  }
}
