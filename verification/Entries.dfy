/** The `hash:path` entries by which a server is told what to serve. */
module Entries {
  import opened Basics
  import opened Text

  predicate ValidIpfsHash(hash: string) {
    "Qm" <= hash && |hash| == 46
  }

  /** `existing` is the set of paths that exist on the server. */
  function ValidateEntry(entry: string, existing: set<string>): Outcome<(string, string)> {
    var parts := Split(entry, ':');
    if |parts| != 2 then Err(InvalidConfig)
    else if !ValidIpfsHash(parts[0]) then Err(InvalidConfig)
    else if parts[1] !in existing then Err(InvalidConfig)
    else Ok((parts[0], parts[1]))
  }

  function ValidateEntries(entries: seq<string>, existing: set<string>): Outcome<seq<(string, string)>> {
    if forall i :: 0 <= i < |entries| ==> ValidateEntry(entries[i], existing).Ok?
    then Ok(seq(|entries|, i requires 0 <= i < |entries| && ValidateEntry(entries[i], existing).Ok? =>
                  ValidateEntry(entries[i], existing).value))
    else Err(InvalidConfig)
  }

  method ValidateSubfileEntries(entries: seq<string>, existing: set<string>) returns (r: Outcome<seq<(string, string)>>)
    ensures r == ValidateEntries(entries, existing)
  {
    var results := [];
    for i := 0 to |entries|
      invariant |results| == i
      invariant forall j :: 0 <= j < i ==> ValidateEntry(entries[j], existing) == Ok(results[j])
    {
      var entry := ValidateEntry(entries[i], existing);
      if !entry.Ok? {
        return Err(InvalidConfig);
      }
      results := results + [entry.value];
    }
    assert ValidateEntries(entries, existing).Ok? && results == ValidateEntries(entries, existing).value;
    r := Ok(results);
  }

  /** The entries are accepted exactly when each is, and then in their order; otherwise they are refused. */
  lemma ValidateEntriesIff(entries: seq<string>, existing: set<string>)
    ensures ValidateEntries(entries, existing).Ok? <==>
              forall i :: 0 <= i < |entries| ==> ValidateEntry(entries[i], existing).Ok?
    ensures ValidateEntries(entries, existing).Ok? ==>
              && |ValidateEntries(entries, existing).value| == |entries|
              && forall i :: 0 <= i < |entries| ==>
                   ValidateEntry(entries[i], existing) == Ok(ValidateEntries(entries, existing).value[i])
    ensures !ValidateEntries(entries, existing).Ok? ==> ValidateEntries(entries, existing) == Err(InvalidConfig)
  {
  }

  /** An entry is accepted exactly when it is a hash of 46 characters that begins with Qm, a colon and an
      existing path without a colon. */
  lemma ValidateEntryIff(entry: string, existing: set<string>, hash: string, path: string)
    ensures ValidateEntry(entry, existing) == Ok((hash, path)) <==>
              && entry == hash + ":" + path && ':' !in hash && ':' !in path
              && "Qm" <= hash && |hash| == 46 && path in existing
    ensures !ValidateEntry(entry, existing).Ok? ==> ValidateEntry(entry, existing) == Err(InvalidConfig)
  {
    SplitInTwo(entry, ':');
    if entry == hash + ":" + path && ':' !in hash && ':' !in path {
      SplitAtFirst(hash, ':', path);
      SplitNone(path, ':');
    }
  }
}
