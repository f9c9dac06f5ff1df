/** The URL a chunk is requested from, and the way back to the endpoint it belongs to. */
module Urls {
  import opened Basics
  import opened Text

  /** The operator's address and the URL of its server. */
  datatype IndexerEndpoint = IndexerEndpoint(operator: string, url: string)

  const ROUTE: string := "/subfiles/id/"

  function QueryEndpoint(url: string, subfileId: string): string {
    url + ROUTE + subfileId
  }

  function ExtractBaseUrl(queryEndpoint: string): Option<string> {
    match Find(queryEndpoint, ROUTE)
    case Some(k) => Some(queryEndpoint[..k])
    case None => None
  }

  /** What the failing task puts on the blocklist. */
  function BlockedUrl(queryEndpoint: string): string {
    match ExtractBaseUrl(queryEndpoint)
    case Some(url) => url
    case None => queryEndpoint
  }

  /** The base URL is what stands before the first occurrence of the route; there is none without one. */
  lemma ExtractBaseUrlIff(queryEndpoint: string, url: string)
    ensures ExtractBaseUrl(queryEndpoint) == Some(url) <==>
              && url + "/subfiles/id/" <= queryEndpoint
              && forall j: nat :: j < |url| ==> !OccursAt(queryEndpoint, "/subfiles/id/", j)
    ensures ExtractBaseUrl(queryEndpoint) == None <==> !Contains(queryEndpoint, "/subfiles/id/")
    ensures ExtractBaseUrl(queryEndpoint) == Some(url) ==> BlockedUrl(queryEndpoint) == url
    ensures !Contains(queryEndpoint, "/subfiles/id/") ==> BlockedUrl(queryEndpoint) == queryEndpoint
  {
    if url + ROUTE <= queryEndpoint {
      assert queryEndpoint[..|url|] == url;
      assert OccursAt(queryEndpoint, ROUTE, |url|) by {
        assert queryEndpoint[|url|..|url| + |ROUTE|] == (url + ROUTE)[|url|..];
      }
    }
    if ExtractBaseUrl(queryEndpoint) == Some(url) {
      assert queryEndpoint[..|url| + |ROUTE|] == url + ROUTE;
    }
  }

  /** The first two characters of the route occur in it only at its start. */
  lemma RouteStartsOnce(d: nat)
    requires 0 < d < |ROUTE| - 1
    ensures ROUTE[d] != ROUTE[0] || ROUTE[d + 1] != ROUTE[1]
  {
    assert ROUTE[0] == '/' && ROUTE[1] == 's' && ROUTE[2] == 'u' && ROUTE[3] == 'b' && ROUTE[4] == 'f'
        && ROUTE[5] == 'i' && ROUTE[6] == 'l' && ROUTE[7] == 'e' && ROUTE[8] == 's' && ROUTE[9] == '/'
        && ROUTE[10] == 'i' && ROUTE[11] == 'd' && ROUTE[12] == '/';
  }

  /** Two occurrences of the route share at most one slash. */
  lemma RouteOverlap(s: string, j: nat, k: nat)
    requires OccursAt(s, ROUTE, j) && OccursAt(s, ROUTE, k) && j < k
    ensures k >= j + |ROUTE| - 1
  {
    OccurrenceChars(s, ROUTE, j);
    OccurrenceChars(s, ROUTE, k);
    assert s[k] == ROUTE[0] && s[k + 1] == ROUTE[1];
    if k < j + |ROUTE| - 1 {
      RouteStartsOnce(k - j);
    }
  }

  lemma OccurrenceChars(s: string, p: string, k: nat)
    requires OccursAt(s, p, k)
    ensures forall x :: k <= x < k + |p| ==> s[x] == p[x - k]
  {
    forall x | k <= x < k + |p|
      ensures s[x] == p[x - k]
    {
      assert s[x] == s[k..k + |p|][x - k];
    }
  }

  lemma OccursInPrefix(t: string, s: string, p: string, k: nat)
    requires t <= s && k + |p| <= |t|
    ensures OccursAt(s, p, k) <==> OccursAt(t, p, k)
  {
    assert s[k..k + |p|] == t[k..k + |p|];
  }

  lemma SlashedUrl(url: string, subfileId: string)
    ensures url + "/" <= QueryEndpoint(url, subfileId)
  {
    assert ROUTE[0] == '/';
  }

  /** The base URL of a request is the endpoint's own URL if and only if that URL, with a slash
      added, does not contain the route. */
  lemma BaseUrlRoundTripIff(url: string, subfileId: string)
    ensures ExtractBaseUrl(QueryEndpoint(url, subfileId)) == Some(url) <==> !Contains(url + "/", ROUTE)
  {
    var s := QueryEndpoint(url, subfileId);
    assert OccursAt(s, ROUTE, |url|);
    var k := Find(s, ROUTE).value;
    assert s[..|url|] == url;
    SlashedUrl(url, subfileId);
    if k == |url| {
      forall j: nat | OccursAt(url + "/", ROUTE, j)
        ensures false
      {
        OccursInPrefix(url + "/", s, ROUTE, j);
      }
    } else {
      assert |s[..k]| < |url|;
      RouteOverlap(s, k, |url|);
      OccursInPrefix(url + "/", s, ROUTE, k);
    }
  }
}
