/** `matchCache` and `getMatchData`, identical in both drafts of the match
    scripts: a page-lifetime memo from match id to the parsed body of
    `/fetch_match`. It is written only after a successful response, never
    evicted, and an entry counts as a hit only when it is truthy. */
module MatchCache {
  import opened Basics
  import opened Dom

  /** One row of `/fetch_match`; the scripts read only its `team`. */
  datatype MatchRow = MatchRow(team: string)

  /** The parsed body: a JSON array of rows (truthy even when empty) or JSON
      `null` (falsy). */
  datatype MatchData = Null | Rows(rows: seq<MatchRow>)

  predicate Truthy(d: MatchData) { d.Rows? }

  /** `if (matchCache[match_id])`. */
  predicate IsHit(entries: map<nat, MatchData>, matchId: nat) {
    matchId in entries && Truthy(entries[matchId])
  }

  /** A miss resolves with the body exactly when the response is ok and its
      body parses; every other outcome rejects. */
  predicate Resolves(response: Fetched<MatchData>) {
    response.Response? && IsOkStatus(response.status) && response.body.Some?
  }

  class Cache {
    var entries: map<nat, MatchData>
    var requests: seq<nat>   // ids posted to /fetch_match, in order

    constructor()
      ensures entries == map[] && requests == []
    {
      entries := map[];
      requests := [];
    }

    /** `getMatchData(match_id)`, with the outcome of the fetch it would issue
        on a miss given as `response`. A hit resolves to the cached entry and
        issues no request; a miss issues one request and caches the body only
        when it resolves. */
    method Get(matchId: nat, response: Fetched<MatchData>) returns (r: Result<MatchData>)
      modifies this
      ensures IsHit(old(entries), matchId) ==>
        && r == Ok(old(entries)[matchId])
        && entries == old(entries) && requests == old(requests)
      ensures !IsHit(old(entries), matchId) ==> requests == old(requests) + [matchId]
      ensures !IsHit(old(entries), matchId) && Resolves(response) ==>
        && r == Ok(response.body.value)
        && entries == old(entries)[matchId := response.body.value]
      ensures !IsHit(old(entries), matchId) && !Resolves(response) ==>
        r.Err? && entries == old(entries)
    {
      if matchId in entries && Truthy(entries[matchId]) {
        return Ok(entries[matchId]);
      }
      requests := requests + [matchId];
      match response
      case NetworkError =>
        r := Err("TypeError: Failed to fetch");
      case Response(status, body) =>
        if !IsOkStatus(status) {
          r := Err("Error: HTTP error!");
        } else if body.None? {
          r := Err("SyntaxError: invalid JSON");
        } else {
          entries := entries[matchId := body.value];
          r := Ok(body.value);
        }
    }
  }

  /** Two lookups of the same id, the first answered by a successful fetch of
      rows: one network request in all, and both lookups see the same rows,
      whatever the second fetch would have returned. */
  method GetTwice(matchId: nat, first: Fetched<MatchData>, second: Fetched<MatchData>)
    returns (a: Result<MatchData>, b: Result<MatchData>, requestCount: nat)
    requires Resolves(first) && Truthy(first.body.value)
    ensures a == b == Ok(first.body.value)
    ensures requestCount == 1
  {
    var cache := new Cache();
    a := cache.Get(matchId, first);
    b := cache.Get(matchId, second);
    requestCount := |cache.requests|;
  }
}
