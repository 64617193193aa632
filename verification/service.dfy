/**
  The service layer: the limit guardrail and the choice of one of the four
  repository queries from the presence of `since` and of a bounding box.
  The repository itself is the store's contents, passed as `table`.
*/
module Service {
  import opened Entity
  import opened Repo

  const MinLimit: int := 1
  const MaxLimit: int := 100

  /** The limit guardrail: raised to at least 1, then lowered to at most 100. */
  function Clamp(limit: int): (r: nat)
    ensures MinLimit <= r <= MaxLimit
    ensures MinLimit <= limit <= MaxLimit ==> r == limit
    ensures limit < MinLimit ==> r == MinLimit
    ensures limit > MaxLimit ==> r == MaxLimit
  {
    var atLeastOne := if limit > MinLimit then limit else MinLimit;
    if atLeastOne < MaxLimit then atLeastOne else MaxLimit
  }

  /**
    The dispatch of searchRequests: exactly one repository method, the one
    named by (since present, bbox present), always with the clamped limit;
    `since` and the coordinates are passed only to the methods that take them.
  */
  function SelectQuery(limit: int, since: Option<int>, hasBbox: bool,
                       minLon: real, minLat: real, maxLon: real, maxLat: real): (call: RepoCall)
    ensures call.limit == Clamp(limit)
    ensures call.PlainCall? <==> since.None? && !hasBbox
    ensures call.SinceCall? <==> since.Some? && !hasBbox
    ensures call.BboxCall? <==> since.None? && hasBbox
    ensures call.SinceBboxCall? <==> since.Some? && hasBbox
    ensures CallSince(call) == since
    ensures hasBbox ==> CallEnvelope(call) == Some(Envelope(minLon, minLat, maxLon, maxLat))
  {
    var clampedLimit := Clamp(limit);
    var hasSince := since.Some?;
    if !hasSince && !hasBbox then
      PlainCall(clampedLimit)
    else if hasSince && !hasBbox then
      SinceCall(clampedLimit, since.value)
    else if !hasSince && hasBbox then
      BboxCall(clampedLimit, minLon, minLat, maxLon, maxLat)
    else
      SinceBboxCall(clampedLimit, since.value, minLon, minLat, maxLon, maxLat)
  }

  /** The optional filter the four coordinates stand for once `hasBbox` gates them. */
  function GatedEnvelope(hasBbox: bool, minLon: real, minLat: real, maxLon: real, maxLat: real): Option<Envelope> {
    if hasBbox then Some(Envelope(minLon, minLat, maxLon, maxLat)) else None
  }

  /**
    searchRequests: the repository's answer, returned unchanged; it is the
    generic search with the clamped limit and the filters that are present.
  */
  function SearchRequests(table: seq<Row>, limit: int, since: Option<int>, hasBbox: bool,
                          minLon: real, minLat: real, maxLon: real, maxLat: real): (rows: seq<Row>)
    ensures rows == Search(table, Clamp(limit), since, GatedEnvelope(hasBbox, minLon, minLat, maxLon, maxLat))
    ensures |rows| <= Clamp(limit) <= MaxLimit
  {
    var call := SelectQuery(limit, since, hasBbox, minLon, minLat, maxLon, maxLat);
    Execute(table, call)
  }

  /** Without a bounding box the four coordinate arguments have no effect. */
  lemma CoordinatesIgnoredWithoutBbox(table: seq<Row>, limit: int, since: Option<int>,
                                      a: real, b: real, c: real, d: real,
                                      a': real, b': real, c': real, d': real)
    ensures SelectQuery(limit, since, false, a, b, c, d) == SelectQuery(limit, since, false, a', b', c', d')
    ensures SearchRequests(table, limit, since, false, a, b, c, d)
         == SearchRequests(table, limit, since, false, a', b', c', d')
  {
  }
}
