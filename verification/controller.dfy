/**
  GET /requests: the limit guardrail, the bbox validation chain with its
  early 400 returns, the four-way choice of repository query, and the
  mapping of rows to the JSON body {items, next_token}.

  The response is its status code and a JSON value; the JSON object keeps
  its members in insertion order, as the LinkedHashMaps of the handler do.
*/
module Controller {
  import opened Entity
  import opened Repo
  import opened Service
  import opened Bbox

  /** A JSON value; `JInstant` is a `created_at` timestamp as the serialiser receives it. */
  datatype Json =
    | JNull
    | JString(str: string)
    | JNumber(num: real)
    | JInstant(instant: int)
    | JArray(elems: seq<Json>)
    | JObject(members: seq<(string, Json)>)

  function Keys(members: seq<(string, Json)>): seq<string> {
    seq(|members|, k requires 0 <= k < |members| => members[k].0)
  }

  /** The value stored under `key`, as Map.get reads it. */
  function Lookup(members: seq<(string, Json)>, key: string): Option<Json> {
    if members == [] then None
    else if members[0].0 == key then Some(members[0].1)
    else Lookup(members[1..], key)
  }

  predicate DistinctKeys(members: seq<(string, Json)>) {
    forall i, j :: 0 <= i < j < |members| ==> members[i].0 != members[j].0
  }

  lemma {:induction false} LookupAt(members: seq<(string, Json)>, i: nat)
    requires i < |members| && DistinctKeys(members)
    ensures Lookup(members, members[i].0) == Some(members[i].1)
  {
    if i > 0 {
      assert members[1..][i - 1] == members[i];
      LookupAt(members[1..], i - 1);
    }
  }

  const ItemKeys: seq<string> :=
    ["external_id", "created_at", "status", "agency", "complaint_type", "descriptor", "location"]

  /** A nullable text column: its text, or an explicit null. */
  function Nullable(s: Option<string>): Json {
    match s
    case None => JNull
    case Some(t) => JString(t)
  }

  /** {lon, lat} for a point, an explicit null for a missing geometry. */
  function LocationOf(geom: Option<Point>): (j: Json)
    ensures j == JNull <==> geom.None?
  {
    match geom
    case None => JNull
    case Some(p) => JObject([("lon", JNumber(p.lon)), ("lat", JNumber(p.lat))])
  }

  /**
    One row as a response item: the seven keys in their fixed order, each
    carrying its column, and `location` always present.
  */
  function ItemOf(r: Row): (item: Json)
    ensures item.JObject? && Keys(item.members) == ItemKeys
    ensures Lookup(item.members, "external_id") == Some(JString(r.externalId))
    ensures Lookup(item.members, "created_at") == Some(JInstant(r.createdAt))
    ensures Lookup(item.members, "status") == Some(Nullable(r.status))
    ensures Lookup(item.members, "agency") == Some(Nullable(r.agency))
    ensures Lookup(item.members, "complaint_type") == Some(Nullable(r.complaintType))
    ensures Lookup(item.members, "descriptor") == Some(Nullable(r.descriptor))
    ensures Lookup(item.members, "location") == Some(JNull) <==> r.geom.None?
    ensures r.geom.Some? ==>
      Lookup(item.members, "location") == Some(JObject([("lon", JNumber(r.geom.value.lon)),
                                                        ("lat", JNumber(r.geom.value.lat))]))
  {
    var members := [
      ("external_id", JString(r.externalId)),
      ("created_at", JInstant(r.createdAt)),
      ("status", Nullable(r.status)),
      ("agency", Nullable(r.agency)),
      ("complaint_type", Nullable(r.complaintType)),
      ("descriptor", Nullable(r.descriptor)),
      ("location", LocationOf(r.geom))
    ];
    assert Keys(members) == ItemKeys;
    assert DistinctKeys(members);
    LookupAt(members, 0);
    LookupAt(members, 1);
    LookupAt(members, 2);
    LookupAt(members, 3);
    LookupAt(members, 4);
    LookupAt(members, 5);
    LookupAt(members, 6);
    JObject(members)
  }

  /** The for-each loop that appends one item per row to the `items` list. */
  method MapRows(rows: seq<Row>) returns (items: seq<Json>)
    ensures |items| == |rows|
    ensures forall k :: 0 <= k < |rows| ==> items[k] == ItemOf(rows[k])
  {
    items := [];
    for i := 0 to |rows|
      invariant |items| == i
      invariant forall k :: 0 <= k < i ==> items[k] == ItemOf(rows[k])
    {
      items := items + [ItemOf(rows[i])];
    }
  }

  datatype Response = Response(status: int, body: Json)

  /** A bad request whose body holds only the error's message. */
  function ErrorResponse(e: BboxError): (resp: Response)
    ensures resp.status == 400
    ensures resp.body.JObject? && Keys(resp.body.members) == ["error"]
    ensures Lookup(resp.body.members, "error") == Some(JString(Message(e)))
  {
    var members := [("error", JString(Message(e)))];
    assert Keys(members) == ["error"];
    Response(400, JObject(members))
  }

  /** The success body: the items, then a next_token that is always null. */
  predicate Renders(body: Json, rows: seq<Row>) {
    && body.JObject?
    && Keys(body.members) == ["items", "next_token"]
    && body.members[0].1.JArray?
    && |body.members[0].1.elems| == |rows|
    && (forall k :: 0 <= k < |rows| ==> body.members[0].1.elems[k] == ItemOf(rows[k]))
    && body.members[1].1 == JNull
  }

  /** The filter a validated bbox parameter stands for. */
  function EnvelopeOf(v: BboxParam): Option<Envelope> {
    if v.Box? then Some(Envelope(v.box.minLon, v.box.minLat, v.box.maxLon, v.box.maxLat)) else None
  }

  /**
    The bbox part of the handler: the chain of checks over the locals
    hasBbox and minLon..maxLat, stopping at the first failure.
  */
  method ValidateBbox(bbox: Option<string>, parse: string -> Option<real>)
    returns (err: Option<BboxError>, hasBbox: bool, minLon: real, minLat: real, maxLon: real, maxLat: real)
    ensures ParseBbox(bbox, parse).Invalid? <==> err.Some?
    ensures err.Some? ==> err.value == ParseBbox(bbox, parse).error
    ensures hasBbox <==> ParseBbox(bbox, parse).Box?
    ensures ParseBbox(bbox, parse).NoFilter? ==> minLon == minLat == maxLon == maxLat == 0.0
    ensures hasBbox ==> ParseBbox(bbox, parse).box == BoundingBox(minLon, minLat, maxLon, maxLat)
  {
    hasBbox := false;
    minLon, minLat, maxLon, maxLat := 0.0, 0.0, 0.0, 0.0;
    if bbox.Some? && !IsBlank(bbox.value) {
      var parts := JavaSplit(bbox.value, ',');
      if |parts| != 4 {
        return Some(WrongFieldCount), false, minLon, minLat, maxLon, maxLat;
      }
      var n0 := parse(parts[0]);
      if n0.None? {
        return Some(NotNumeric), false, minLon, minLat, maxLon, maxLat;
      }
      minLon := n0.value;
      var n1 := parse(parts[1]);
      if n1.None? {
        return Some(NotNumeric), false, minLon, minLat, maxLon, maxLat;
      }
      minLat := n1.value;
      var n2 := parse(parts[2]);
      if n2.None? {
        return Some(NotNumeric), false, minLon, minLat, maxLon, maxLat;
      }
      maxLon := n2.value;
      var n3 := parse(parts[3]);
      if n3.None? {
        return Some(NotNumeric), false, minLon, minLat, maxLon, maxLat;
      }
      maxLat := n3.value;

      if !(minLon < maxLon && minLat < maxLat) {
        return Some(BadOrdering), false, minLon, minLat, maxLon, maxLat;
      }
      if minLon < -180.0 || maxLon > 180.0 || minLat < -90.0 || maxLat > 90.0 {
        return Some(OutOfRange), false, minLon, minLat, maxLon, maxLat;
      }
      hasBbox := true;
    }
    err := None;
  }

  /** The success response: 200 with the items, then a null next_token. */
  method RenderRows(rows: seq<Row>) returns (resp: Response)
    ensures resp.status == 200 && Renders(resp.body, rows)
  {
    var items := MapRows(rows);
    var members := [("items", JArray(items)), ("next_token", JNull)];
    assert Keys(members) == ["items", "next_token"];
    resp := Response(200, JObject(members));
  }

  /**
    The query chosen for a validated bbox parameter answers the generic
    search with the clamped limit, `since`, and the parameter's envelope.
  */
  lemma SelectedQueryAnswers(table: seq<Row>, limit: int, since: Option<int>, v: BboxParam,
                             minLon: real, minLat: real, maxLon: real, maxLat: real)
    requires !v.Invalid?
    requires v.Box? ==> v.box == BoundingBox(minLon, minLat, maxLon, maxLat)
    ensures Execute(table, SelectQuery(limit, since, v.Box?, minLon, minLat, maxLon, maxLat))
         == Search(table, Clamp(limit), since, EnvelopeOf(v))
  {
  }

  /**
    The handler. `table` is the store's contents and `parse` stands for
    Double.parseDouble. `call` is the repository call the handler made, if
    any: none on every 400 path; otherwise the very call the service layer
    would choose for the same inputs, answering the generic search.
  */
  method List(limit: int, since: Option<int>, bbox: Option<string>, table: seq<Row>,
              parse: string -> Option<real>)
    returns (resp: Response, call: Option<RepoCall>)
    ensures ParseBbox(bbox, parse).Invalid? ==>
              call.None? && resp == ErrorResponse(ParseBbox(bbox, parse).error)
    ensures ParseBbox(bbox, parse).NoFilter? ==>
              call == Some(SelectQuery(limit, since, false, 0.0, 0.0, 0.0, 0.0))
    ensures ParseBbox(bbox, parse).Box? ==>
              var b := ParseBbox(bbox, parse).box;
              call == Some(SelectQuery(limit, since, true, b.minLon, b.minLat, b.maxLon, b.maxLat))
    ensures call.Some? ==>
              && resp.status == 200
              && Execute(table, call.value) == Search(table, Clamp(limit), since, EnvelopeOf(ParseBbox(bbox, parse)))
              && Renders(resp.body, Execute(table, call.value))
  {
    var clampedLimit := Clamp(limit);

    var err, hasBbox, minLon, minLat, maxLon, maxLat := ValidateBbox(bbox, parse);
    if err.Some? {
      return ErrorResponse(err.value), None;
    }

    var hasSince := since.Some?;
    var repoCall: RepoCall;
    if !hasSince && !hasBbox {
      repoCall := PlainCall(clampedLimit);
    } else if hasSince && !hasBbox {
      repoCall := SinceCall(clampedLimit, since.value);
    } else if !hasSince && hasBbox {
      repoCall := BboxCall(clampedLimit, minLon, minLat, maxLon, maxLat);
    } else {
      repoCall := SinceBboxCall(clampedLimit, since.value, minLon, minLat, maxLon, maxLat);
    }
    assert repoCall == SelectQuery(limit, since, hasBbox, minLon, minLat, maxLon, maxLat);
    SelectedQueryAnswers(table, limit, since, ParseBbox(bbox, parse), minLon, minLat, maxLon, maxLat);

    var rows := Execute(table, repoCall);
    resp := RenderRows(rows);
    call := Some(repoCall);
  }
}
