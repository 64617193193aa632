# NYC 311 service-request listing: a Dafny model of `GET /requests`

This project models the decision-making core of a read-only HTTP service
over NYC 311 complaint records. `GET /requests?limit=&since=&bbox=` turns
loosely typed query parameters into one bounded, filtered and ordered store
query, and renders the rows in a fixed JSON shape:

- **Bbox** (`bbox.dfy`): the `bbox` parameter is read as *no filter*, a
  rectangle, or one of four 400 errors. Blank input means no filter. Otherwise
  Java's `String.split(",")` must give exactly four parts, all four must parse
  as numbers, the box must satisfy `min < max` on both axes, and it must lie
  inside the WGS84 range. The checks run in that order. `Double.parseDouble`
  is a parameter `parse: string -> Option<real>`, so every result holds for
  any parser.
- **Service** (`service.dfy`): the limit guardrail `min(max(limit, 1), 100)`
  and the four-way choice of repository method from
  `(since present, bbox present)`.
- **Repo** (`repo.dfy`): the four native SQL queries as functions over the
  table's rows: WHERE, then ORDER BY `created_at DESC, id DESC`, then LIMIT.
  All four are proved to be instances of one generic `Search` with optional
  `since` and envelope predicates. The properties are proved once, about
  `Search`.
- **Controller** (`controller.dfy`): the handler `List`. It runs the bbox chain
  with its early returns (`ValidateBbox`), makes its own four-way dispatch and
  maps the rows to items in a loop (`MapRows`). It returns the response and
  the repository call it made, so that "no query on a 400" and "the same call
  the service layer would make" become postconditions.
- **Entity** (`entity.dfy`): the `service_requests` row. Timestamps are
  integers on one time line, because `OffsetDateTime` values compare by
  instant. Nullable columns are `Option`s.

The queries use PostGIS `ST_Contains`, which is false for a point on the
envelope's boundary and for a NULL geometry. So `Repo.StContains` is strict
on all four sides, and `None` never matches.
`ST_MakeEnvelope(x1, y1, x2, y2)` builds the rectangle with those two
corners whichever way round they are given. Containment is therefore
"strictly between" each pair of bounds. `Repo.ContainsOrderedEnvelope` shows
that this is the plain strict test for the ordered boxes the handler passes.

## Model

| member | source | states |
|---|---|---|
| `Service.Clamp` | api/src/main/java/dev/kayzao/nyc311/service/ServiceRequestService.java:37 | The effective limit always lies in [1, 100]. A limit already in range is kept, anything below 1 becomes 1 and anything above 100 becomes 100. The handler uses the same clamp (ServiceRequestController.java:38). |
| `Service.SelectQuery` | api/src/main/java/dev/kayzao/nyc311/service/ServiceRequestService.java:38-48 | Exactly one repository method is chosen, the one named by (since present, bbox present), and it always gets the clamped limit. `since` is passed exactly when present. The four coordinates are passed unchanged exactly when `hasBbox` holds. |
| `Service.SearchRequests` | api/src/main/java/dev/kayzao/nyc311/service/ServiceRequestService.java:27-49 | The result is the repository's answer, unchanged. That answer equals the generic search with the clamped limit, `since`, and the envelope only when `hasBbox` holds. It has at most `Clamp(limit)` ≤ 100 rows. |
| `Service.CoordinatesIgnoredWithoutBbox` | api/src/main/java/dev/kayzao/nyc311/service/ServiceRequestService.java:40-43 | When `hasBbox` is false, the four coordinate arguments change neither the chosen call nor the rows returned. |
| `Repo.StContains` | api/src/main/java/dev/kayzao/nyc311/repo/ServiceRequestRepo.java:39-41 | The geometry is present and lies strictly between the smaller and the larger of the two corner coordinates, on both axes. Corners given in either order describe the same rectangle. A point on an edge and a NULL geometry are never contained. |
| `Repo.ContainsOrderedEnvelope` | api/src/main/java/dev/kayzao/nyc311/repo/ServiceRequestRepo.java:39-41 | For an envelope with min < max, `ST_Contains` holds exactly when the geometry is present and strictly inside on all four sides. |
| `Repo.SortByRecency` | api/src/main/java/dev/kayzao/nyc311/repo/ServiceRequestRepo.java:19 | ORDER BY gives a permutation of its input (same multiset), ordered newest first with ties broken by the larger id. |
| `Repo.Where` | api/src/main/java/dev/kayzao/nyc311/repo/ServiceRequestRepo.java:28 | WHERE keeps every row that satisfies the predicate, with its multiplicity, and drops every other row. |
| `Repo.Take` | api/src/main/java/dev/kayzao/nyc311/repo/ServiceRequestRepo.java:20 | LIMIT gives a prefix of at most `limit` rows. If it returns fewer than `limit` rows, it returns them all. |
| `Repo.Search` | api/src/main/java/dev/kayzao/nyc311/repo/ServiceRequestRepo.java:17-64 | The generic search returns at most `limit` rows, ordered by (created_at DESC, id DESC). Each row has `created_at >= since` when `since` is given, and a non-null geometry strictly inside the envelope when one is given. The result is a sub-multiset of the table. |
| `Repo.SearchIsTopK` | api/src/main/java/dev/kayzao/nyc311/repo/ServiceRequestRepo.java:19-20 | The result is the top `limit` of the matching rows. Any matching row that was not returned ranks at or below every returned row. |
| `Repo.SearchIsComplete` | api/src/main/java/dev/kayzao/nyc311/repo/ServiceRequestRepo.java:18-20 | When fewer than `limit` rows come back, every matching row of the table came back, as often as the table holds it. |
| `Repo.SearchStrictlyOrdered` | api/src/main/java/dev/kayzao/nyc311/repo/ServiceRequestRepo.java:19 | Under the primary key on `id`, no two returned rows tie: each one ranks strictly ahead of the next. |
| `Repo.SearchDeterministic` | api/src/main/java/dev/kayzao/nyc311/repo/ServiceRequestRepo.java:57 | Under the primary key, two tables holding the same rows in any physical order give the same answer. The order is total. |
| `Repo.ContainmentExamples` | api/src/main/java/dev/kayzao/nyc311/repo/ServiceRequestRepo.java:39-41 | A row at (-73.9, 40.7) is found with the box -74,40,-73,41 and not with -73.8,40,-73.7,41. A row on the western edge, (-74, 40.5), is not found. |
| `Repo.SearchPlain` | api/src/main/java/dev/kayzao/nyc311/repo/ServiceRequestRepo.java:17-23 | The query with no WHERE clause returns every row, newest first, cut at the limit. It equals the generic search with neither `since` nor an envelope. |
| `Repo.SearchSince` | api/src/main/java/dev/kayzao/nyc311/repo/ServiceRequestRepo.java:26-34 | The query keeping rows created at or after `since` equals the generic search with `since` and no envelope. |
| `Repo.SearchBbox` | api/src/main/java/dev/kayzao/nyc311/repo/ServiceRequestRepo.java:37-48 | The query keeping rows whose point lies strictly inside the envelope equals the generic search with the envelope and no `since`. |
| `Repo.SearchSinceBbox` | api/src/main/java/dev/kayzao/nyc311/repo/ServiceRequestRepo.java:51-64 | The query with both filters joined by AND filters by the conjunction of both predicates and equals the generic search with both. |
| `Repo.Execute` | api/src/main/java/dev/kayzao/nyc311/repo/ServiceRequestRepo.java:14-64 | Running the repository method a call names answers the generic search on its own limit, `since` and envelope arguments. |
| `Bbox.IsBlank` | api/src/main/java/dev/kayzao/nyc311/web/ServiceRequestController.java:44 | `isBlank()` as a scan for the first non-whitespace character: the string is blank exactly when every character is whitespace, under `Character.isWhitespace`. The empty string is blank. |
| `Bbox.Message` | api/src/main/java/dev/kayzao/nyc311/web/ServiceRequestController.java:46-71 | The four 400 texts, word for word: the field count, the numbers, the min<max ordering and the WGS84 range. Each one starts with "bbox ". |
| `Bbox.MessagesDistinct` | api/src/main/java/dev/kayzao/nyc311/web/ServiceRequestController.java:46-71 | Two errors have the same text exactly when they are the same error, so a client can tell the four apart. |
| `Bbox.JavaSplit` | api/src/main/java/dev/kayzao/nyc311/web/ServiceRequestController.java:45 | `split(",")` returns the whole string as the only part when there is no comma. Otherwise it returns the comma-separated pieces with the empty pieces at the end removed. |
| `Bbox.JoinPieces` | api/src/main/java/dev/kayzao/nyc311/web/ServiceRequestController.java:45 | Joining the comma-separated pieces with commas gives back the original string. |
| `Bbox.PiecesJoin` | api/src/main/java/dev/kayzao/nyc311/web/ServiceRequestController.java:45 | Splitting a comma-join of comma-free pieces gives back those pieces. |
| `Bbox.SplitTrailingComma` | api/src/main/java/dev/kayzao/nyc311/web/ServiceRequestController.java:45-46 | `"1,2,3,4,"` splits into four parts, because the trailing empty piece is dropped. |
| `Bbox.SplitOnlyCommas` | api/src/main/java/dev/kayzao/nyc311/web/ServiceRequestController.java:45-46 | `",,,,"` splits into no parts at all. |
| `Bbox.SplitThreeFields` | api/src/main/java/dev/kayzao/nyc311/web/ServiceRequestController.java:45-46 | `"1,2,3"` splits into three parts. |
| `Bbox.ParseParts` | api/src/main/java/dev/kayzao/nyc311/web/ServiceRequestController.java:51-59 | The four parts give a box exactly when every part parses. The numbers go to minLon, minLat, maxLon, maxLat in that order. |
| `Bbox.ParseBbox` | api/src/main/java/dev/kayzao/nyc311/web/ServiceRequestController.java:40-74 | The result is "no filter" exactly when the parameter is absent or blank. It is the field-count error exactly when a non-blank value does not split into four parts. An accepted box is strictly ordered, lies inside WGS84, and is the parse of the four parts. |
| `Bbox.NotNumericExactly` | api/src/main/java/dev/kayzao/nyc311/web/ServiceRequestController.java:51-59 | With four parts, the result is the "values must be numbers" error exactly when some part does not parse. |
| `Bbox.OrderingBeforeRange` | api/src/main/java/dev/kayzao/nyc311/web/ServiceRequestController.java:61-73 | With four parsed numbers: a box that is not strictly ordered gives the ordering error, even when it is also out of range. An ordered box outside WGS84 gives the range error. Any other box is accepted as parsed. |
| `Bbox.ThreeFieldsRefused` | api/src/main/java/dev/kayzao/nyc311/web/ServiceRequestController.java:45-50 | `"1,2,3"` gets the field-count error, whatever the parser would return. |
| `Bbox.EqualBoundsRefused` | api/src/main/java/dev/kayzao/nyc311/web/ServiceRequestController.java:61-65 | `"-74,40,-74,41"`, with equal longitudes, gets the min<max error. |
| `Bbox.OutOfRangeRefused` | api/src/main/java/dev/kayzao/nyc311/web/ServiceRequestController.java:67-71 | `"-200,40,-73,41"` gets the WGS84 error. |
| `Bbox.ValidBoxAccepted` | api/src/main/java/dev/kayzao/nyc311/web/ServiceRequestController.java:40-74 | `"-74,40,-73,41"` is accepted as the box (-74, 40, -73, 41). |
| `Controller.LocationOf` | api/src/main/java/dev/kayzao/nyc311/web/ServiceRequestController.java:103-112 | `location` is null exactly when the geometry is null. |
| `Controller.ItemOf` | api/src/main/java/dev/kayzao/nyc311/web/ServiceRequestController.java:94-112 | An item has the keys external_id, created_at, status, agency, complaint_type, descriptor and location, in that order. Each key holds its column, or null when the column is null. `location` is always present. It is null exactly when the geometry is null, and `{lon, lat}` of the point otherwise. |
| `Controller.MapRows` | api/src/main/java/dev/kayzao/nyc311/web/ServiceRequestController.java:91-115 | The loop gives exactly one item per row, in row order. |
| `Controller.ErrorResponse` | api/src/main/java/dev/kayzao/nyc311/web/ServiceRequestController.java:48-49 | A bbox error gives status 400 and a body whose only key is `error`, holding that error's message. The same shape is used at :57-58, :63-64 and :69-70. |
| `Controller.RenderRows` | api/src/main/java/dev/kayzao/nyc311/web/ServiceRequestController.java:117-122 | The success response has status 200 and the body `{items, next_token}`, in that key order. `items` holds one item per row, in row order, and `next_token` is null. |
| `Controller.SelectedQueryAnswers` | api/src/main/java/dev/kayzao/nyc311/web/ServiceRequestController.java:76-88 | For a bbox parameter that passed validation, the query chosen from (since present, box present) returns the generic search with the clamped limit, `since`, and the box's envelope when there is a box. |
| `Controller.ValidateBbox` | api/src/main/java/dev/kayzao/nyc311/web/ServiceRequestController.java:40-74 | The imperative chain of checks agrees with `ParseBbox`: the same error, or `hasBbox` with the same four coordinates. The coordinates stay 0.0 when there is no filter. |
| `Controller.List` | api/src/main/java/dev/kayzao/nyc311/web/ServiceRequestController.java:33-123 | A bbox error gives a 400 with that error's message, and no repository call is made. Otherwise the response is a 200, and the handler's own dispatch makes the same call `SelectQuery` chooses for the same inputs. That call answers the generic search. The body is `{items, next_token: null}` with one item per row, in order. |

## Left out

- HTTP framework plumbing is not modelled: routing, parameter binding and `ResponseEntity` construction. The response is reduced to its status and a JSON value. A `limit` or `since` the framework cannot convert is rejected before the handler runs, so the handler holds no logic for it.
- The ISO-8601 parsing of `since` and the JSON serialisation of `created_at` are library behaviour and are left out. `since` is an optional integer instant, and `created_at` appears in an item as that instant.
- `Double.parseDouble` is a parameter. Its whitespace trimming and its `NaN`/`Infinity` literals are not modelled. Coordinates are `real`, so IEEE-754 effects are out of scope, for example a `NaN` failing every comparison.
- Java's `int` range for `limit` is not modelled. It does not matter here: `Math.min`/`Math.max` cannot overflow.
- Repo: `LIMIT` is typed `nat`. A negative limit would be a database error, and the callers only ever pass a clamped limit in [1, 100].
- Geometry beyond a point in an envelope is left out: SRID handling, and geometries other than points.
- Store failures, the connection pool and concurrent requests are left out, since they are I/O and concurrency. The store's contents are the parameter `table`.
- The row omits `closedAt` and `raw`, because no query or response uses them. JPA annotations and getters and setters carry no logic.

## Findings

None.
