/**
  The `service_requests` row as the query layer sees it.

  Timestamps (`OffsetDateTime`) compare by instant, so they are modelled as
  integers on a common time line. A nullable Java reference becomes an
  `Option`. The PostGIS `geometry(Point,4326)` column becomes an optional
  longitude/latitude pair.
*/
module Entity {

  datatype Option<+T> = None | Some(value: T)

  /** A WGS84 point: x is the longitude, y the latitude. */
  datatype Point = Point(lon: real, lat: real)

  /**
    One row of `service_requests`. `id` is the store-assigned primary key,
    `externalId` and `createdAt` are NOT NULL columns, the classification
    fields and the geometry may be null.
  */
  datatype Row = Row(
    id: int,
    externalId: string,
    createdAt: int,
    status: Option<string>,
    agency: Option<string>,
    complaintType: Option<string>,
    descriptor: Option<string>,
    geom: Option<Point>)

  /** The primary-key constraint: no two positions of a table hold the same id. */
  predicate UniqueIds(table: seq<Row>) {
    forall i, j :: 0 <= i < |table| && 0 <= j < |table| && i != j ==> table[i].id != table[j].id
  }
}
