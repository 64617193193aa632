/**
  The `bbox` query parameter of GET /requests: blank means no filter;
  otherwise it is split on commas and must give exactly four numbers
  minLon,minLat,maxLon,maxLat that are strictly ordered and inside the
  WGS84 range. The checks run in that order and the first one that fails
  names the 400 error.

  `Double.parseDouble` is a parameter `parse`: `None` where it would throw
  NumberFormatException, `Some(v)` where it returns the number v.
*/
module Bbox {
  import opened Entity

  // ---------------------------------------------------------------------
  // String.isBlank
  // ---------------------------------------------------------------------

  /** Character.isWhitespace: Unicode space, line and paragraph separators except
      the non-breaking ones, plus the ASCII and information-separator controls. */
  predicate IsWhitespace(c: char) {
    var n := c as int;
    || (0x09 <= n <= 0x0D)
    || (0x1C <= n <= 0x20)
    || n == 0x1680
    || (0x2000 <= n <= 0x2006)
    || (0x2008 <= n <= 0x200A)
    || n == 0x2028 || n == 0x2029 || n == 0x205F || n == 0x3000
  }

  /** The index of the first character that is not whitespace, or |s| when there is none. */
  function FirstNonWhitespace(s: string): (i: nat)
    ensures i <= |s|
    ensures forall k :: 0 <= k < i ==> IsWhitespace(s[k])
    ensures i < |s| ==> !IsWhitespace(s[i])
  {
    if s == [] || !IsWhitespace(s[0]) then 0 else 1 + FirstNonWhitespace(s[1..])
  }

  /** String.isBlank: the scan for a non-whitespace character runs off the end. */
  function IsBlank(s: string): (blank: bool)
    ensures blank <==> forall i :: 0 <= i < |s| ==> IsWhitespace(s[i])
  {
    FirstNonWhitespace(s) == |s|
  }

  // ---------------------------------------------------------------------
  // String.split(",")
  // ---------------------------------------------------------------------

  /** Every piece between two separators, empty ones included. */
  function Pieces(s: string, c: char): (parts: seq<string>)
    ensures |parts| >= 1
    ensures forall k :: 0 <= k < |parts| ==> c !in parts[k]
  {
    if s == [] then
      [[]]
    else
      var rest := Pieces(s[1..], c);
      if s[0] == c then [[]] + rest else [[s[0]] + rest[0]] + rest[1..]
  }

  /** Glues pieces back together with the separator between them. */
  function Join(parts: seq<string>, c: char): string
    requires |parts| >= 1
  {
    if |parts| == 1 then parts[0] else parts[0] + [c] + Join(parts[1..], c)
  }

  /** Splitting and joining again gives back the string. */
  lemma {:induction false} JoinPieces(s: string, c: char)
    ensures Join(Pieces(s, c), c) == s
  {
    if s != [] {
      var rest := Pieces(s[1..], c);
      JoinPieces(s[1..], c);
      if s[0] != c {
        if |rest| == 1 {
          assert Pieces(s, c) == [[s[0]] + rest[0]];
        } else {
          assert Pieces(s, c)[1..] == rest[1..];
          assert Join(Pieces(s, c), c) == [s[0]] + rest[0] + [c] + Join(rest[1..], c);
        }
        assert s == [s[0]] + s[1..];
      } else {
        assert Pieces(s, c)[1..] == rest;
      }
    }
  }

  /** One step of Pieces on a string that starts with a character other than the separator. */
  lemma PiecesNonSeparatorHead(ch: char, s: string, c: char)
    requires ch != c
    ensures Pieces([ch] + s, c) == [[ch] + Pieces(s, c)[0]] + Pieces(s, c)[1..]
  {
    assert ([ch] + s)[1..] == s;
  }

  /** One step of Pieces on a string that starts with the separator. */
  lemma PiecesSeparatorHead(s: string, c: char)
    ensures Pieces([c] + s, c) == [[]] + Pieces(s, c)
  {
    assert ([c] + s)[1..] == s;
  }

  /** Moving the first character of the first part out of a join. */
  lemma JoinFirstChar(parts: seq<string>, c: char)
    requires |parts| >= 1 && parts[0] != []
    ensures Join(parts, c) == [parts[0][0]] + Join([parts[0][1..]] + parts[1..], c)
  {
    var tail := [parts[0][1..]] + parts[1..];
    assert parts[0] == [parts[0][0]] + tail[0];
    if |parts| > 1 {
      assert tail[1..] == parts[1..];
    }
  }

  /** Joining pieces free of the separator and splitting again gives back the pieces. */
  lemma {:induction false} PiecesJoin(parts: seq<string>, c: char)
    requires |parts| >= 1
    requires forall k :: 0 <= k < |parts| ==> c !in parts[k]
    ensures Pieces(Join(parts, c), c) == parts
    decreases |parts|, |parts[0]|
  {
    if parts[0] != [] {
      var p := parts[0];
      var tail := [p[1..]] + parts[1..];
      assert c !in tail[0];
      PiecesJoin(tail, c);
      JoinFirstChar(parts, c);
      assert p[0] != c;
      PiecesNonSeparatorHead(p[0], Join(tail, c), c);
      assert [p[0]] + tail[0] == p;
      assert tail[1..] == parts[1..];
    } else if |parts| > 1 {
      PiecesJoin(parts[1..], c);
      assert Join(parts, c) == [c] + Join(parts[1..], c);
      PiecesSeparatorHead(Join(parts[1..], c), c);
    }
  }

  /** A string without the separator is a single piece. */
  lemma {:induction false} PiecesWithoutSeparator(s: string, c: char)
    requires c !in s
    ensures Pieces(s, c) == [s]
  {
    if s != [] {
      PiecesWithoutSeparator(s[1..], c);
      assert s == [s[0]] + s[1..];
    }
  }

  /** Drops the empty pieces at the end. */
  function DropTrailingEmpty(parts: seq<string>): (r: seq<string>)
    ensures r <= parts
    ensures r == [] || r[|r| - 1] != []
    ensures forall k :: |r| <= k < |parts| ==> parts[k] == []
  {
    if parts != [] && parts[|parts| - 1] == [] then DropTrailingEmpty(parts[..|parts| - 1]) else parts
  }

  /**
    String.split with a one-character separator and limit 0: when the
    separator does not occur the whole string is the only part; otherwise
    the pieces, without the empty pieces at the end.
  */
  function JavaSplit(s: string, c: char): (parts: seq<string>)
    ensures parts <= Pieces(s, c)
    ensures c !in s ==> parts == [s]
    ensures c in s ==> parts == [] || parts[|parts| - 1] != []
    ensures c in s ==> forall k :: |parts| <= k < |Pieces(s, c)| ==> Pieces(s, c)[k] == []
  {
    if c !in s then
      PiecesWithoutSeparator(s, c);
      [s]
    else
      DropTrailingEmpty(Pieces(s, c))
  }

  // ---------------------------------------------------------------------
  // Validation
  // ---------------------------------------------------------------------

  datatype BoundingBox = BoundingBox(minLon: real, minLat: real, maxLon: real, maxLat: real)

  datatype BboxError = WrongFieldCount | NotNumeric | BadOrdering | OutOfRange

  /** The text of the 400 response's "error" field. */
  function Message(e: BboxError): (m: string)
    ensures |m| > 5 && m[..5] == "bbox "
  {
    match e
    case WrongFieldCount => "bbox " + "must be 'minLon,minLat,maxLon,maxLat'"
    case NotNumeric => "bbox " + "values must be numbers"
    case BadOrdering => "bbox " + "must have min<max for both lon and lat"
    case OutOfRange => "bbox " + "out of WGS84 range"
  }

  /** Each of the four errors has its own text. */
  lemma MessagesDistinct(e1: BboxError, e2: BboxError)
    ensures Message(e1) == Message(e2) <==> e1 == e2
  {
  }

  /** The three outcomes of reading the parameter. */
  datatype BboxParam = NoFilter | Box(box: BoundingBox) | Invalid(error: BboxError)

  predicate WellOrdered(b: BoundingBox) {
    b.minLon < b.maxLon && b.minLat < b.maxLat
  }

  predicate InWgs84(b: BoundingBox) {
    !(b.minLon < -180.0 || b.maxLon > 180.0 || b.minLat < -90.0 || b.maxLat > 90.0)
  }

  /** The four parts as numbers, in the order minLon, minLat, maxLon, maxLat. */
  function ParseParts(parts: seq<string>, parse: string -> Option<real>): (r: Option<BoundingBox>)
    requires |parts| == 4
    ensures r.Some? <==> forall k :: 0 <= k < 4 ==> parse(parts[k]).Some?
    ensures r.Some? ==> r.value == BoundingBox(parse(parts[0]).value, parse(parts[1]).value,
                                               parse(parts[2]).value, parse(parts[3]).value)
  {
    var p0, p1, p2, p3 := parse(parts[0]), parse(parts[1]), parse(parts[2]), parse(parts[3]);
    if p0.None? || p1.None? || p2.None? || p3.None? then None
    else Some(BoundingBox(p0.value, p1.value, p2.value, p3.value))
  }

  /**
    The validation chain: blank, then the field count, then the numbers,
    then the ordering, then the WGS84 range.
  */
  function ParseBbox(raw: Option<string>, parse: string -> Option<real>): (v: BboxParam)
    ensures v.NoFilter? <==> raw.None? || IsBlank(raw.value)
    ensures v == Invalid(WrongFieldCount) <==>
              raw.Some? && !IsBlank(raw.value) && |JavaSplit(raw.value, ',')| != 4
    ensures v.Box? ==> WellOrdered(v.box) && InWgs84(v.box)
    ensures v.Box? ==> raw.Some? && |JavaSplit(raw.value, ',')| == 4
                       && ParseParts(JavaSplit(raw.value, ','), parse) == Some(v.box)
  {
    if raw.None? || IsBlank(raw.value) then
      NoFilter
    else
      var parts := JavaSplit(raw.value, ',');
      if |parts| != 4 then
        Invalid(WrongFieldCount)
      else
        match ParseParts(parts, parse)
        case None => Invalid(NotNumeric)
        case Some(b) =>
          if !WellOrdered(b) then Invalid(BadOrdering)
          else if !InWgs84(b) then Invalid(OutOfRange)
          else Box(b)
  }

  /** A non-blank value whose four parts do not all parse is "values must be numbers". */
  lemma NotNumericExactly(raw: string, parse: string -> Option<real>)
    requires !IsBlank(raw) && |JavaSplit(raw, ',')| == 4
    ensures ParseBbox(Some(raw), parse) == Invalid(NotNumeric) <==>
              exists k :: 0 <= k < 4 && parse(JavaSplit(raw, ',')[k]).None?
  {
  }

  /** With four numbers, the ordering is checked before the range: a box failing both reports the ordering. */
  lemma OrderingBeforeRange(raw: string, parse: string -> Option<real>, b: BoundingBox)
    requires !IsBlank(raw) && |JavaSplit(raw, ',')| == 4
    requires ParseParts(JavaSplit(raw, ','), parse) == Some(b)
    ensures !WellOrdered(b) ==> ParseBbox(Some(raw), parse) == Invalid(BadOrdering)
    ensures WellOrdered(b) && !InWgs84(b) ==> ParseBbox(Some(raw), parse) == Invalid(OutOfRange)
    ensures WellOrdered(b) && InWgs84(b) ==> ParseBbox(Some(raw), parse) == Box(b)
  {
  }

  // ---------------------------------------------------------------------
  // Worked examples
  // ---------------------------------------------------------------------

  /** "1,2,3" has three parts. */
  lemma SplitThreeFields()
    ensures JavaSplit("1,2,3", ',') == ["1", "2", "3"]
  {
    var parts: seq<string> := ["1", "2", "3"];
    assert Join(parts[2..], ',') == "3";
    assert Join(parts[1..], ',') == "2,3";
    assert Join(parts, ',') == "1,2,3";
    SplitOfJoin(parts, ',');
  }

  lemma PiecesTrailingComma()
    ensures Pieces("1,2,3,4,", ',') == ["1", "2", "3", "4", ""]
  {
    var parts: seq<string> := ["1", "2", "3", "4", ""];
    assert Join(parts[4..], ',') == "";
    assert Join(parts[3..], ',') == "4,";
    assert Join(parts[2..], ',') == "3,4,";
    assert Join(parts[1..], ',') == "2,3,4,";
    assert Join(parts, ',') == "1,2,3,4,";
    PiecesJoin(parts, ',');
  }

  /** The empty piece after a trailing comma is dropped: "1,2,3,4," has four parts. */
  lemma SplitTrailingComma()
    ensures JavaSplit("1,2,3,4,", ',') == ["1", "2", "3", "4"]
  {
    PiecesTrailingComma();
    assert "1,2,3,4,"[1] == ',';
    var pieces: seq<string> := ["1", "2", "3", "4", ""];
    assert pieces[..4] == ["1", "2", "3", "4"];
    assert DropTrailingEmpty(pieces) == DropTrailingEmpty(["1", "2", "3", "4"]);
  }

  /** Only commas: every piece is empty, so there are no parts at all. */
  lemma SplitOnlyCommas()
    ensures JavaSplit(",,,,", ',') == []
  {
    var parts: seq<string> := ["", "", "", "", ""];
    assert Join(parts[4..], ',') == "";
    assert Join(parts[3..], ',') == ",";
    assert Join(parts[2..], ',') == ",,";
    assert Join(parts[1..], ',') == ",,,";
    assert Join(parts, ',') == ",,,,";
    PiecesJoin(parts, ',');
    assert ",,,,"[0] == ',';
  }

  /** Comma-free parts, at least two, the last one non-empty, survive a join and a split. */
  lemma SplitOfJoin(parts: seq<string>, c: char)
    requires |parts| >= 2 && parts[|parts| - 1] != []
    requires forall k :: 0 <= k < |parts| ==> c !in parts[k]
    ensures JavaSplit(Join(parts, c), c) == parts
  {
    PiecesJoin(parts, c);
    assert Join(parts, c) == parts[0] + [c] + Join(parts[1..], c);
    assert Join(parts, c)[|parts[0]|] == c;
  }

  /** Four comma-free fields, the last non-empty, split back into those four. */
  lemma SplitFourFields(a: string, b: string, c: string, d: string)
    requires ',' !in a && ',' !in b && ',' !in c && ',' !in d && d != []
    ensures JavaSplit(a + "," + b + "," + c + "," + d, ',') == [a, b, c, d]
  {
    var parts := [a, b, c, d];
    assert Join([d], ',') == d;
    assert [c, d][1..] == [d];
    assert Join([c, d], ',') == c + "," + d;
    assert [b, c, d][1..] == [c, d];
    assert Join([b, c, d], ',') == b + "," + c + "," + d;
    assert parts[1..] == [b, c, d];
    assert Join(parts, ',') == a + "," + b + "," + c + "," + d;
    SplitOfJoin(parts, ',');
  }

  /** "1,2,3" is refused for its field count, whatever the parser would say. */
  lemma ThreeFieldsRefused(parse: string -> Option<real>)
    ensures ParseBbox(Some("1,2,3"), parse) == Invalid(WrongFieldCount)
  {
    SplitThreeFields();
    assert "1,2,3"[0] == '1';
  }

  /** A text of four comma-free fields, the first not blank, reaches the number checks. */
  lemma FourFieldText(raw: string, a: string, b: string, c: string, d: string)
    requires ',' !in a && ',' !in b && ',' !in c && ',' !in d && d != []
    requires raw == a + "," + b + "," + c + "," + d
    requires |a| > 0 && !IsWhitespace(a[0])
    ensures !IsBlank(raw) && JavaSplit(raw, ',') == [a, b, c, d]
  {
    SplitFourFields(a, b, c, d);
    assert raw[0] == a[0];
  }

  /** Equal bounds "-74,40,-74,41" are refused by the strict ordering check. */
  lemma EqualBoundsRefused(parse: string -> Option<real>)
    requires parse("-74") == Some(-74.0) && parse("40") == Some(40.0) && parse("41") == Some(41.0)
    ensures ParseBbox(Some("-74,40,-74,41"), parse) == Invalid(BadOrdering)
  {
    FourFieldText("-74,40,-74,41", "-74", "40", "-74", "41");
    assert ParseParts(["-74", "40", "-74", "41"], parse) == Some(BoundingBox(-74.0, 40.0, -74.0, 41.0));
  }

  /** "-200,40,-73,41" is ordered but leaves the WGS84 range. */
  lemma OutOfRangeRefused(parse: string -> Option<real>)
    requires parse("-200") == Some(-200.0) && parse("40") == Some(40.0)
    requires parse("-73") == Some(-73.0) && parse("41") == Some(41.0)
    ensures ParseBbox(Some("-200,40,-73,41"), parse) == Invalid(OutOfRange)
  {
    FourFieldText("-200,40,-73,41", "-200", "40", "-73", "41");
    assert ParseParts(["-200", "40", "-73", "41"], parse) == Some(BoundingBox(-200.0, 40.0, -73.0, 41.0));
  }

  /** "-74,40,-73,41" is accepted as the box it spells. */
  lemma ValidBoxAccepted(parse: string -> Option<real>)
    requires parse("-74") == Some(-74.0) && parse("40") == Some(40.0)
    requires parse("-73") == Some(-73.0) && parse("41") == Some(41.0)
    ensures ParseBbox(Some("-74,40,-73,41"), parse) == Box(BoundingBox(-74.0, 40.0, -73.0, 41.0))
  {
    FourFieldText("-74,40,-73,41", "-74", "40", "-73", "41");
    assert ParseParts(["-74", "40", "-73", "41"], parse) == Some(BoundingBox(-74.0, 40.0, -73.0, 41.0));
  }
}
