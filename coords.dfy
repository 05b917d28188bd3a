/** The corner geometry of the georeferencing step: the spherical offset
    formula of `lat_long`, the four corners of `output_corners` and the
    bounding box `getcoord` reduces them to.  Numbers are exact reals and
    the cosine is a parameter, so only the structure of the formulas is
    modelled, not floating-point rounding or the values of `math.cos`. */
module Coords {
  import opened Common

  /** The sphere radius used for the offsets, in metres. */
  const EarthRadius: real := 6378137.0

  /** `math.pi` as Python prints it. */
  const Pi: real := 3.141592653589793

  /** A point as `lat_long` returns it: latitude, longitude and altitude. */
  datatype Coord = Coord(lat: real, lon: real, alt: int)

  /** `lat_long(lat, lon, dn, de)`: move `dn` metres north and `de` metres
      east.  The east offset is divided by `R * cos(lat)`, which raises
      ZeroDivisionError when that product is 0. */
  function LatLong(lat: real, lon: real, dn: real, de: real, cos: real -> real): (r: Result<Coord>)
    ensures r.Err? <==> cos(Pi * lat / 180.0) == 0.0
    ensures r.Err? ==> r.error == ZeroDivision
    ensures r.Ok? ==> r.value.alt == 0
  {
    var dLat := dn / EarthRadius;
    var scale := EarthRadius * cos(Pi * lat / 180.0);
    if scale == 0.0 then Err(ZeroDivision)
    else
      var dLon := de / scale;
      Ok(Coord(lat + dLat * 180.0 / Pi, lon + dLon * 180.0 / Pi, 0))
  }

  /** The new latitude depends on the latitude and the north offset only. */
  lemma LatitudeDependsOnNorth(lat: real, lon1: real, lon2: real, dn: real, de1: real, de2: real, cos: real -> real)
    requires LatLong(lat, lon1, dn, de1, cos).Ok?
    ensures LatLong(lat, lon2, dn, de2, cos).Ok?
    ensures LatLong(lat, lon1, dn, de1, cos).value.lat == LatLong(lat, lon2, dn, de2, cos).value.lat
  {
  }

  /** The new longitude depends on the latitude, the longitude and the east offset only. */
  lemma LongitudeDependsOnEast(lat: real, lon: real, dn1: real, dn2: real, de: real, cos: real -> real)
    requires LatLong(lat, lon, dn1, de, cos).Ok?
    ensures LatLong(lat, lon, dn2, de, cos).Ok?
    ensures LatLong(lat, lon, dn1, de, cos).value.lon == LatLong(lat, lon, dn2, de, cos).value.lon
  {
  }

  /** No offset, no move. */
  lemma ZeroOffset(lat: real, lon: real, cos: real -> real)
    requires cos(Pi * lat / 180.0) != 0.0
    ensures LatLong(lat, lon, 0.0, 0.0, cos) == Ok(Coord(lat, lon, 0))
  {
  }

  /** Opposite offsets move by the same amount in opposite directions, and
      a non-negative offset does not move south (west, when the cosine is
      positive). */
  lemma OffsetSymmetry(lat: real, lon: real, dn: real, de: real, cos: real -> real)
    requires cos(Pi * lat / 180.0) != 0.0
    ensures var p := LatLong(lat, lon, dn, de, cos).value;
            var q := LatLong(lat, lon, -dn, -de, cos).value;
            && p.lat - lat == lat - q.lat
            && p.lon - lon == lon - q.lon
            && (dn >= 0.0 ==> p.lat >= lat)
            && (de >= 0.0 && cos(Pi * lat / 180.0) > 0.0 ==> p.lon >= lon)
  {
    var scale := EarthRadius * cos(Pi * lat / 180.0);
    assert (-dn) / EarthRadius == -(dn / EarthRadius);
    assert (-de) / scale == -(de / scale);
    if de >= 0.0 && cos(Pi * lat / 180.0) > 0.0 {
      assert scale > 0.0;
      assert de / scale >= 0.0;
    }
  }

  /** The four corners in the order `output_corners` returns them. */
  datatype Corners = Corners(topLeft: Coord, topRight: Coord, bottomRight: Coord, bottomLeft: Coord)

  /** `output_corners`: the four offset points, then the bottom two moved by
      `lat_diff = (top_right.lat - top_left.lat) * (height / width)`;
      `height / width` raises ZeroDivisionError when `width` is 0. */
  function OutputCorners(lat: real, lon: real, width: int, height: int, offset1: real, offset2: real,
                         cos: real -> real): (r: Result<Corners>)
    ensures r.Err? <==> cos(Pi * lat / 180.0) == 0.0 || width == 0
    ensures r.Err? ==> r.error == ZeroDivision
  {
    var tl := LatLong(lat, lon, offset1, -offset2, cos);
    if tl.Err? then Err(tl.error)
    else
      var tr := LatLong(lat, lon, offset1, offset2, cos).value;
      var br := LatLong(lat, lon, -offset1, offset2, cos).value;
      var bl := LatLong(lat, lon, -offset1, -offset2, cos).value;
      if width == 0 then Err(ZeroDivision)
      else
        var latDiff := (tr.lat - tl.value.lat) * (height as real / width as real);
        Ok(Corners(tl.value, tr, Coord(br.lat - latDiff, br.lon, br.alt), Coord(bl.lat - latDiff, bl.lon, bl.alt)))
  }

  /** The two top corners share their latitude, so the aspect-ratio
      correction is 0 and the corners are the plain offset points. */
  lemma CornersUncorrected(lat: real, lon: real, width: int, height: int, offset1: real, offset2: real,
                           cos: real -> real)
    requires cos(Pi * lat / 180.0) != 0.0 && width != 0
    ensures OutputCorners(lat, lon, width, height, offset1, offset2, cos) ==
            Ok(Corners(LatLong(lat, lon, offset1, -offset2, cos).value,
                       LatLong(lat, lon, offset1, offset2, cos).value,
                       LatLong(lat, lon, -offset1, offset2, cos).value,
                       LatLong(lat, lon, -offset1, -offset2, cos).value))
  {
    LatitudeDependsOnNorth(lat, lon, lon, offset1, -offset2, offset2, cos);
    var tl := LatLong(lat, lon, offset1, -offset2, cos).value;
    var tr := LatLong(lat, lon, offset1, offset2, cos).value;
    var ratio := height as real / width as real;
    var latDiff := (tr.lat - tl.lat) * ratio;
    var br := LatLong(lat, lon, -offset1, offset2, cos).value;
    var bl := LatLong(lat, lon, -offset1, -offset2, cos).value;
    var r := OutputCorners(lat, lon, width, height, offset1, offset2, cos).value;
    assert tr.lat - tl.lat == 0.0;
    assert latDiff == 0.0 * ratio == 0.0;
    assert r.bottomRight == Coord(br.lat - latDiff, br.lon, br.alt);
    assert r.bottomLeft == Coord(bl.lat - latDiff, bl.lon, bl.alt);
  }

  /** For any offsets and a non-zero cosine the top corners share one
      latitude and the bottom corners another, mirrored about the centre,
      and the right corners mirror the left ones in longitude. */
  lemma CornerSymmetry(lat: real, lon: real, width: int, height: int, offset1: real, offset2: real,
                       cos: real -> real)
    requires cos(Pi * lat / 180.0) != 0.0 && width != 0
    ensures var c := OutputCorners(lat, lon, width, height, offset1, offset2, cos).value;
            && c.topLeft.lat == c.topRight.lat && c.bottomLeft.lat == c.bottomRight.lat
            && c.topLeft.lat - lat == lat - c.bottomLeft.lat
            && c.topLeft.lon == c.bottomLeft.lon && c.topRight.lon == c.bottomRight.lon
            && c.topRight.lon - lon == lon - c.topLeft.lon
  {
    CornersUncorrected(lat, lon, width, height, offset1, offset2, cos);
    OffsetSymmetry(lat, lon, offset1, offset2, cos);
    OffsetSymmetry(lat, lon, offset1, -offset2, cos);
    LatitudeDependsOnNorth(lat, lon, lon, -offset1, offset2, -offset2, cos);
    LongitudeDependsOnEast(lat, lon, offset1, -offset1, offset2, cos);
    LongitudeDependsOnEast(lat, lon, offset1, -offset1, -offset2, cos);
  }

  /** With non-negative offsets and a positive cosine the corners lie where
      their names say, symmetric about the centre. */
  lemma CornerLayout(lat: real, lon: real, width: int, height: int, offset1: real, offset2: real,
                     cos: real -> real)
    requires cos(Pi * lat / 180.0) > 0.0 && width != 0
    requires offset1 >= 0.0 && offset2 >= 0.0
    ensures var c := OutputCorners(lat, lon, width, height, offset1, offset2, cos).value;
            && c.topLeft.lat == c.topRight.lat >= lat >= c.bottomRight.lat == c.bottomLeft.lat
            && c.topLeft.lon == c.bottomLeft.lon <= lon <= c.topRight.lon == c.bottomRight.lon
            && c.topLeft.lat - lat == lat - c.bottomLeft.lat
            && c.topRight.lon - lon == lon - c.topLeft.lon
  {
    CornersUncorrected(lat, lon, width, height, offset1, offset2, cos);
    OffsetSymmetry(lat, lon, offset1, offset2, cos);
    OffsetSymmetry(lat, lon, offset1, -offset2, cos);
    LatitudeDependsOnNorth(lat, lon, lon, -offset1, offset2, -offset2, cos);
    LongitudeDependsOnEast(lat, lon, offset1, -offset1, offset2, cos);
    LongitudeDependsOnEast(lat, lon, offset1, -offset1, -offset2, cos);
  }

  /** `np.max` over four values. */
  function Max4(a: real, b: real, c: real, d: real): (m: real)
    ensures m >= a && m >= b && m >= c && m >= d
    ensures m == a || m == b || m == c || m == d
  {
    var ab := if a >= b then a else b;
    var cd := if c >= d then c else d;
    if ab >= cd then ab else cd
  }

  /** `np.min` over four values. */
  function Min4(a: real, b: real, c: real, d: real): (m: real)
    ensures m <= a && m <= b && m <= c && m <= d
    ensures m == a || m == b || m == c || m == d
  {
    var ab := if a <= b then a else b;
    var cd := if c <= d then c else d;
    if ab <= cd then ab else cd
  }

  /** The bounding box (north, south, west, east) `getcoord` returns. */
  datatype BBox = BBox(north: real, south: real, west: real, east: real)

  /** The max/min reduction of the corner table: north and south are the
      extreme latitudes, west and east the extreme longitudes. */
  function Bounds(c: Corners): (b: BBox)
    ensures b.north >= b.south && b.east >= b.west
    ensures forall p :: p in [c.topLeft, c.topRight, c.bottomRight, c.bottomLeft] ==>
              b.south <= p.lat <= b.north && b.west <= p.lon <= b.east
    ensures exists p :: p in [c.topLeft, c.topRight, c.bottomRight, c.bottomLeft] && p.lat == b.north
    ensures exists p :: p in [c.topLeft, c.topRight, c.bottomRight, c.bottomLeft] && p.lat == b.south
    ensures exists p :: p in [c.topLeft, c.topRight, c.bottomRight, c.bottomLeft] && p.lon == b.west
    ensures exists p :: p in [c.topLeft, c.topRight, c.bottomRight, c.bottomLeft] && p.lon == b.east
  {
    var lats := [c.topLeft.lat, c.topRight.lat, c.bottomRight.lat, c.bottomLeft.lat];
    var lons := [c.topLeft.lon, c.topRight.lon, c.bottomRight.lon, c.bottomLeft.lon];
    BBox(Max4(lats[0], lats[1], lats[2], lats[3]), Min4(lats[0], lats[1], lats[2], lats[3]),
         Min4(lons[0], lons[1], lons[2], lons[3]), Max4(lons[0], lons[1], lons[2], lons[3]))
  }

  /** An image's shape as `img.shape[:2]`: rows, then columns. */
  datatype Shape = Shape(rows: nat, cols: nat)

  /** The coordinate part of `getcoord`: the rows are passed as the width
      and the columns as the height, the north offset is half the rows times
      the y resolution and the east offset half the columns times the x
      resolution. */
  function GetCoord(lat: real, lon: real, shape: Shape, pixX: real, pixY: real, cos: real -> real): (r: Result<BBox>)
    ensures r.Err? <==> cos(Pi * lat / 180.0) == 0.0 || shape.rows == 0
    ensures r.Err? ==> r.error == ZeroDivision
    ensures r.Ok? ==> r.value.north >= r.value.south && r.value.east >= r.value.west
  {
    var corners := OutputCorners(lat, lon, shape.rows, shape.cols,
                                 HalfExtent(shape.rows, pixY), HalfExtent(shape.cols, pixX), cos);
    if corners.Err? then Err(corners.error) else Ok(Bounds(corners.value))
  }

  /** With non-negative offsets and a positive cosine the box spans the
      top-left to the bottom-right corner and is centred on the given point. */
  lemma CentredBox(lat: real, lon: real, width: int, height: int, offset1: real, offset2: real,
                   cos: real -> real)
    requires cos(Pi * lat / 180.0) > 0.0 && width != 0
    requires offset1 >= 0.0 && offset2 >= 0.0
    ensures var c := OutputCorners(lat, lon, width, height, offset1, offset2, cos).value;
            var b := Bounds(c);
            && b == BBox(c.topLeft.lat, c.bottomLeft.lat, c.topLeft.lon, c.topRight.lon)
            && b.south <= lat <= b.north && b.west <= lon <= b.east
            && b.north - lat == lat - b.south
            && b.east - lon == lon - b.west
  {
    CornerLayout(lat, lon, width, height, offset1, offset2, cos);
    BoundsOfLayout(OutputCorners(lat, lon, width, height, offset1, offset2, cos).value);
  }

  /** With non-negative resolutions the box `getcoord` returns is centred
      on the point parsed from the file name. */
  lemma GetCoordCentred(lat: real, lon: real, shape: Shape, pixX: real, pixY: real, cos: real -> real)
    requires cos(Pi * lat / 180.0) > 0.0 && shape.rows > 0
    requires pixX >= 0.0 && pixY >= 0.0
    ensures GetCoord(lat, lon, shape, pixX, pixY, cos).Ok?
    ensures var b := GetCoord(lat, lon, shape, pixX, pixY, cos).value;
            && b.south <= lat <= b.north && b.west <= lon <= b.east
            && b.north - lat == lat - b.south
            && b.east - lon == lon - b.west
  {
    CentredBox(lat, lon, shape.rows, shape.cols, HalfExtent(shape.rows, pixY), HalfExtent(shape.cols, pixX), cos);
  }

  /** For corners laid out as their names say, the reduction picks the
      top-left latitude and longitude and the bottom-left latitude and
      top-right longitude. */
  lemma BoundsOfLayout(c: Corners)
    requires c.topLeft.lat == c.topRight.lat >= c.bottomRight.lat == c.bottomLeft.lat
    requires c.topLeft.lon == c.bottomLeft.lon <= c.topRight.lon == c.bottomRight.lon
    ensures Bounds(c) == BBox(c.topLeft.lat, c.bottomLeft.lat, c.topLeft.lon, c.topRight.lon)
  {
  }

  /** Half the ground extent of `pixels` pixels of resolution `res`. */
  function HalfExtent(pixels: nat, res: real): (h: real)
    ensures res >= 0.0 ==> h >= 0.0
  {
    pixels as real * res / 2.0
  }
}
