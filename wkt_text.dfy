/** Well-known text as clause 7 of OGC Simple Feature Access Part 1 defines
    it, for the geometries the visitor protocol carries: the keyword, an
    optional Z, M or ZM tag, then EMPTY or a parenthesised coordinate list.
    This is the reference the WKT writer is proved against. */
module WktText {
  import opened Wrappers
  import opened GeoArrowTypes
  import opened Visitor

  /** GeoArrowGeometryTypeString: the upper-case WKT keyword of a kind. */
  function Keyword(g: GeometryType): string
  {
    match g
    case Geometry => "GEOMETRY"
    case Point => "POINT"
    case LineString => "LINESTRING"
    case Polygon => "POLYGON"
    case MultiPoint => "MULTIPOINT"
    case MultiLineString => "MULTILINESTRING"
    case MultiPolygon => "MULTIPOLYGON"
    case GeometryCollection => "GEOMETRYCOLLECTION"
  }

  /** The dimension tag: nothing for XY (and for an unknown value), else
      " Z", " M" or " ZM". */
  function DimSuffix(d: Dimensions): string
  {
    match d
    case XYZ => " Z"
    case XYM => " M"
    case XYZM => " ZM"
    case _ => ""
  }

  /** The text of an empty geometry: keyword, dimension tag, then " EMPTY". */
  function WktEmpty(g: GeometryType, d: Dimensions): string
  {
    Keyword(g) + DimSuffix(d) + " EMPTY"
  }

  // -----------------------------------------------------------------------
  // Numbers

  function DigitChar(d: int): char
    requires 0 <= d < 10
  {
    "0123456789"[d]
  }

  function NaturalText(n: nat): string
    decreases n
  {
    if n < 10 then [DigitChar(n)] else NaturalText(n / 10) + [DigitChar(n % 10)]
  }

  /** The number formatter: decimal digits, with a leading '-' when negative.
      It stands in for the shortest round-trip formatting of doubles, which
      prints integral values without a fraction. */
  function NumText(x: int): string
  {
    if x < 0 then "-" + NaturalText(-x) else NaturalText(x)
  }

  // -----------------------------------------------------------------------
  // Lists

  /** The parts with sep between each two neighbours. */
  function Join(sep: string, parts: seq<string>): string
  {
    if |parts| == 0 then ""
    else if |parts| == 1 then parts[0]
    else parts[0] + sep + Join(sep, parts[1..])
  }

  /** Adding a part at the end of a non-empty list adds one separator and the part. */
  lemma {:induction false} JoinSnoc(sep: string, parts: seq<string>, x: string)
    requires |parts| > 0
    ensures Join(sep, parts + [x]) == Join(sep, parts) + sep + x
    decreases |parts|
  {
    if |parts| == 1 {
      assert (parts + [x])[1..] == [x];
    } else {
      assert (parts + [x])[1..] == parts[1..] + [x];
      JoinSnoc(sep, parts[1..], x);
    }
  }

  function NumTexts(t: Tuple): seq<string>
  {
    seq(|t|, i requires 0 <= i < |t| => NumText(t[i]))
  }

  /** One coordinate: its values, in the order given, separated by spaces. */
  function TupleText(t: Tuple): string
  {
    Join(" ", NumTexts(t))
  }

  function TupleTexts(cs: Batch): seq<string>
  {
    seq(|cs|, i requires 0 <= i < |cs| => TupleText(cs[i]))
  }

  lemma TupleTextsAppend(a: Batch, b: Batch)
    ensures TupleTexts(a + b) == TupleTexts(a) + TupleTexts(b)
  {
  }

  /** The coordinates of several batches, concatenated in call order. */
  function Flatten(bs: seq<Batch>): Batch
  {
    if bs == [] then [] else bs[0] + Flatten(bs[1..])
  }

  /** EMPTY when there are no parts, else the parts separated by ", " in
      parentheses. */
  function Parenthesized(parts: seq<string>): string
  {
    if parts == [] then "EMPTY" else "(" + Join(", ", parts) + ")"
  }

  /** A coordinate sequence: <linestring text> of the standard. */
  function CoordListText(cs: Batch): string
  {
    Parenthesized(TupleTexts(cs))
  }

  function RingTexts(rs: seq<seq<Batch>>): seq<string>
  {
    seq(|rs|, i requires 0 <= i < |rs| => CoordListText(Flatten(rs[i])))
  }

  function BodyText(b: Body): string
  {
    match b
    case EmptyBody => "EMPTY"
    case CoordBody(bs) => CoordListText(Flatten(bs))
    case RingBody(rs) => Parenthesized(RingTexts(rs))
  }

  /** The WKT of a geometry: keyword, dimension tag, a space, then its body. */
  function GeomText(g: Geom): string
  {
    Keyword(g.geometryType) + DimSuffix(g.dimensions) + " " + BodyText(g.body)
  }

  /** The entry a feature becomes: none for a null feature. */
  function FeatureWkt(f: Feature): Option<string>
  {
    match f
    case NullFeature => None
    case GeomFeature(g) => Some(GeomText(g))
  }

  /** A geometry with no content prints as the test helper's empty text, so
      an empty geometry gives a string where a null feature gives none. */
  lemma EmptyGeomText(g: GeometryType, d: Dimensions)
    ensures GeomText(Geom(g, d, EmptyBody)) == WktEmpty(g, d)
    ensures FeatureWkt(GeomFeature(Geom(g, d, EmptyBody))) != FeatureWkt(NullFeature)
  {
  }
}
