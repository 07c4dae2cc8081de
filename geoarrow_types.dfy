/** The closed type catalog of geoarrow: status codes, geometry kinds,
    dimensions, coordinate layouts and the combined array type, with the
    integer values the C enums give them. */
module GeoArrowTypes {
  import opened Wrappers

  /** Status returned by every visitor callback; anything else is a failure. */
  const GEOARROW_OK: int := 0
  /** The errno value the library uses for invalid arguments and calls. */
  const EINVAL: int := 22

  predicate Succeeded(status: int) { status == GEOARROW_OK }

  datatype GeometryType =
    | Geometry
    | Point
    | LineString
    | Polygon
    | MultiPoint
    | MultiLineString
    | MultiPolygon
    | GeometryCollection

  datatype Dimensions = DimensionsUnknown | XY | XYZ | XYM | XYZM

  datatype CoordType = CoordTypeUnknown | Separate | Interleaved

  /** The 27 members of enum GeoArrowType, in declaration order. */
  datatype GeoArrowType =
    | TypeUninitialized
    | TypeWkb
    | TypeLargeWkb
    | TypePoint
    | TypeLineString
    | TypePolygon
    | TypeMultiPoint
    | TypeMultiLineString
    | TypeMultiPolygon
    | TypePointZ
    | TypeLineStringZ
    | TypePolygonZ
    | TypeMultiPointZ
    | TypeMultiLineStringZ
    | TypeMultiPolygonZ
    | TypePointM
    | TypeLineStringM
    | TypePolygonM
    | TypeMultiPointM
    | TypeMultiLineStringM
    | TypeMultiPolygonM
    | TypePointZM
    | TypeLineStringZM
    | TypePolygonZM
    | TypeMultiPointZM
    | TypeMultiLineStringZM
    | TypeMultiPolygonZM

  // ---------------------------------------------------------------------
  // Integer values of the enums

  function GeometryTypeCode(g: GeometryType): (c: int)
    ensures 0 <= c <= 7
  {
    match g
    case Geometry => 0
    case Point => 1
    case LineString => 2
    case Polygon => 3
    case MultiPoint => 4
    case MultiLineString => 5
    case MultiPolygon => 6
    case GeometryCollection => 7
  }

  function GeometryTypeFromCode(c: int): Option<GeometryType>
  {
    if c == 0 then Some(Geometry)
    else if c == 1 then Some(Point)
    else if c == 2 then Some(LineString)
    else if c == 3 then Some(Polygon)
    else if c == 4 then Some(MultiPoint)
    else if c == 5 then Some(MultiLineString)
    else if c == 6 then Some(MultiPolygon)
    else if c == 7 then Some(GeometryCollection)
    else None
  }

  /** Reading back the integer value of a geometry type gives the same type,
      and exactly the integers 0..7 name a geometry type. */
  lemma GeometryTypeCodeRoundTrip(g: GeometryType, c: int)
    ensures GeometryTypeFromCode(GeometryTypeCode(g)) == Some(g)
    ensures GeometryTypeFromCode(c).Some? <==> 0 <= c <= 7
    ensures GeometryTypeFromCode(c).Some? ==> GeometryTypeCode(GeometryTypeFromCode(c).value) == c
  {
  }

  function DimensionsCode(d: Dimensions): (c: int)
    ensures 0 <= c <= 4
  {
    match d
    case DimensionsUnknown => 0
    case XY => 1
    case XYZ => 2
    case XYM => 3
    case XYZM => 4
  }

  function DimensionsFromCode(c: int): Option<Dimensions>
  {
    if c == 0 then Some(DimensionsUnknown)
    else if c == 1 then Some(XY)
    else if c == 2 then Some(XYZ)
    else if c == 3 then Some(XYM)
    else if c == 4 then Some(XYZM)
    else None
  }

  lemma DimensionsCodeRoundTrip(d: Dimensions, c: int)
    ensures DimensionsFromCode(DimensionsCode(d)) == Some(d)
    ensures DimensionsFromCode(c).Some? <==> 0 <= c <= 4
    ensures DimensionsFromCode(c).Some? ==> DimensionsCode(DimensionsFromCode(c).value) == c
  {
  }

  function CoordTypeCode(t: CoordType): (c: int)
    ensures 0 <= c <= 2
  {
    match t
    case CoordTypeUnknown => 0
    case Separate => 1
    case Interleaved => 2
  }

  function CoordTypeFromCode(c: int): Option<CoordType>
  {
    if c == 0 then Some(CoordTypeUnknown)
    else if c == 1 then Some(Separate)
    else if c == 2 then Some(Interleaved)
    else None
  }

  lemma CoordTypeCodeRoundTrip(t: CoordType, c: int)
    ensures CoordTypeFromCode(CoordTypeCode(t)) == Some(t)
    ensures CoordTypeFromCode(c).Some? <==> 0 <= c <= 2
    ensures CoordTypeFromCode(c).Some? ==> CoordTypeCode(CoordTypeFromCode(c).value) == c
  {
  }

  /** The integer value of a GeoArrowType: its position in the enum. */
  function TypeCode(t: GeoArrowType): (c: int)
    ensures 0 <= c <= 26
  {
    match t
    case TypeUninitialized => 0
    case TypeWkb => 1
    case TypeLargeWkb => 2
    case TypePoint => 3
    case TypeLineString => 4
    case TypePolygon => 5
    case TypeMultiPoint => 6
    case TypeMultiLineString => 7
    case TypeMultiPolygon => 8
    case TypePointZ => 9
    case TypeLineStringZ => 10
    case TypePolygonZ => 11
    case TypeMultiPointZ => 12
    case TypeMultiLineStringZ => 13
    case TypeMultiPolygonZ => 14
    case TypePointM => 15
    case TypeLineStringM => 16
    case TypePolygonM => 17
    case TypeMultiPointM => 18
    case TypeMultiLineStringM => 19
    case TypeMultiPolygonM => 20
    case TypePointZM => 21
    case TypeLineStringZM => 22
    case TypePolygonZM => 23
    case TypeMultiPointZM => 24
    case TypeMultiLineStringZM => 25
    case TypeMultiPolygonZM => 26
  }

  function TypeFromCode(c: int): Option<GeoArrowType>
  {
    if c == 0 then Some(TypeUninitialized)
    else if c == 1 then Some(TypeWkb)
    else if c == 2 then Some(TypeLargeWkb)
    else if c == 3 then Some(TypePoint)
    else if c == 4 then Some(TypeLineString)
    else if c == 5 then Some(TypePolygon)
    else if c == 6 then Some(TypeMultiPoint)
    else if c == 7 then Some(TypeMultiLineString)
    else if c == 8 then Some(TypeMultiPolygon)
    else if c == 9 then Some(TypePointZ)
    else if c == 10 then Some(TypeLineStringZ)
    else if c == 11 then Some(TypePolygonZ)
    else if c == 12 then Some(TypeMultiPointZ)
    else if c == 13 then Some(TypeMultiLineStringZ)
    else if c == 14 then Some(TypeMultiPolygonZ)
    else if c == 15 then Some(TypePointM)
    else if c == 16 then Some(TypeLineStringM)
    else if c == 17 then Some(TypePolygonM)
    else if c == 18 then Some(TypeMultiPointM)
    else if c == 19 then Some(TypeMultiLineStringM)
    else if c == 20 then Some(TypeMultiPolygonM)
    else if c == 21 then Some(TypePointZM)
    else if c == 22 then Some(TypeLineStringZM)
    else if c == 23 then Some(TypePolygonZM)
    else if c == 24 then Some(TypeMultiPointZM)
    else if c == 25 then Some(TypeMultiLineStringZM)
    else if c == 26 then Some(TypeMultiPolygonZM)
    else None
  }

  /** Reading back the integer value of a GeoArrowType gives the same type. */
  lemma TypeCodeRoundTrip(t: GeoArrowType)
    ensures TypeFromCode(TypeCode(t)) == Some(t)
  {
    match t
    case TypeUninitialized =>
    case TypeWkb =>
    case TypeLargeWkb =>
    case TypePoint =>
    case TypeLineString =>
    case TypePolygon =>
    case TypeMultiPoint =>
    case TypeMultiLineString =>
    case TypeMultiPolygon =>
    case TypePointZ =>
    case TypeLineStringZ =>
    case TypePolygonZ =>
    case TypeMultiPointZ =>
    case TypeMultiLineStringZ =>
    case TypeMultiPolygonZ =>
    case TypePointM =>
    case TypeLineStringM =>
    case TypePolygonM =>
    case TypeMultiPointM =>
    case TypeMultiLineStringM =>
    case TypeMultiPolygonM =>
    case TypePointZM =>
    case TypeLineStringZM =>
    case TypePolygonZM =>
    case TypeMultiPointZM =>
    case TypeMultiLineStringZM =>
    case TypeMultiPolygonZM =>
  }

  /** TypeFromCodeInverse for the codes 0..6, one case per code. */
  lemma TypeFromCodeInverse0(c: int)
    requires 0 <= c <= 6
    ensures TypeFromCode(c).Some? && TypeCode(TypeFromCode(c).value) == c
  {
    if c == 0 {
    } else if c == 1 {
    } else if c == 2 {
    } else if c == 3 {
    } else if c == 4 {
    } else if c == 5 {
    } else if c == 6 {
    }
  }

  /** TypeFromCodeInverse for the codes 7..13, one case per code. */
  lemma TypeFromCodeInverse7(c: int)
    requires 7 <= c <= 13
    ensures TypeFromCode(c).Some? && TypeCode(TypeFromCode(c).value) == c
  {
    if c == 7 {
    } else if c == 8 {
    } else if c == 9 {
    } else if c == 10 {
    } else if c == 11 {
    } else if c == 12 {
    } else if c == 13 {
    }
  }

  /** TypeFromCodeInverse for the codes 14..20, one case per code. */
  lemma TypeFromCodeInverse14(c: int)
    requires 14 <= c <= 20
    ensures TypeFromCode(c).Some? && TypeCode(TypeFromCode(c).value) == c
  {
    if c == 14 {
    } else if c == 15 {
    } else if c == 16 {
    } else if c == 17 {
    } else if c == 18 {
    } else if c == 19 {
    } else if c == 20 {
    }
  }

  /** TypeFromCodeInverse for the codes 21..26, one case per code. */
  lemma TypeFromCodeInverse21(c: int)
    requires 21 <= c <= 26
    ensures TypeFromCode(c).Some? && TypeCode(TypeFromCode(c).value) == c
  {
    if c == 21 {
    } else if c == 22 {
    } else if c == 23 {
    } else if c == 24 {
    } else if c == 25 {
    } else if c == 26 {
    }
  }

  /** Exactly the integers 0..26 name a GeoArrowType, and each names the
      type whose value it is. */
  lemma TypeFromCodeInverse(c: int)
    ensures TypeFromCode(c).Some? <==> 0 <= c <= 26
    ensures TypeFromCode(c).Some? ==> TypeCode(TypeFromCode(c).value) == c
  {
    if 0 <= c <= 6 {
      TypeFromCodeInverse0(c);
    } else if 7 <= c <= 13 {
      TypeFromCodeInverse7(c);
    } else if 14 <= c <= 20 {
      TypeFromCodeInverse14(c);
    } else if 21 <= c <= 26 {
      TypeFromCodeInverse21(c);
    }
  }

  // ---------------------------------------------------------------------
  // The block layout of the structured types

  /** A geometry kind that has a structured (native) array type: Point
      through MultiPolygon. */
  predicate IsStructuredKind(g: GeometryType)
  {
    g != Geometry && g != GeometryCollection
  }

  /** The structured type of a (kind, dimensions) pair, found by the block
      layout of the enum: after the three non-structured members come four
      blocks, one per dimensions value XY, XYZ, XYM, XYZM, each listing the
      six kinds Point..MultiPolygon in GeometryType order. Pairs with no
      structured type report None. */
  function MakeType(g: GeometryType, d: Dimensions): Option<GeoArrowType>
  {
    if !IsStructuredKind(g) || d == DimensionsUnknown then None
    else TypeFromCode(3 + 6 * (DimensionsCode(d) - 1) + (GeometryTypeCode(g) - 1))
  }

  /** The (kind, dimensions) pair a GeoArrowType stands for, read from its
      name; UNINITIALIZED, WKB and LARGE_WKB have none. */
  function TypeParts(t: GeoArrowType): Option<(GeometryType, Dimensions)>
  {
    match t
    case TypeUninitialized => None
    case TypeWkb => None
    case TypeLargeWkb => None
    case TypePoint => Some((Point, XY))
    case TypeLineString => Some((LineString, XY))
    case TypePolygon => Some((Polygon, XY))
    case TypeMultiPoint => Some((MultiPoint, XY))
    case TypeMultiLineString => Some((MultiLineString, XY))
    case TypeMultiPolygon => Some((MultiPolygon, XY))
    case TypePointZ => Some((Point, XYZ))
    case TypeLineStringZ => Some((LineString, XYZ))
    case TypePolygonZ => Some((Polygon, XYZ))
    case TypeMultiPointZ => Some((MultiPoint, XYZ))
    case TypeMultiLineStringZ => Some((MultiLineString, XYZ))
    case TypeMultiPolygonZ => Some((MultiPolygon, XYZ))
    case TypePointM => Some((Point, XYM))
    case TypeLineStringM => Some((LineString, XYM))
    case TypePolygonM => Some((Polygon, XYM))
    case TypeMultiPointM => Some((MultiPoint, XYM))
    case TypeMultiLineStringM => Some((MultiLineString, XYM))
    case TypeMultiPolygonM => Some((MultiPolygon, XYM))
    case TypePointZM => Some((Point, XYZM))
    case TypeLineStringZM => Some((LineString, XYZM))
    case TypePolygonZM => Some((Polygon, XYZM))
    case TypeMultiPointZM => Some((MultiPoint, XYZM))
    case TypeMultiLineStringZM => Some((MultiLineString, XYZM))
    case TypeMultiPolygonZM => Some((MultiPolygon, XYZM))
  }

  /** MakeType reports failure exactly for GEOMETRY, GEOMETRYCOLLECTION and
      unknown dimensions, rather than picking some type. */
  lemma MakeTypeFails(g: GeometryType, d: Dimensions)
    ensures MakeType(g, d).None? <==> (g == Geometry || g == GeometryCollection || d == DimensionsUnknown)
  {
    if IsStructuredKind(g) && d != DimensionsUnknown {
      var c := 3 + 6 * (DimensionsCode(d) - 1) + (GeometryTypeCode(g) - 1);
      assert 3 <= c <= 26;
    }
  }

  /** Every pair MakeType accepts lands on the type whose name spells it. */
  lemma {:induction false} MakeTypeNamesPair(g: GeometryType, d: Dimensions)
    requires MakeType(g, d).Some?
    ensures TypeParts(MakeType(g, d).value) == Some((g, d))
  {
    var c := 3 + 6 * (DimensionsCode(d) - 1) + (GeometryTypeCode(g) - 1);
    assert MakeType(g, d) == TypeFromCode(c);
    TypeFromCodeParts(c);
  }

  /** TypeFromCodeParts for the XY block, codes 3..8, one case per kind. */
  lemma TypeFromCodeBlock1(c: int)
    requires 3 <= c <= 8
    ensures TypeFromCode(c).Some? && TypeParts(TypeFromCode(c).value).Some?
    ensures GeometryTypeCode(TypeParts(TypeFromCode(c).value).value.0) == c - 3 + 1
    ensures DimensionsCode(TypeParts(TypeFromCode(c).value).value.1) == 1
  {
    if c == 3 {
    } else if c == 4 {
    } else if c == 5 {
    } else if c == 6 {
    } else if c == 7 {
    } else if c == 8 {
    }
  }

  /** TypeFromCodeParts for the Z block, codes 9..14, one case per kind. */
  lemma TypeFromCodeBlock2(c: int)
    requires 9 <= c <= 14
    ensures TypeFromCode(c).Some? && TypeParts(TypeFromCode(c).value).Some?
    ensures GeometryTypeCode(TypeParts(TypeFromCode(c).value).value.0) == c - 9 + 1
    ensures DimensionsCode(TypeParts(TypeFromCode(c).value).value.1) == 2
  {
    if c == 9 {
    } else if c == 10 {
    } else if c == 11 {
    } else if c == 12 {
    } else if c == 13 {
    } else if c == 14 {
    }
  }

  /** TypeFromCodeParts for the M block, codes 15..20, one case per kind. */
  lemma TypeFromCodeBlock3(c: int)
    requires 15 <= c <= 20
    ensures TypeFromCode(c).Some? && TypeParts(TypeFromCode(c).value).Some?
    ensures GeometryTypeCode(TypeParts(TypeFromCode(c).value).value.0) == c - 15 + 1
    ensures DimensionsCode(TypeParts(TypeFromCode(c).value).value.1) == 3
  {
    if c == 15 {
    } else if c == 16 {
    } else if c == 17 {
    } else if c == 18 {
    } else if c == 19 {
    } else if c == 20 {
    }
  }

  /** TypeFromCodeParts for the ZM block, codes 21..26, one case per kind. */
  lemma TypeFromCodeBlock4(c: int)
    requires 21 <= c <= 26
    ensures TypeFromCode(c).Some? && TypeParts(TypeFromCode(c).value).Some?
    ensures GeometryTypeCode(TypeParts(TypeFromCode(c).value).value.0) == c - 21 + 1
    ensures DimensionsCode(TypeParts(TypeFromCode(c).value).value.1) == 4
  {
    if c == 21 {
    } else if c == 22 {
    } else if c == 23 {
    } else if c == 24 {
    } else if c == 25 {
    } else if c == 26 {
    }
  }

  /** Each structured value 3..26 names the pair the block layout puts at it. */
  lemma TypeFromCodeParts(c: int)
    requires 3 <= c <= 26
    ensures TypeFromCode(c).Some?
    ensures TypeParts(TypeFromCode(c).value).Some?
    ensures GeometryTypeCode(TypeParts(TypeFromCode(c).value).value.0) == (c - 3) % 6 + 1
    ensures DimensionsCode(TypeParts(TypeFromCode(c).value).value.1) == (c - 3) / 6 + 1
  {
    if c <= 8 {
      TypeFromCodeBlock1(c);
    } else if c <= 14 {
      TypeFromCodeBlock2(c);
    } else if c <= 20 {
      TypeFromCodeBlock3(c);
    } else {
      TypeFromCodeBlock4(c);
    }
  }

  /** The block layout is the inverse of the enum's names: MakeType finds a
      type exactly when that type's name spells the pair. */
  lemma {:induction false} MakeTypeInvertsParts(g: GeometryType, d: Dimensions, t: GeoArrowType)
    ensures MakeType(g, d) == Some(t) <==> TypeParts(t) == Some((g, d))
  {
    if MakeType(g, d) == Some(t) {
      MakeTypeNamesPair(g, d);
    }
    if TypeParts(t) == Some((g, d)) {
      StructuredTypeCode(t);
      TypeCodeRoundTrip(t);
    }
  }

  /** The structured types' integer values follow the block layout. */
  lemma StructuredTypeCode(t: GeoArrowType)
    requires TypeParts(t).Some?
    ensures var (g, d) := TypeParts(t).value;
      TypeCode(t) == 3 + 6 * (DimensionsCode(d) - 1) + (GeometryTypeCode(g) - 1)
      && IsStructuredKind(g) && d != DimensionsUnknown
  {
  }

  /** Distinct (kind, dimensions) pairs never share a structured type. */
  lemma MakeTypeInjective(g1: GeometryType, d1: Dimensions, g2: GeometryType, d2: Dimensions)
    requires MakeType(g1, d1).Some? && MakeType(g1, d1) == MakeType(g2, d2)
    ensures g1 == g2 && d1 == d2
  {
    var t := MakeType(g1, d1).value;
    MakeTypeInvertsParts(g1, d1, t);
    MakeTypeInvertsParts(g2, d2, t);
  }

  /** TypeParts fails exactly on the three types that have no pair. */
  lemma TypePartsFails(t: GeoArrowType)
    ensures TypeParts(t).None? <==> (t == TypeUninitialized || t == TypeWkb || t == TypeLargeWkb)
  {
  }

  // ---------------------------------------------------------------------
  // Coordinate slots

  datatype CoordSlot = SlotX | SlotY | SlotZ | SlotM

  /** The order of the values of one coordinate: X, Y, then Z and/or M,
      with M always last. */
  function Slots(d: Dimensions): (s: seq<CoordSlot>)
  {
    match d
    case DimensionsUnknown => []
    case XY => [SlotX, SlotY]
    case XYZ => [SlotX, SlotY, SlotZ]
    case XYM => [SlotX, SlotY, SlotM]
    case XYZM => [SlotX, SlotY, SlotZ, SlotM]
  }

  /** Every known dimensions value has 2 to 4 slots starting X, Y; Z is the
      third slot when present, and M is the last slot when present, so an
      XYM coordinate carries M in its third slot. */
  lemma SlotsLayout(d: Dimensions)
    requires d != DimensionsUnknown
    ensures 2 <= |Slots(d)| <= 4
    ensures Slots(d)[0] == SlotX && Slots(d)[1] == SlotY
    ensures SlotZ in Slots(d) <==> (d == XYZ || d == XYZM)
    ensures SlotM in Slots(d) <==> (d == XYM || d == XYZM)
    ensures SlotZ in Slots(d) ==> Slots(d)[2] == SlotZ
    ensures SlotM in Slots(d) ==> Slots(d)[|Slots(d)| - 1] == SlotM
  {
  }
}
