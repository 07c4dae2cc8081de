/** The WKT writer's test scenarios, each derived from the general contract
    (WriterColumn): the event sequence the test feeds, the column Finish
    returns, and the entries read back from it. Coordinates the tests pass
    as separate per-dimension arrays are read through a coordinate view. */
module WktWriterScenarios {
  import opened Wrappers
  import opened GeoArrowTypes
  import opened Visitor
  import opened WktText
  import opened WktWriter
  import CoordViews

  /** The column a fresh writer finishes after the events es, if any. */
  function Finished(es: seq<Event>): Option<Column>
  {
    match Run(Initial, es)
    case Failure(_) => None
    case Success(s) =>
      match FinishState(s)
      case Failure(_) => None
      case Success(p) => Some(p.0)
  }

  lemma FinishedStream(fs: seq<Feature>)
    requires WellFormedFeatures(fs)
    ensures Finished(StreamEvents(fs)).Some?
    ensures var col := Finished(StreamEvents(fs)).value;
      && ColumnValid(col)
      && col.length == |fs|
      && col.nullCount == CountNulls(fs)
      && (col.validity.None? <==> CountNulls(fs) == 0)
      && (forall i :: 0 <= i < |fs| ==> Entry(col, i) == FeatureWkt(fs[i]))
  {
    WriterColumn(fs);
  }

  lemma NullEvents()
    ensures StreamEvents([NullFeature]) == [FeatStart, NullFeat, FeatEnd]
    ensures CountNulls([NullFeature]) == 1
  {
    assert StreamEvents([NullFeature]) == [FeatStart, NullFeat, FeatEnd] + StreamEvents([]);
    assert CountNulls([NullFeature]) == CountNulls([]) + 1;
  }

  /** feat_start, null_feat, feat_end: one entry, and it is null. */
  lemma OneNull()
    ensures Finished([FeatStart, NullFeat, FeatEnd]).Some?
    ensures var col := Finished([FeatStart, NullFeat, FeatEnd]).value;
      ColumnValid(col) && col.length == 1 && col.nullCount == 1 && IsNull(col, 0)
  {
    NullEvents();
    FinishedStream([NullFeature]);
    assert Entry(Finished(StreamEvents([NullFeature])).value, 0) == None;
  }

  /** An empty point then a null: one null between them, the point's text
      POINT EMPTY and the null's none. */
  lemma ValidThenNull()
    ensures var fs := [GeomFeature(Geom(Point, XY, EmptyBody)), NullFeature];
      && CountNulls(fs) == 1
      && FeatureWkt(fs[0]) == Some("POINT EMPTY")
      && FeatureWkt(fs[1]) == None
  {
    var point := GeomFeature(Geom(Point, XY, EmptyBody));
    var fs := [point, NullFeature];
    assert fs[..1] == [point] && [point][..0] == [];
    assert CountNulls([point]) == 0;
    EmptyGeomText(Point, XY);
    assert WktEmpty(Point, XY) == "POINT EMPTY";
  }

  /** An empty point then a null: two entries, one null, and the empty
      point reads back as POINT EMPTY rather than as a null. */
  lemma OneValidOneNullStream()
    ensures var fs := [GeomFeature(Geom(Point, XY, EmptyBody))] + [NullFeature];
      && Finished(StreamEvents(fs)).Some?
      && var col := Finished(StreamEvents(fs)).value;
      && ColumnValid(col) && col.length == 2 && col.nullCount == 1
      && !IsNull(col, 0) && IsNull(col, 1)
      && Entry(col, 0) == Some("POINT EMPTY")
  {
    var point := GeomFeature(Geom(Point, XY, EmptyBody));
    var fs := [point] + [NullFeature];
    FinishedStream(fs);
    ValidThenNull();
    assert fs == [point, NullFeature];
  }

  /** The same, from the test's own call list. */
  lemma OneValidOneNull()
    ensures var es := [FeatStart, GeomStart(Point, XY), GeomEnd, FeatEnd, FeatStart, NullFeat, FeatEnd];
      && Finished(es).Some?
      && var col := Finished(es).value;
      && ColumnValid(col) && col.length == 2 && col.nullCount == 1
      && !IsNull(col, 0) && IsNull(col, 1)
      && Entry(col, 0) == Some("POINT EMPTY")
  {
    var point := GeomFeature(Geom(Point, XY, EmptyBody));
    var fs := [point] + [NullFeature];
    assert fs[1..] == [NullFeature];
    assert StreamEvents([NullFeature]) == [FeatStart, NullFeat, FeatEnd] + StreamEvents([]);
    assert GeomEvents(point.geom) == [GeomStart(Point, XY), GeomEnd];
    assert StreamEvents(fs) == [FeatStart, GeomStart(Point, XY), GeomEnd, FeatEnd, FeatStart, NullFeat, FeatEnd];
    OneValidOneNullStream();
  }

  /** The events of one empty geometry of kind g in each of the four
      dimensions, in the order XY, XYZ, XYM, XYZM. */
  function EmptyFeatures(g: GeometryType): seq<Feature>
  {
    [GeomFeature(Geom(g, XY, EmptyBody)), GeomFeature(Geom(g, XYZ, EmptyBody)),
     GeomFeature(Geom(g, XYM, EmptyBody)), GeomFeature(Geom(g, XYZM, EmptyBody))]
  }

  lemma {:induction false} NoNulls(fs: seq<Feature>)
    requires forall i :: 0 <= i < |fs| ==> fs[i].GeomFeature?
    ensures CountNulls(fs) == 0
    decreases |fs|
  {
    if fs != [] {
      NoNulls(fs[..|fs| - 1]);
    }
  }

  /** Empty geometries of any kind in the four dimensions: four valid
      entries, no validity bitmap, each entry the keyword, the dimension tag
      and EMPTY. */
  lemma Empty(g: GeometryType)
    ensures var es := StreamEvents(EmptyFeatures(g));
      && Finished(es).Some?
      && var col := Finished(es).value;
      && ColumnValid(col) && col.length == 4 && col.nullCount == 0 && col.validity.None?
      && Entry(col, 0) == Some(WktEmpty(g, XY))
      && Entry(col, 1) == Some(WktEmpty(g, XYZ))
      && Entry(col, 2) == Some(WktEmpty(g, XYM))
      && Entry(col, 3) == Some(WktEmpty(g, XYZM))
  {
    var fs := EmptyFeatures(g);
    NoNulls(fs);
    FinishedStream(fs);
    EmptyGeomText(g, XY);
    EmptyGeomText(g, XYZ);
    EmptyGeomText(g, XYM);
    EmptyGeomText(g, XYZM);
  }

  /** An empty geometry with unknown dimensions: accepted, and printed with
      no dimension tag, as WKTEmpty prints it. */
  lemma UnknownDimensions(g: GeometryType)
    ensures var es := [FeatStart, GeomStart(g, DimensionsUnknown), GeomEnd, FeatEnd];
      && Finished(es).Some?
      && var col := Finished(es).value;
      && ColumnValid(col) && col.length == 1 && col.nullCount == 0
      && Entry(col, 0) == Some(WktEmpty(g, XY))
  {
    var f := GeomFeature(Geom(g, DimensionsUnknown, EmptyBody));
    assert GeomEvents(f.geom) == [GeomStart(g, DimensionsUnknown), GeomEnd];
    assert WellFormedFeatures([f]);
    assert StreamEvents([f]) == [FeatStart, GeomStart(g, DimensionsUnknown), GeomEnd, FeatEnd] + StreamEvents([]);
    var es := [FeatStart, GeomStart(g, DimensionsUnknown), GeomEnd, FeatEnd];
    assert StreamEvents([f]) == es;
    assert CountNulls([f]) == CountNulls([]);
    FinishedStream([f]);
    EmptyGeomText(g, DimensionsUnknown);
    assert WktEmpty(g, DimensionsUnknown) == WktEmpty(g, XY);
    assert Entry(Finished(es).value, 0) == FeatureWkt(f);
  }

  // -----------------------------------------------------------------------
  // Coordinates from the tests' separate arrays

  /** The tests' four coordinate arrays (X, Y, Z, M), four values each. */
  const XS := [1, 2, 3, 1]
  const YS := [2, 3, 4, 2]
  const ZS := [3, 4, 5, 3]
  const MS := [4, 5, 6, 4]
  /** The arrays passed for XY, XYZ and XYZM (the first two, three or four). */
  const COORDS := [XS, YS, ZS, MS]
  /** The arrays passed for XYM: M takes the third slot. */
  const COORDS_M := [XS, YS, MS]

  /** The rows a separate view over the first k arrays yields: row r holds
      the r-th element of each array. */
  function Rows(cols: seq<seq<int>>, n: int, k: int): seq<seq<int>>
    requires 0 <= n && 0 <= k <= |cols|
    requires forall col :: 0 <= col < k ==> n <= |cols[col]|
  {
    seq(n, row requires 0 <= row < n => seq(k, col requires 0 <= col < k => cols[col][row]))
  }

  /** A coordinate view over separate arrays reads exactly those rows. */
  lemma ViewRows(cols: seq<seq<int>>, n: int, k: int)
    requires 1 <= k <= |cols| && k <= CoordViews.MAX_VALUES && 0 <= n
    requires forall col :: 0 <= col < k ==> n <= |cols[col]|
    ensures CoordViews.Tuples(CoordViews.Separate(cols[..k], n)) == Rows(cols, n, k)
  {
    var ts := CoordViews.Tuples(CoordViews.Separate(cols[..k], n));
    forall row, col | 0 <= row < n && 0 <= col < k
      ensures ts[row][col] == cols[col][row]
    {
      CoordViews.SeparateValue(cols[..k], n, row, col);
    }
    forall row | 0 <= row < n
      ensures ts[row] == Rows(cols, n, k)[row]
    {
    }
  }

  /** One coords call over the first k of cols with n coordinates, as the
      tests make it: the batch is what a separate coordinate view reads. */
  function ViewBatch(cols: seq<seq<int>>, n: int, k: int): Batch
    requires 1 <= k <= |cols| && k <= CoordViews.MAX_VALUES && 0 <= n
    requires forall col :: 0 <= col < k ==> n <= |cols[col]|
  {
    CoordViews.Tuples(CoordViews.Separate(cols[..k], n))
  }

  /** A test feature: kind g in dimensions d, with one coords call. */
  function TestFeature(g: GeometryType, d: Dimensions, cols: seq<seq<int>>, n: int, k: int): Feature
    requires 1 <= k <= |cols| && k <= CoordViews.MAX_VALUES && 0 <= n
    requires forall col :: 0 <= col < k ==> n <= |cols[col]|
  {
    GeomFeature(Geom(g, d, CoordBody([ViewBatch(cols, n, k)])))
  }

  lemma FlattenOne(b: Batch)
    ensures Flatten([b]) == b
  {
    assert Flatten([b]) == b + Flatten([]);
    assert b + [] == b;
  }

  /** The entry of a test feature, given the text of its coordinate list. */
  lemma TestFeatureText(g: GeometryType, d: Dimensions, cols: seq<seq<int>>, n: int, k: int,
                        list: string, whole: string)
    requires 1 <= k <= |cols| && k <= CoordViews.MAX_VALUES && 0 <= n
    requires forall col :: 0 <= col < k ==> n <= |cols[col]|
    requires CoordListText(Rows(cols, n, k)) == list
    requires Keyword(g) + DimSuffix(d) + " " + list == whole
    ensures FeatureWkt(TestFeature(g, d, cols, n, k)) == Some(whole)
  {
    ViewRows(cols, n, k);
    FlattenOne(ViewBatch(cols, n, k));
  }

  // -----------------------------------------------------------------------
  // Tuple and list texts

  lemma JoinCons(sep: string, x: string, rest: seq<string>)
    requires rest != []
    ensures Join(sep, [x] + rest) == x + sep + Join(sep, rest)
  {
    assert ([x] + rest)[1..] == rest;
  }

  lemma Digits(a: int)
    requires 0 <= a <= 9
    ensures NumText(a) == [DigitChar(a)]
  {
  }

  lemma Tuple2Text(a: int, b: int)
    requires 0 <= a <= 9 && 0 <= b <= 9
    ensures TupleText([a, b]) == [DigitChar(a), ' ', DigitChar(b)]
  {
    Digits(a); Digits(b);
    assert NumTexts([a, b]) == [NumText(a)] + [NumText(b)];
    JoinCons(" ", NumText(a), [NumText(b)]);
  }

  lemma Tuple3Text(a: int, b: int, c: int)
    requires 0 <= a <= 9 && 0 <= b <= 9 && 0 <= c <= 9
    ensures TupleText([a, b, c]) == [DigitChar(a), ' ', DigitChar(b), ' ', DigitChar(c)]
  {
    Digits(a); Digits(b); Digits(c);
    assert NumTexts([a, b, c]) == [NumText(a)] + ([NumText(b)] + [NumText(c)]);
    JoinCons(" ", NumText(a), [NumText(b)] + [NumText(c)]);
    JoinCons(" ", NumText(b), [NumText(c)]);
  }

  lemma Tuple4Text(a: int, b: int, c: int, d: int)
    requires 0 <= a <= 9 && 0 <= b <= 9 && 0 <= c <= 9 && 0 <= d <= 9
    ensures TupleText([a, b, c, d]) == [DigitChar(a), ' ', DigitChar(b), ' ', DigitChar(c), ' ', DigitChar(d)]
  {
    Digits(a); Digits(b); Digits(c); Digits(d);
    assert NumTexts([a, b, c, d]) == [NumText(a)] + ([NumText(b)] + ([NumText(c)] + [NumText(d)]));
    JoinCons(" ", NumText(a), [NumText(b)] + ([NumText(c)] + [NumText(d)]));
    JoinCons(" ", NumText(b), [NumText(c)] + [NumText(d)]);
    JoinCons(" ", NumText(c), [NumText(d)]);
  }

  lemma OneTuple(ts: seq<seq<int>>, a: string)
    requires |ts| == 1 && TupleText(ts[0]) == a
    ensures CoordListText(ts) == "(" + a + ")"
  {
    assert TupleTexts(ts) == [a];
  }

  /** A list of four tuples, its text given as two halves. */
  lemma FourTuples(ts: seq<seq<int>>, a: string, b: string, c: string, d: string, left: string, right: string)
    requires |ts| == 4
    requires TupleText(ts[0]) == a && TupleText(ts[1]) == b && TupleText(ts[2]) == c && TupleText(ts[3]) == d
    requires "(" + a + ", " + b == left && ", " + c + ", " + d + ")" == right
    ensures CoordListText(ts) == left + right
  {
    assert TupleTexts(ts) == [a] + ([b] + ([c] + [d]));
    JoinCons(", ", a, [b] + ([c] + [d]));
    JoinCons(", ", b, [c] + [d]);
    JoinCons(", ", c, [d]);
    Regroup("(", a, ", ", b, c, d, ")");
  }

  lemma Regroup(o: string, a: string, s: string, b: string, c: string, d: string, cl: string)
    ensures o + (a + s + (b + s + (c + s + d))) + cl == (o + a + s + b) + (s + c + s + d + cl)
  {
  }

  // -----------------------------------------------------------------------
  // Point: one coordinate in each of the four dimensions

  function PointFeatures(): seq<Feature>
  {
    [TestFeature(Point, XY, COORDS, 1, 2), TestFeature(Point, XYZ, COORDS, 1, 3),
     TestFeature(Point, XYM, COORDS_M, 1, 3), TestFeature(Point, XYZM, COORDS, 1, 4)]
  }

  lemma PointXY()
    ensures FeatureWkt(TestFeature(Point, XY, COORDS, 1, 2)) == Some("POINT (1 2)")
  {
    var rs := Rows(COORDS, 1, 2);
    assert |rs| == 1 && rs[0] == [1, 2];
    Tuple2Text(1, 2);
    OneTuple(Rows(COORDS, 1, 2), "1 2");
    TestFeatureText(Point, XY, COORDS, 1, 2, "(1 2)", "POINT (1 2)");
  }

  lemma PointXYZ()
    ensures FeatureWkt(TestFeature(Point, XYZ, COORDS, 1, 3)) == Some("POINT Z (1 2 3)")
  {
    var rs := Rows(COORDS, 1, 3);
    assert |rs| == 1 && rs[0] == [1, 2, 3];
    Tuple3Text(1, 2, 3);
    OneTuple(Rows(COORDS, 1, 3), "1 2 3");
    TestFeatureText(Point, XYZ, COORDS, 1, 3, "(1 2 3)", "POINT Z (1 2 3)");
  }

  lemma PointXYM()
    ensures FeatureWkt(TestFeature(Point, XYM, COORDS_M, 1, 3)) == Some("POINT M (1 2 4)")
  {
    var rs := Rows(COORDS_M, 1, 3);
    assert |rs| == 1 && rs[0] == [1, 2, 4];
    Tuple3Text(1, 2, 4);
    OneTuple(Rows(COORDS_M, 1, 3), "1 2 4");
    TestFeatureText(Point, XYM, COORDS_M, 1, 3, "(1 2 4)", "POINT M (1 2 4)");
  }

  lemma PointXYZM()
    ensures FeatureWkt(TestFeature(Point, XYZM, COORDS, 1, 4)) == Some("POINT ZM (1 2 3 4)")
  {
    var rs := Rows(COORDS, 1, 4);
    assert |rs| == 1 && rs[0] == [1, 2, 3, 4];
    Tuple4Text(1, 2, 3, 4);
    OneTuple(Rows(COORDS, 1, 4), "1 2 3 4");
    TestFeatureText(Point, XYZM, COORDS, 1, 4, "(1 2 3 4)", "POINT ZM (1 2 3 4)");
  }

  /** Four points, each printing exactly the values it was given in slot
      order: M lands third when there is no Z. */
  lemma PointScenario()
    ensures var es := StreamEvents(PointFeatures());
      && Finished(es).Some?
      && var col := Finished(es).value;
      && ColumnValid(col) && col.length == 4 && col.nullCount == 0
      && Entry(col, 0) == Some("POINT (1 2)")
      && Entry(col, 1) == Some("POINT Z (1 2 3)")
      && Entry(col, 2) == Some("POINT M (1 2 4)")
      && Entry(col, 3) == Some("POINT ZM (1 2 3 4)")
  {
    var fs := PointFeatures();
    NoNulls(fs);
    FinishedStream(fs);
    PointXY(); PointXYZ(); PointXYM(); PointXYZM();
  }

  // -----------------------------------------------------------------------
  // LineString: four coordinates in each of the four dimensions

  function LineStringFeatures(): seq<Feature>
  {
    [TestFeature(LineString, XY, COORDS, 4, 2), TestFeature(LineString, XYZ, COORDS, 4, 3),
     TestFeature(LineString, XYM, COORDS_M, 4, 3), TestFeature(LineString, XYZM, COORDS, 4, 4)]
  }

  lemma RowsXY()
    ensures var rs := Rows(COORDS, 4, 2);
      |rs| == 4 && rs[0] == [1, 2] && rs[1] == [2, 3] && rs[2] == [3, 4] && rs[3] == [1, 2]
  {
  }

  lemma TuplesXY()
    ensures TupleText([1, 2]) == "1 2"
    ensures TupleText([2, 3]) == "2 3"
    ensures TupleText([3, 4]) == "3 4"
  {
    Tuple2Text(1, 2); Tuple2Text(2, 3); Tuple2Text(3, 4);
  }

  lemma HalvesXY()
    ensures "(" + "1 2" + ", " + "2 3" == "(1 2, 2 3"
    ensures ", " + "3 4" + ", " + "1 2" + ")" == ", 3 4, 1 2)"
  {
  }

  lemma ListXY()
    ensures CoordListText(Rows(COORDS, 4, 2)) == "(1 2, 2 3" + ", 3 4, 1 2)"
  {
    RowsXY();
    TuplesXY();
    HalvesXY();
    FourTuples(Rows(COORDS, 4, 2), "1 2", "2 3", "3 4", "1 2", "(1 2, 2 3", ", 3 4, 1 2)");
  }

  lemma RowsXYZ()
    ensures var rs := Rows(COORDS, 4, 3);
      |rs| == 4 && rs[0] == [1, 2, 3] && rs[1] == [2, 3, 4] && rs[2] == [3, 4, 5] && rs[3] == [1, 2, 3]
  {
  }

  lemma TuplesXYZ()
    ensures TupleText([1, 2, 3]) == "1 2 3"
    ensures TupleText([2, 3, 4]) == "2 3 4"
    ensures TupleText([3, 4, 5]) == "3 4 5"
  {
    Tuple3Text(1, 2, 3); Tuple3Text(2, 3, 4); Tuple3Text(3, 4, 5);
  }

  lemma HalvesXYZ()
    ensures "(" + "1 2 3" + ", " + "2 3 4" == "(1 2 3, 2 3 4"
    ensures ", " + "3 4 5" + ", " + "1 2 3" + ")" == ", 3 4 5, 1 2 3)"
  {
  }

  lemma ListXYZ()
    ensures CoordListText(Rows(COORDS, 4, 3)) == "(1 2 3, 2 3 4" + ", 3 4 5, 1 2 3)"
  {
    RowsXYZ();
    TuplesXYZ();
    HalvesXYZ();
    FourTuples(Rows(COORDS, 4, 3), "1 2 3", "2 3 4", "3 4 5", "1 2 3", "(1 2 3, 2 3 4", ", 3 4 5, 1 2 3)");
  }

  lemma RowsXYM()
    ensures var rs := Rows(COORDS_M, 4, 3);
      |rs| == 4 && rs[0] == [1, 2, 4] && rs[1] == [2, 3, 5] && rs[2] == [3, 4, 6] && rs[3] == [1, 2, 4]
  {
  }

  lemma TuplesXYM()
    ensures TupleText([1, 2, 4]) == "1 2 4"
    ensures TupleText([2, 3, 5]) == "2 3 5"
    ensures TupleText([3, 4, 6]) == "3 4 6"
  {
    Tuple3Text(1, 2, 4); Tuple3Text(2, 3, 5); Tuple3Text(3, 4, 6);
  }

  lemma HalvesXYM()
    ensures "(" + "1 2 4" + ", " + "2 3 5" == "(1 2 4, 2 3 5"
    ensures ", " + "3 4 6" + ", " + "1 2 4" + ")" == ", 3 4 6, 1 2 4)"
  {
  }

  lemma ListXYM()
    ensures CoordListText(Rows(COORDS_M, 4, 3)) == "(1 2 4, 2 3 5" + ", 3 4 6, 1 2 4)"
  {
    RowsXYM();
    TuplesXYM();
    HalvesXYM();
    FourTuples(Rows(COORDS_M, 4, 3), "1 2 4", "2 3 5", "3 4 6", "1 2 4", "(1 2 4, 2 3 5", ", 3 4 6, 1 2 4)");
  }

  lemma RowsXYZM()
    ensures var rs := Rows(COORDS, 4, 4);
      |rs| == 4 && rs[0] == [1, 2, 3, 4] && rs[1] == [2, 3, 4, 5] && rs[2] == [3, 4, 5, 6] && rs[3] == [1, 2, 3, 4]
  {
  }

  lemma TuplesXYZM()
    ensures TupleText([1, 2, 3, 4]) == "1 2 3 4"
    ensures TupleText([2, 3, 4, 5]) == "2 3 4 5"
    ensures TupleText([3, 4, 5, 6]) == "3 4 5 6"
  {
    Tuple4Text(1, 2, 3, 4); Tuple4Text(2, 3, 4, 5); Tuple4Text(3, 4, 5, 6);
  }

  lemma HalvesXYZM()
    ensures "(" + "1 2 3 4" + ", " + "2 3 4 5" == "(1 2 3 4, 2 3 4 5"
    ensures ", " + "3 4 5 6" + ", " + "1 2 3 4" + ")" == ", 3 4 5 6, 1 2 3 4)"
  {
  }

  lemma ListXYZM()
    ensures CoordListText(Rows(COORDS, 4, 4)) == "(1 2 3 4, 2 3 4 5" + ", 3 4 5 6, 1 2 3 4)"
  {
    RowsXYZM();
    TuplesXYZM();
    HalvesXYZM();
    FourTuples(Rows(COORDS, 4, 4), "1 2 3 4", "2 3 4 5", "3 4 5 6", "1 2 3 4", "(1 2 3 4, 2 3 4 5", ", 3 4 5 6, 1 2 3 4)");
  }

  /** The entry of a four-coordinate test feature, its text given as the
      keyword with tag and space, then the two halves of the list. */
  lemma ListFeatureText(g: GeometryType, d: Dimensions, cols: seq<seq<int>>, k: int,
                        head: string, left: string, right: string)
    requires 1 <= k <= |cols| && k <= CoordViews.MAX_VALUES
    requires forall col :: 0 <= col < k ==> 4 <= |cols[col]|
    requires CoordListText(Rows(cols, 4, k)) == left + right
    requires Keyword(g) + DimSuffix(d) + " " == head
    ensures FeatureWkt(TestFeature(g, d, cols, 4, k)) == Some(head + left + right)
  {
    assert Keyword(g) + DimSuffix(d) + " " + (left + right) == head + left + right;
    TestFeatureText(g, d, cols, 4, k, left + right, head + left + right);
  }

  /** A test feature produces the test's calls: feat_start, geom_start,
      one coords call, geom_end, feat_end. */
  lemma TestFeatureEvents(g: GeometryType, d: Dimensions, cols: seq<seq<int>>, n: int, k: int)
    requires 1 <= k <= |cols| && k <= CoordViews.MAX_VALUES && 0 <= n
    requires forall col :: 0 <= col < k ==> n <= |cols[col]|
    ensures FeatureEvents(TestFeature(g, d, cols, n, k))
         == [FeatStart, GeomStart(g, d), Coords(ViewBatch(cols, n, k)), GeomEnd, FeatEnd]
  {
    assert CoordsEvents([ViewBatch(cols, n, k)]) == [Coords(ViewBatch(cols, n, k))] + CoordsEvents([]);
  }

  /** The linestring entries, as the keyword and the two halves of the list. */
  lemma LineStringLiteralXY()
    ensures "LINESTRING " + "(1 2, 2 3" + ", 3 4, 1 2)" == "LINESTRING (1 2, 2 3, 3 4, 1 2)"
  {
  }

  lemma LineStringLiteralXYZ()
    ensures "LINESTRING Z " + "(1 2 3, 2 3 4" + ", 3 4 5, 1 2 3)" == "LINESTRING Z (1 2 3, 2 3 4, 3 4 5, 1 2 3)"
  {
  }

  lemma LineStringLiteralXYM()
    ensures "LINESTRING M " + "(1 2 4, 2 3 5" + ", 3 4 6, 1 2 4)" == "LINESTRING M (1 2 4, 2 3 5, 3 4 6, 1 2 4)"
  {
  }

  lemma LineStringLiteralXYZM()
    ensures "LINESTRING ZM " + "(1 2 3 4, 2 3 4 5" + ", 3 4 5 6, 1 2 3 4)" == "LINESTRING ZM (1 2 3 4, 2 3 4 5, 3 4 5 6, 1 2 3 4)"
  {
  }

  lemma LineStringXY()
    ensures FeatureWkt(TestFeature(LineString, XY, COORDS, 4, 2)) == Some("LINESTRING (1 2, 2 3, 3 4, 1 2)")
  {
    LineStringLiteralXY();
    ListXY();
    ListFeatureText(LineString, XY, COORDS, 2, "LINESTRING ", "(1 2, 2 3", ", 3 4, 1 2)");
  }

  lemma LineStringXYZ()
    ensures FeatureWkt(TestFeature(LineString, XYZ, COORDS, 4, 3)) == Some("LINESTRING Z (1 2 3, 2 3 4, 3 4 5, 1 2 3)")
  {
    LineStringLiteralXYZ();
    ListXYZ();
    ListFeatureText(LineString, XYZ, COORDS, 3, "LINESTRING Z ", "(1 2 3, 2 3 4", ", 3 4 5, 1 2 3)");
  }

  lemma LineStringXYM()
    ensures FeatureWkt(TestFeature(LineString, XYM, COORDS_M, 4, 3)) == Some("LINESTRING M (1 2 4, 2 3 5, 3 4 6, 1 2 4)")
  {
    LineStringLiteralXYM();
    ListXYM();
    ListFeatureText(LineString, XYM, COORDS_M, 3, "LINESTRING M ", "(1 2 4, 2 3 5", ", 3 4 6, 1 2 4)");
  }

  lemma LineStringXYZM()
    ensures FeatureWkt(TestFeature(LineString, XYZM, COORDS, 4, 4)) == Some("LINESTRING ZM (1 2 3 4, 2 3 4 5, 3 4 5 6, 1 2 3 4)")
  {
    LineStringLiteralXYZM();
    ListXYZM();
    ListFeatureText(LineString, XYZM, COORDS, 4, "LINESTRING ZM ", "(1 2 3 4, 2 3 4 5", ", 3 4 5 6, 1 2 3 4)");
  }

  /** Four linestrings of four coordinates, one per dimension: no nulls, and
      each entry lists the coordinates in order, separated by ", ". */
  lemma LineStringScenario()
    ensures var es := StreamEvents(LineStringFeatures());
      && Finished(es).Some?
      && var col := Finished(es).value;
      && ColumnValid(col) && col.length == 4 && col.nullCount == 0
      && Entry(col, 0) == Some("LINESTRING (1 2, 2 3, 3 4, 1 2)")
      && Entry(col, 1) == Some("LINESTRING Z (1 2 3, 2 3 4, 3 4 5, 1 2 3)")
      && Entry(col, 2) == Some("LINESTRING M (1 2 4, 2 3 5, 3 4 6, 1 2 4)")
      && Entry(col, 3) == Some("LINESTRING ZM (1 2 3 4, 2 3 4 5, 3 4 5 6, 1 2 3 4)")
  {
    var fs := LineStringFeatures();
    NoNulls(fs);
    FinishedStream(fs);
    LineStringXY(); LineStringXYZ(); LineStringXYM(); LineStringXYZM();
  }

  // -----------------------------------------------------------------------
  // Polygon: one ring of four coordinates

  /** The test's polygon: ring_start, one coords call, ring_end. */
  function PolygonFeature(): Feature
  {
    GeomFeature(Geom(Polygon, XY, RingBody([[ViewBatch(COORDS, 4, 2)]])))
  }

  lemma PolygonEvents()
    ensures FeatureEvents(PolygonFeature())
         == [FeatStart, GeomStart(Polygon, XY), RingStart, Coords(ViewBatch(COORDS, 4, 2)), RingEnd, GeomEnd, FeatEnd]
  {
    var b := ViewBatch(COORDS, 4, 2);
    assert CoordsEvents([b]) == [Coords(b)] + CoordsEvents([]);
    assert RingsEvents([[b]]) == RingEvents([b]) + RingsEvents([]);
  }

  /** The ring's list sits inside the polygon's own parentheses. */
  lemma PolygonText()
    ensures FeatureWkt(PolygonFeature()) == Some("POLYGON ((1 2, 2 3, 3 4, 1 2))")
  {
    var b := ViewBatch(COORDS, 4, 2);
    ViewRows(COORDS, 4, 2);
    FlattenOne(b);
    ListXY();
    var list := "(1 2, 2 3" + ", 3 4, 1 2)";
    assert CoordListText(Flatten([b])) == list;
    assert RingTexts([[b]]) == [list];
    assert Parenthesized([list]) == "(" + list + ")";
    assert GeomText(PolygonFeature().geom) == "POLYGON" + "" + " " + ("(" + list + ")");
    assert "POLYGON" + "" + " " == "POLYGON " && "POLYGON " + "(" == "POLYGON (";
    Enclose("POLYGON ", "(", "(1 2, 2 3", ", 3 4, 1 2)", ")");
    PolygonLiteral();
  }

  lemma PolygonLiteral()
    ensures "POLYGON (" + "(1 2, 2 3" + ", 3 4, 1 2)" + ")" == "POLYGON ((1 2, 2 3, 3 4, 1 2))"
  {
  }

  lemma Enclose(p: string, o: string, l: string, r: string, c: string)
    ensures p + (o + (l + r) + c) == p + o + l + r + c
  {
  }

  lemma PolygonScenario()
    ensures var es := StreamEvents([PolygonFeature()]);
      && Finished(es).Some?
      && var col := Finished(es).value;
      && ColumnValid(col) && col.length == 1 && col.nullCount == 0
      && Entry(col, 0) == Some("POLYGON ((1 2, 2 3, 3 4, 1 2))")
  {
    var fs := [PolygonFeature()];
    NoNulls(fs);
    assert WellFormedFeature(fs[0]) by {
      var b := ViewBatch(COORDS, 4, 2);
      assert ValidBatches([b]);
    }
    FinishedStream(fs);
    PolygonText();
  }

  // -----------------------------------------------------------------------
  // Calls out of order

  /** The writer just after feat_start, geom_start(k, XY). */
  lemma OpenGeometry(k: GeometryType) returns (s: WriterState)
    ensures Run(Initial, [FeatStart, GeomStart(k, XY)]) == Success(s)
    ensures ControlOf(s) == Control(Opened, [GeomScope(k)])
  {
    var s1 := Initial.(phase := Opened);
    assert Step(Initial, FeatStart) == Success(s1);
    s := Started(s1, k, XY);
    assert ScopesOf(s.frames) == [GeomScope(k)];
    assert Step(s1, GeomStart(k, XY)) == Success(s);
    assert Run(s1, [GeomStart(k, XY)]) == Success(s);
    RunChain(Initial, [FeatStart], [GeomStart(k, XY)], s1, s);
    assert [FeatStart] + [GeomStart(k, XY)] == [FeatStart, GeomStart(k, XY)];
  }

  /** After feat_start, geom_start(k, XY), the event e is refused when the
      protocol refuses it there. */
  lemma RefusedInGeometry(k: GeometryType, e: Event)
    requires Advance(Control(Opened, [GeomScope(k)]), e).None?
    ensures Run(Initial, [FeatStart, GeomStart(k, XY), e]) == Failure(EINVAL)
  {
    var s := OpenGeometry(k);
    assert Run(s, [e]) == Failure(EINVAL);
    RunAppend(Initial, [FeatStart, GeomStart(k, XY)], [e]);
    assert [FeatStart, GeomStart(k, XY)] + [e] == [FeatStart, GeomStart(k, XY), e];
  }

  /** ring_end with no ring open is refused with EINVAL. */
  lemma RingEndWithoutRing(k: GeometryType)
    ensures Run(Initial, [FeatStart, GeomStart(k, XY), RingEnd]) == Failure(EINVAL)
  {
    RefusedInGeometry(k, RingEnd);
  }

  /** Coordinates directly inside a polygon, outside any ring, are refused. */
  lemma CoordsOutsideRing(b: Batch)
    ensures Run(Initial, [FeatStart, GeomStart(Polygon, XY), Coords(b)]) == Failure(EINVAL)
  {
    RefusedInGeometry(Polygon, Coords(b));
  }

  /** A ring is refused anywhere but directly inside a polygon. */
  lemma RingOutsidePolygon(k: GeometryType)
    requires k != Polygon
    ensures Run(Initial, [FeatStart, GeomStart(k, XY), RingStart]) == Failure(EINVAL)
  {
    RefusedInGeometry(k, RingStart);
  }

  /** feat_end with no feature open, and a feature left open at Finish, are
      both refused. */
  lemma FeatureNotOpen()
    ensures Run(Initial, [FeatEnd]) == Failure(EINVAL)
    ensures Run(Initial, [FeatStart]).Success?
    ensures FinishState(Run(Initial, [FeatStart]).value) == Failure(EINVAL)
  {
  }
}
