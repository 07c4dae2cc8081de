/** The writer tests as the call sequences they are: a fresh Writer, the
    callbacks in the tests' order (each shown to return OK while a run of
    events known to succeed is being played), then Finish. Each session's
    column is stated entry by entry, as the tests check it. */
module WktWriterSessions {
  import opened Wrappers
  import opened GeoArrowTypes
  import opened Visitor
  import opened WktText
  import opened WktWriter
  import opened WktWriterObject
  import opened WktWriterScenarios
  import CoordViews

  /** A callback made while a run of events starting with its own event is
      known to succeed returns OK, and the rest of the run succeeds from the
      state it leaves. */
  lemma Consume(s: WriterState, e: Event, rest: seq<Event>, target: WriterState, status: int, after: WriterState)
    requires Run(s, [e] + rest) == Success(target)
    requires Follows(s, e, status, after)
    ensures status == GEOARROW_OK
    ensures Run(after, rest) == Success(target)
  {
    assert ([e] + rest)[0] == e;
    assert ([e] + rest)[1..] == rest;
  }

  /** n statuses, every one GEOARROW_OK. */
  predicate AllOk(statuses: seq<int>, n: nat)
  {
    |statuses| == n && forall i :: 0 <= i < |statuses| ==> statuses[i] == GEOARROW_OK
  }

  lemma AllOkOne(status: int)
    requires status == GEOARROW_OK
    ensures AllOk([status], 1)
  {
  }

  lemma AllOkAppend(a: seq<int>, n: nat, b: seq<int>, m: nat)
    requires AllOk(a, n) && AllOk(b, m)
    ensures AllOk(a + b, n + m)
  {
  }

  /** The state of a fresh writer once the features fs have been written:
      each sealed in turn. */
  ghost function Holding(fs: seq<Feature>): (s: WriterState)
    ensures s.phase == Outside && s.frames == []
    decreases |fs|
  {
    if fs == [] then Initial else Sealed(Holding(fs[..|fs| - 1]), fs[|fs| - 1])
  }

  /** That state holds the entries of fs. */
  lemma {:induction false} HoldingRepresents(fs: seq<Feature>)
    ensures Represents(Holding(fs), fs)
    decreases |fs|
  {
    if fs != [] {
      HoldingRepresents(fs[..|fs| - 1]);
      RepresentsSealed(Holding(fs[..|fs| - 1]), fs);
    }
  }

  /** The writer has written the features fs and stands between features. */
  ghost predicate Holds(w: Writer, fs: seq<Feature>)
    reads w
  {
    w.State() == Holding(fs)
  }

  /** The state a feature's calls must reach: the writer's state with f
      sealed; the writer's invariant holds on the way. */
  lemma Target(w: Writer, fs: seq<Feature>, f: Feature)
    requires Holds(w, fs) && WellFormedFeature(f)
    ensures w.Valid()
    ensures Run(w.State(), FeatureEvents(f)) == Success(Sealed(w.State(), f))
  {
    HoldingRepresents(fs);
    RepresentsConsistent(w.State(), fs);
    FeatureRun(w.State(), f);
  }

  /** Once the calls of f have all been made, the writer holds fs + [f]. */
  lemma Reached(w: Writer, fs: seq<Feature>, f: Feature, s0: WriterState)
    requires Run(w.State(), []) == Success(Sealed(s0, f))
    requires s0 == Holding(fs)
    ensures Holds(w, fs + [f])
  {
    assert (fs + [f])[..|fs|] == fs;
  }

  // -----------------------------------------------------------------------
  // One callback each

  /** The writer is part way through a run of events known to reach target;
      rest is what remains of it. */
  ghost predicate Pending(w: Writer, rest: seq<Event>, target: WriterState)
    reads w
  {
    w.Valid() && Run(w.State(), rest) == Success(target)
  }

  /** feat_start, as the next event of the run. */
  method TakeFeatStart(w: Writer, ghost rest: seq<Event>, ghost target: WriterState) returns (status: int)
    requires Pending(w, [Event.FeatStart] + rest, target)
    modifies w
    ensures Pending(w, rest, target)
    ensures status == GEOARROW_OK
  {
    ghost var s := w.State();
    status := w.FeatStart();
    Consume(s, Event.FeatStart, rest, target, status, w.State());
  }

  /** null_feat, as the next event of the run. */
  method TakeNullFeat(w: Writer, ghost rest: seq<Event>, ghost target: WriterState) returns (status: int)
    requires Pending(w, [Event.NullFeat] + rest, target)
    modifies w
    ensures Pending(w, rest, target)
    ensures status == GEOARROW_OK
  {
    ghost var s := w.State();
    status := w.NullFeat();
    Consume(s, Event.NullFeat, rest, target, status, w.State());
  }

  /** geom_start, as the next event of the run. */
  method TakeGeomStart(w: Writer, g: GeometryType, d: Dimensions, ghost rest: seq<Event>, ghost target: WriterState) returns (status: int)
    requires Pending(w, [Event.GeomStart(g, d)] + rest, target)
    modifies w
    ensures Pending(w, rest, target)
    ensures status == GEOARROW_OK
  {
    ghost var s := w.State();
    status := w.GeomStart(g, d);
    Consume(s, Event.GeomStart(g, d), rest, target, status, w.State());
  }

  /** ring_start, as the next event of the run. */
  method TakeRingStart(w: Writer, ghost rest: seq<Event>, ghost target: WriterState) returns (status: int)
    requires Pending(w, [Event.RingStart] + rest, target)
    modifies w
    ensures Pending(w, rest, target)
    ensures status == GEOARROW_OK
  {
    ghost var s := w.State();
    status := w.RingStart();
    Consume(s, Event.RingStart, rest, target, status, w.State());
  }

  /** coords on a view, as the next event of the run. */
  method TakeCoords(w: Writer, cv: CoordViews.CoordView, ghost rest: seq<Event>, ghost target: WriterState) returns (status: int)
    requires CoordViews.Valid(cv) && Pending(w, [Event.Coords(CoordViews.Tuples(cv))] + rest, target)
    modifies w
    ensures Pending(w, rest, target)
    ensures status == GEOARROW_OK
  {
    ghost var s := w.State();
    ViewIsBatch(cv);
    status := w.Coords(cv);
    Consume(s, Event.Coords(CoordViews.Tuples(cv)), rest, target, status, w.State());
  }

  /** ring_end, as the next event of the run. */
  method TakeRingEnd(w: Writer, ghost rest: seq<Event>, ghost target: WriterState) returns (status: int)
    requires Pending(w, [Event.RingEnd] + rest, target)
    modifies w
    ensures Pending(w, rest, target)
    ensures status == GEOARROW_OK
  {
    ghost var s := w.State();
    status := w.RingEnd();
    Consume(s, Event.RingEnd, rest, target, status, w.State());
  }

  /** geom_end, as the next event of the run. */
  method TakeGeomEnd(w: Writer, ghost rest: seq<Event>, ghost target: WriterState) returns (status: int)
    requires Pending(w, [Event.GeomEnd] + rest, target)
    modifies w
    ensures Pending(w, rest, target)
    ensures status == GEOARROW_OK
  {
    ghost var s := w.State();
    status := w.GeomEnd();
    Consume(s, Event.GeomEnd, rest, target, status, w.State());
  }

  /** feat_end, as the next event of the run. */
  method TakeFeatEnd(w: Writer, ghost rest: seq<Event>, ghost target: WriterState) returns (status: int)
    requires Pending(w, [Event.FeatEnd] + rest, target)
    modifies w
    ensures Pending(w, rest, target)
    ensures status == GEOARROW_OK
  {
    ghost var s := w.State();
    status := w.FeatEnd();
    Consume(s, Event.FeatEnd, rest, target, status, w.State());
  }

  // -----------------------------------------------------------------------
  // Pieces of a feature

  /** feat_start, geom_start(g, d). */
  method Open(w: Writer, g: GeometryType, d: Dimensions, ghost rest: seq<Event>, ghost target: WriterState)
    returns (statuses: seq<int>)
    requires Pending(w, [Event.FeatStart, Event.GeomStart(g, d)] + rest, target)
    modifies w
    ensures Pending(w, rest, target) && AllOk(statuses, 2)
  {
    assert [Event.FeatStart, Event.GeomStart(g, d)] + rest == [Event.FeatStart] + ([Event.GeomStart(g, d)] + rest);
    var s1 := TakeFeatStart(w, [Event.GeomStart(g, d)] + rest, target);
    var s2 := TakeGeomStart(w, g, d, rest, target);
    AllOkOne(s1); AllOkOne(s2);
    statuses := [s1] + [s2];
    AllOkAppend([s1], 1, [s2], 1);
  }

  /** geom_end, feat_end. */
  method Close(w: Writer, ghost target: WriterState) returns (statuses: seq<int>)
    requires Pending(w, [Event.GeomEnd, Event.FeatEnd], target)
    modifies w
    ensures w.Valid() && w.State() == target && AllOk(statuses, 2)
  {
    assert [Event.GeomEnd, Event.FeatEnd] == [Event.GeomEnd] + ([Event.FeatEnd] + []);
    var s1 := TakeGeomEnd(w, [Event.FeatEnd] + [], target);
    var s2 := TakeFeatEnd(w, [], target);
    AllOkOne(s1); AllOkOne(s2);
    statuses := [s1] + [s2];
    AllOkAppend([s1], 1, [s2], 1);
  }

  /** feat_start, null_feat, feat_end: the calls of a null feature. */
  method TakeNull(w: Writer, ghost target: WriterState) returns (statuses: seq<int>)
    requires Pending(w, [Event.FeatStart, Event.NullFeat, Event.FeatEnd], target)
    modifies w
    ensures w.Valid() && w.State() == target && AllOk(statuses, 3)
  {
    assert [Event.FeatStart, Event.NullFeat, Event.FeatEnd] == [Event.FeatStart] + ([Event.NullFeat] + ([Event.FeatEnd] + []));
    var s1 := TakeFeatStart(w, [Event.NullFeat] + ([Event.FeatEnd] + []), target);
    var s2 := TakeNullFeat(w, [Event.FeatEnd] + [], target);
    var s3 := TakeFeatEnd(w, [], target);
    AllOkOne(s1); AllOkOne(s2); AllOkOne(s3);
    AllOkAppend([s1], 1, [s2], 1);
    AllOkAppend([s1] + [s2], 2, [s3], 1);
    statuses := [s1] + [s2] + [s3];
  }

  /** ring_start, coords, ring_end: one ring of a polygon. */
  method PlayRing(w: Writer, cv: CoordViews.CoordView, ghost rest: seq<Event>, ghost target: WriterState)
    returns (statuses: seq<int>)
    requires CoordViews.Valid(cv)
    requires Pending(w, [Event.RingStart, Event.Coords(CoordViews.Tuples(cv)), Event.RingEnd] + rest, target)
    modifies w
    ensures Pending(w, rest, target) && AllOk(statuses, 3)
  {
    ghost var b := CoordViews.Tuples(cv);
    assert [Event.RingStart, Event.Coords(b), Event.RingEnd] + rest
        == [Event.RingStart] + ([Event.Coords(b)] + ([Event.RingEnd] + rest));
    var s1 := TakeRingStart(w, [Event.Coords(b)] + ([Event.RingEnd] + rest), target);
    var s2 := TakeCoords(w, cv, [Event.RingEnd] + rest, target);
    var s3 := TakeRingEnd(w, rest, target);
    AllOkOne(s1); AllOkOne(s2); AllOkOne(s3);
    AllOkAppend([s1], 1, [s2], 1);
    AllOkAppend([s1] + [s2], 2, [s3], 1);
    statuses := [s1] + [s2] + [s3];
  }

  /** The events of a point or linestring read from one coords call. */
  lemma CoordFeatureEvents(g: GeometryType, d: Dimensions, b: Batch)
    ensures FeatureEvents(GeomFeature(Geom(g, d, CoordBody([b]))))
         == [Event.FeatStart, Event.GeomStart(g, d)] + ([Event.Coords(b)] + [Event.GeomEnd, Event.FeatEnd])
  {
    assert CoordsEvents([b]) == [Event.Coords(b)] + CoordsEvents([]);
  }

  /** The events of a polygon with one ring read from one coords call. */
  lemma RingFeatureEvents(d: Dimensions, b: Batch)
    ensures FeatureEvents(GeomFeature(Geom(Polygon, d, RingBody([[b]]))))
         == [Event.FeatStart, Event.GeomStart(Polygon, d)]
            + ([Event.RingStart, Event.Coords(b), Event.RingEnd] + [Event.GeomEnd, Event.FeatEnd])
  {
    assert CoordsEvents([b]) == [Event.Coords(b)] + CoordsEvents([]);
    assert RingsEvents([[b]]) == RingEvents([b]) + RingsEvents([]);
  }

  // -----------------------------------------------------------------------
  // Whole features

  /** feat_start, null_feat, feat_end. */
  method PlayNull(w: Writer, ghost fs: seq<Feature>) returns (statuses: seq<int>)
    requires Holds(w, fs)
    modifies w
    ensures Holds(w, fs + [NullFeature]) && AllOk(statuses, 3)
  {
    ghost var s0 := w.State();
    ghost var target := Sealed(s0, NullFeature);
    Target(w, fs, NullFeature);
    assert FeatureEvents(NullFeature) == [Event.FeatStart, Event.NullFeat, Event.FeatEnd];
    statuses := TakeNull(w, target);
    Reached(w, fs, NullFeature, s0);
  }

  /** An empty geometry: feat_start, geom_start, geom_end, feat_end. */
  method PlayEmpty(w: Writer, ghost fs: seq<Feature>, g: GeometryType, d: Dimensions) returns (statuses: seq<int>)
    requires Holds(w, fs)
    modifies w
    ensures Holds(w, fs + [GeomFeature(Geom(g, d, EmptyBody))]) && AllOk(statuses, 4)
  {
    ghost var f := GeomFeature(Geom(g, d, EmptyBody));
    ghost var s0 := w.State();
    ghost var target := Sealed(s0, f);
    Target(w, fs, f);
    assert FeatureEvents(f) == [Event.FeatStart, Event.GeomStart(g, d)] + [Event.GeomEnd, Event.FeatEnd];
    var openOk := Open(w, g, d, [Event.GeomEnd, Event.FeatEnd], target);
    var closeOk := Close(w, target);
    statuses := openOk + closeOk;
    AllOkAppend(openOk, 2, closeOk, 2);
    Reached(w, fs, f, s0);
  }

  /** A point or linestring with one coords call. */
  method PlayCoords(w: Writer, ghost fs: seq<Feature>, g: GeometryType, d: Dimensions, cv: CoordViews.CoordView)
    returns (statuses: seq<int>)
    requires Holds(w, fs) && (g == Point || g == LineString)
    requires CoordViews.Valid(cv)
    modifies w
    ensures Holds(w, fs + [GeomFeature(Geom(g, d, CoordBody([CoordViews.Tuples(cv)])))])
    ensures AllOk(statuses, 5)
  {
    ghost var b := CoordViews.Tuples(cv);
    ghost var f := GeomFeature(Geom(g, d, CoordBody([b])));
    ghost var s0 := w.State();
    ghost var target := Sealed(s0, f);
    ViewIsBatch(cv);
    Target(w, fs, f);
    ghost var tail := [Event.GeomEnd, Event.FeatEnd];
    CoordFeatureEvents(g, d, b);
    var openOk := Open(w, g, d, [Event.Coords(b)] + tail, target);
    var status := TakeCoords(w, cv, tail, target);
    var closeOk := Close(w, target);
    AllOkOne(status);
    AllOkAppend(openOk, 2, [status], 1);
    AllOkAppend(openOk + [status], 3, closeOk, 2);
    statuses := openOk + [status] + closeOk;
    Reached(w, fs, f, s0);
  }

  /** A polygon with one ring read from one coords call. */
  method PlayPolygon(w: Writer, ghost fs: seq<Feature>, d: Dimensions, cv: CoordViews.CoordView)
    returns (statuses: seq<int>)
    requires Holds(w, fs)
    requires CoordViews.Valid(cv)
    modifies w
    ensures Holds(w, fs + [GeomFeature(Geom(Polygon, d, RingBody([[CoordViews.Tuples(cv)]])))])
    ensures AllOk(statuses, 7)
  {
    ghost var b := CoordViews.Tuples(cv);
    ghost var f := GeomFeature(Geom(Polygon, d, RingBody([[b]])));
    ghost var s0 := w.State();
    ghost var target := Sealed(s0, f);
    ViewIsBatch(cv);
    Target(w, fs, f);
    ghost var ring := [Event.RingStart, Event.Coords(b), Event.RingEnd];
    ghost var tail := [Event.GeomEnd, Event.FeatEnd];
    RingFeatureEvents(d, b);
    var openOk := Open(w, Polygon, d, ring + tail, target);
    var played := PlayRing(w, cv, tail, target);
    var closeOk := Close(w, target);
    AllOkAppend(openOk, 2, played, 3);
    AllOkAppend(openOk + played, 5, closeOk, 2);
    statuses := openOk + played + closeOk;
    Reached(w, fs, f, s0);
  }

  // -----------------------------------------------------------------------
  // Sessions

  method NewWriter() returns (w: Writer)
    ensures fresh(w) && Holds(w, []) && w.State() == Initial
  {
    w := new Writer();
  }

  /** GeoArrowWKTWriterFinish on a writer that holds fs: OK, and the column
      of fs, the writer reset for reuse. */
  method Drain(w: Writer, ghost fs: seq<Feature>) returns (status: int, col: Column)
    requires Holds(w, fs)
    modifies w
    ensures status == GEOARROW_OK
    ensures ColumnValid(col) && col.length == |fs| && col.nullCount == CountNulls(fs)
    ensures col.validity.None? <==> CountNulls(fs) == 0
    ensures forall i :: 0 <= i < |fs| ==> Entry(col, i) == FeatureWkt(fs[i])
    ensures w.Valid() && w.State() == Initial
  {
    HoldingRepresents(fs);
    RepresentsConsistent(w.State(), fs);
    FinishRepresents(w.State(), fs);
    var r;
    status, r := w.Finish();
    col := r.value;
  }

  /** The one-null test: feat_start, null_feat, feat_end, then Finish;
      every call returns OK. */
  method OneNullSession() returns (statuses: seq<int>, col: Column)
    ensures AllOk(statuses, 4)
    ensures ColumnValid(col) && col.length == 1 && col.nullCount == 1 && IsNull(col, 0)
  {
    var w := NewWriter();
    var played := PlayNull(w, []);
    var status;
    status, col := Drain(w, [] + [NullFeature]);
    AllOkOne(status);
    AllOkAppend(played, 3, [status], 1);
    statuses := played + [status];
    assert CountNulls([] + [NullFeature]) == 1;
    assert Entry(col, 0) == None;
  }

  /** The valid-then-null test: an empty point, then a null feature. */
  method OneValidOneNullSession() returns (statuses: seq<int>, col: Column)
    ensures AllOk(statuses, 8)
    ensures ColumnValid(col) && col.length == 2 && col.nullCount == 1
    ensures !IsNull(col, 0) && IsNull(col, 1)
    ensures Entry(col, 0) == Some("POINT EMPTY")
  {
    ghost var point := GeomFeature(Geom(Point, XY, EmptyBody));
    var w := NewWriter();
    var first := PlayEmpty(w, [], Point, XY);
    var second := PlayNull(w, [] + [point]);
    ghost var fs := [point, NullFeature];
    assert [] + [point] + [NullFeature] == fs;
    var status;
    status, col := Drain(w, fs);
    AllOkOne(status);
    AllOkAppend(first, 4, second, 3);
    AllOkAppend(first + second, 7, [status], 1);
    statuses := first + second + [status];
    ValidThenNull();
    assert Entry(col, 0) == FeatureWkt(fs[0]) && Entry(col, 1) == FeatureWkt(fs[1]);
  }

  /** One test feature: coords on a separate view over the first k arrays. */
  method PlayTest(w: Writer, ghost fs: seq<Feature>, g: GeometryType, d: Dimensions,
                  cols: seq<seq<int>>, n: int, k: int) returns (statuses: seq<int>)
    requires Holds(w, fs) && (g == Point || g == LineString)
    requires 1 <= k <= |cols| && k <= CoordViews.MAX_VALUES && 0 <= n
    requires forall col :: 0 <= col < k ==> n <= |cols[col]|
    modifies w
    ensures Holds(w, fs + [TestFeature(g, d, cols, n, k)]) && AllOk(statuses, 5)
  {
    statuses := PlayCoords(w, fs, g, d, CoordViews.Separate(cols[..k], n));
  }

  /** The four test features of kind g with n coordinates each, one per
      dimension, on a fresh writer. */
  method PlayFourDims(g: GeometryType, n: int) returns (w: Writer, statuses: seq<int>)
    requires (g == Point || g == LineString) && 0 <= n <= 4
    ensures fresh(w)
    ensures Holds(w, [TestFeature(g, XY, COORDS, n, 2), TestFeature(g, XYZ, COORDS, n, 3),
                      TestFeature(g, XYM, COORDS_M, n, 3), TestFeature(g, XYZM, COORDS, n, 4)])
    ensures AllOk(statuses, 20)
  {
    w := NewWriter();
    var firstOk := PlayFirstDims(w, g, n);
    ghost var first := [TestFeature(g, XY, COORDS, n, 2), TestFeature(g, XYZ, COORDS, n, 3)];
    ghost var last := [TestFeature(g, XYM, COORDS_M, n, 3), TestFeature(g, XYZM, COORDS, n, 4)];
    var lastOk := PlayLastDims(w, first, g, n);
    AllOkAppend(firstOk, 10, lastOk, 10);
    statuses := firstOk + lastOk;
    assert first + last == [first[0], first[1], last[0], last[1]];
  }

  /** The XY and XYZ test features of kind g, on an empty writer. */
  method PlayFirstDims(w: Writer, g: GeometryType, n: int) returns (statuses: seq<int>)
    requires Holds(w, []) && (g == Point || g == LineString) && 0 <= n <= 4
    modifies w
    ensures Holds(w, [TestFeature(g, XY, COORDS, n, 2), TestFeature(g, XYZ, COORDS, n, 3)])
    ensures AllOk(statuses, 10)
  {
    ghost var f0 := TestFeature(g, XY, COORDS, n, 2);
    var s0 := PlayTest(w, [], g, XY, COORDS, n, 2);
    var s1 := PlayTest(w, [] + [f0], g, XYZ, COORDS, n, 3);
    AllOkAppend(s0, 5, s1, 5);
    statuses := s0 + s1;
    assert [] + [f0] + [TestFeature(g, XYZ, COORDS, n, 3)] == [f0, TestFeature(g, XYZ, COORDS, n, 3)];
  }

  /** The XYM and XYZM test features of kind g. */
  method PlayLastDims(w: Writer, ghost fs: seq<Feature>, g: GeometryType, n: int) returns (statuses: seq<int>)
    requires Holds(w, fs) && (g == Point || g == LineString) && 0 <= n <= 4
    modifies w
    ensures Holds(w, fs + [TestFeature(g, XYM, COORDS_M, n, 3), TestFeature(g, XYZM, COORDS, n, 4)])
    ensures AllOk(statuses, 10)
  {
    ghost var f2 := TestFeature(g, XYM, COORDS_M, n, 3);
    var s2 := PlayTest(w, fs, g, XYM, COORDS_M, n, 3);
    var s3 := PlayTest(w, fs + [f2], g, XYZM, COORDS, n, 4);
    AllOkAppend(s2, 5, s3, 5);
    statuses := s2 + s3;
    assert fs + [f2] + [TestFeature(g, XYZM, COORDS, n, 4)] == fs + [f2, TestFeature(g, XYZM, COORDS, n, 4)];
  }

  /** The empty geometries of kind g, one per dimension, on a fresh writer. */
  method PlayEmptyDims(g: GeometryType) returns (w: Writer, statuses: seq<int>)
    ensures fresh(w)
    ensures Holds(w, EmptyFeatures(g)) && AllOk(statuses, 16)
  {
    ghost var fs := EmptyFeatures(g);
    w := NewWriter();
    var s0 := PlayEmpty(w, [], g, XY);
    var s1 := PlayEmpty(w, [] + [fs[0]], g, XYZ);
    assert [] + [fs[0]] + [fs[1]] == fs[..2];
    var s2 := PlayEmpty(w, fs[..2], g, XYM);
    var s3 := PlayEmpty(w, fs[..2] + [fs[2]], g, XYZM);
    AllOkAppend(s0, 4, s1, 4);
    AllOkAppend(s0 + s1, 8, s2, 4);
    AllOkAppend(s0 + s1 + s2, 12, s3, 4);
    statuses := s0 + s1 + s2 + s3;
    assert fs[..2] + [fs[2]] + [fs[3]] == fs;
  }

  /** The empty-geometry test for kind g: one empty geometry per dimension;
      every call returns OK. */
  method EmptySession(g: GeometryType) returns (statuses: seq<int>, col: Column)
    ensures AllOk(statuses, 17)
    ensures ColumnValid(col) && col.length == 4 && col.nullCount == 0 && col.validity.None?
    ensures Entry(col, 0) == Some(WktEmpty(g, XY))
    ensures Entry(col, 1) == Some(WktEmpty(g, XYZ))
    ensures Entry(col, 2) == Some(WktEmpty(g, XYM))
    ensures Entry(col, 3) == Some(WktEmpty(g, XYZM))
  {
    var w, played := PlayEmptyDims(g);
    var status;
    status, col := Drain(w, EmptyFeatures(g));
    AllOkOne(status);
    AllOkAppend(played, 16, [status], 1);
    statuses := played + [status];
    NoNulls(EmptyFeatures(g));
    EmptyGeomText(g, XY);
    EmptyGeomText(g, XYZ);
    EmptyGeomText(g, XYM);
    EmptyGeomText(g, XYZM);
  }

  /** The point test: one point per dimension, read from separate arrays;
      every call returns OK. */
  method PointSession() returns (statuses: seq<int>, col: Column)
    ensures AllOk(statuses, 21)
    ensures ColumnValid(col) && col.length == 4 && col.nullCount == 0
    ensures Entry(col, 0) == Some("POINT (1 2)")
    ensures Entry(col, 1) == Some("POINT Z (1 2 3)")
    ensures Entry(col, 2) == Some("POINT M (1 2 4)")
    ensures Entry(col, 3) == Some("POINT ZM (1 2 3 4)")
  {
    var w, played := PlayFourDims(Point, 1);
    var status;
    status, col := Drain(w, PointFeatures());
    AllOkOne(status);
    AllOkAppend(played, 20, [status], 1);
    statuses := played + [status];
    NoNulls(PointFeatures());
    PointXY(); PointXYZ(); PointXYM(); PointXYZM();
  }

  /** The linestring test: four coordinates per dimension; every call
      returns OK. */
  method LineStringSession() returns (statuses: seq<int>, col: Column)
    ensures AllOk(statuses, 21)
    ensures ColumnValid(col) && col.length == 4 && col.nullCount == 0
    ensures Entry(col, 0) == Some("LINESTRING (1 2, 2 3, 3 4, 1 2)")
    ensures Entry(col, 1) == Some("LINESTRING Z (1 2 3, 2 3 4, 3 4 5, 1 2 3)")
    ensures Entry(col, 2) == Some("LINESTRING M (1 2 4, 2 3 5, 3 4 6, 1 2 4)")
    ensures Entry(col, 3) == Some("LINESTRING ZM (1 2 3 4, 2 3 4 5, 3 4 5 6, 1 2 3 4)")
  {
    var w, played := PlayFourDims(LineString, 4);
    var status;
    status, col := Drain(w, LineStringFeatures());
    AllOkOne(status);
    AllOkAppend(played, 20, [status], 1);
    statuses := played + [status];
    NoNulls(LineStringFeatures());
    LineStringXY(); LineStringXYZ(); LineStringXYM(); LineStringXYZM();
  }

  /** The polygon test: one ring read from the X and Y arrays; every call
      returns OK. */
  method PolygonSession() returns (statuses: seq<int>, col: Column)
    ensures AllOk(statuses, 8)
    ensures ColumnValid(col) && col.length == 1 && col.nullCount == 0
    ensures Entry(col, 0) == Some("POLYGON ((1 2, 2 3, 3 4, 1 2))")
  {
    var w := NewWriter();
    var played := PlayPolygon(w, [], XY, CoordViews.Separate(COORDS[..2], 4));
    var status;
    status, col := Drain(w, [] + [PolygonFeature()]);
    AllOkOne(status);
    AllOkAppend(played, 7, [status], 1);
    statuses := played + [status];
    NoNulls([] + [PolygonFeature()]);
    PolygonText();
  }
}
