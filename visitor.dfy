/** The push-style visitor protocol: the ten GeoArrowVisitor callbacks as
    events, the call order a consumer accepts, and the event stream a
    producer emits for a sequence of features. */
module Visitor {
  import opened Wrappers
  import opened GeoArrowTypes
  import CoordViews

  /** One coordinate: its values in slot order (X, Y, then Z and/or M). */
  type Tuple = seq<int>
  /** The coordinates carried by one coords call. */
  type Batch = seq<Tuple>

  /** The ten callbacks of GeoArrowVisitor, in declaration order. */
  datatype Event =
    | ReserveCoord(n: int)
    | ReserveFeat(n: int)
    | FeatStart
    | NullFeat
    | GeomStart(geometryType: GeometryType, dimensions: Dimensions)
    | RingStart
    | Coords(batch: Batch)
    | RingEnd
    | GeomEnd
    | FeatEnd

  /** A batch is what one coordinate view carries: every coordinate has the
      same number of values, between 1 and 4. */
  predicate ValidBatch(b: Batch)
  {
    forall i :: 0 <= i < |b| ==> 1 <= |b[i]| <= CoordViews.MAX_VALUES && |b[i]| == |b[0]|
  }

  /** The coordinates read out of a valid coordinate view form a valid batch,
      one tuple per coordinate. */
  lemma ViewIsBatch(cv: CoordViews.CoordView)
    requires CoordViews.Valid(cv)
    ensures ValidBatch(CoordViews.Tuples(cv))
    ensures |CoordViews.Tuples(cv)| == cv.nCoords
  {
    CoordViews.TuplesShape(cv);
  }

  // -----------------------------------------------------------------------
  // The call order a consumer accepts

  /** An open geom_start or ring_start. */
  datatype Scope = GeomScope(geometryType: GeometryType) | RingScope

  /** Where the session is relative to the current feature: between features,
      inside one with nothing yet, after null_feat, or after a whole geometry. */
  datatype Phase = Outside | Opened | Nulled | Filled

  datatype Control = Control(phase: Phase, scopes: seq<Scope>)

  /** Coordinates may arrive directly inside a Point or LineString, or inside
      an open ring. */
  predicate TakesCoords(s: Scope)
  {
    s == RingScope || s == GeomScope(Point) || s == GeomScope(LineString)
  }

  /** One step of the protocol: feat_start, then null_feat or one geometry,
      then feat_end; rings only directly inside a Polygon; coordinates only
      where TakesCoords allows; reserve hints anywhere. None is a protocol
      violation. */
  function Advance(c: Control, e: Event): (r: Option<Control>)
    ensures r.Some? && e.FeatEnd? ==> c.phase != Outside && c.phase != Opened && r.value == Control(Outside, [])
  {
    var open := c.phase == Opened && |c.scopes| > 0;
    match e
    case ReserveCoord(_) => Some(c)
    case ReserveFeat(_) => Some(c)
    case FeatStart =>
      if c.phase == Outside then Some(Control(Opened, [])) else None
    case NullFeat =>
      if c.phase == Opened && c.scopes == [] then Some(Control(Nulled, [])) else None
    case GeomStart(_, _) =>
      if c.phase == Opened && c.scopes == []
      then Some(Control(Opened, [GeomScope(e.geometryType)]))
      else None
    case RingStart =>
      if open && c.scopes[|c.scopes| - 1] == GeomScope(Polygon)
      then Some(Control(Opened, c.scopes + [RingScope]))
      else None
    case Coords(b) =>
      if open && TakesCoords(c.scopes[|c.scopes| - 1]) && ValidBatch(b) then Some(c) else None
    case RingEnd =>
      if open && c.scopes[|c.scopes| - 1] == RingScope
      then Some(Control(Opened, c.scopes[..|c.scopes| - 1]))
      else None
    case GeomEnd =>
      if open && c.scopes[|c.scopes| - 1].GeomScope? then
        var rest := c.scopes[..|c.scopes| - 1];
        Some(Control(if rest == [] then Filled else Opened, rest))
      else None
    case FeatEnd =>
      if (c.phase == Nulled || c.phase == Filled) && c.scopes == [] then Some(Control(Outside, [])) else None
  }

  function RunProtocol(c: Control, es: seq<Event>): Option<Control>
    decreases |es|
  {
    if es == [] then Some(c)
    else match Advance(c, es[0])
      case None => None
      case Some(c') => RunProtocol(c', es[1..])
  }

  /** A whole session: it starts and ends between features. */
  predicate WellFormedStream(es: seq<Event>)
  {
    RunProtocol(Control(Outside, []), es) == Some(Control(Outside, []))
  }

  lemma {:induction false} RunProtocolAppend(c: Control, a: seq<Event>, b: seq<Event>)
    ensures RunProtocol(c, a + b) ==
      match RunProtocol(c, a)
      case None => None
      case Some(c') => RunProtocol(c', b)
    decreases |a|
  {
    if a != [] {
      assert (a + b)[0] == a[0] && (a + b)[1..] == a[1..] + b;
      match Advance(c, a[0])
      case None =>
      case Some(c') => RunProtocolAppend(c', a[1..], b);
    } else {
      assert a + b == b;
    }
  }

  // -----------------------------------------------------------------------
  // What a producer emits

  /** The content of a geometry, as the events that carry it: nothing (an
      empty geometry), coordinate batches, or rings of coordinate batches. */
  datatype Body = EmptyBody | CoordBody(batches: seq<Batch>) | RingBody(rings: seq<seq<Batch>>)

  datatype Geom = Geom(geometryType: GeometryType, dimensions: Dimensions, body: Body)

  datatype Feature = NullFeature | GeomFeature(geom: Geom)

  predicate ValidBatches(bs: seq<Batch>)
  {
    forall i :: 0 <= i < |bs| ==> ValidBatch(bs[i])
  }

  /** The geometries whose output the WKT writer fixes: any kind when empty,
      Point and LineString with coordinates, Polygon with rings. */
  predicate WellFormedGeom(g: Geom)
  {
    match g.body
    case EmptyBody => true
    case CoordBody(bs) => (g.geometryType == Point || g.geometryType == LineString) && ValidBatches(bs)
    case RingBody(rs) => g.geometryType == Polygon && forall i :: 0 <= i < |rs| ==> ValidBatches(rs[i])
  }

  predicate WellFormedFeature(f: Feature)
  {
    f.GeomFeature? ==> WellFormedGeom(f.geom)
  }

  predicate WellFormedFeatures(fs: seq<Feature>)
  {
    forall i :: 0 <= i < |fs| ==> WellFormedFeature(fs[i])
  }

  function CoordsEvents(bs: seq<Batch>): seq<Event>
  {
    if bs == [] then [] else [Coords(bs[0])] + CoordsEvents(bs[1..])
  }

  function RingEvents(r: seq<Batch>): seq<Event>
  {
    [RingStart] + CoordsEvents(r) + [RingEnd]
  }

  function RingsEvents(rs: seq<seq<Batch>>): seq<Event>
  {
    if rs == [] then [] else RingEvents(rs[0]) + RingsEvents(rs[1..])
  }

  function BodyEvents(b: Body): seq<Event>
  {
    match b
    case EmptyBody => []
    case CoordBody(bs) => CoordsEvents(bs)
    case RingBody(rs) => RingsEvents(rs)
  }

  function GeomEvents(g: Geom): seq<Event>
  {
    [GeomStart(g.geometryType, g.dimensions)] + BodyEvents(g.body) + [GeomEnd]
  }

  function FeatureEvents(f: Feature): seq<Event>
  {
    match f
    case NullFeature => [FeatStart, NullFeat, FeatEnd]
    case GeomFeature(g) => [FeatStart] + GeomEvents(g) + [FeatEnd]
  }

  function StreamEvents(fs: seq<Feature>): seq<Event>
  {
    if fs == [] then [] else FeatureEvents(fs[0]) + StreamEvents(fs[1..])
  }

  // -----------------------------------------------------------------------
  // Producers emit well-formed streams

  lemma {:induction false} CoordsEventsAccepted(c: Control, bs: seq<Batch>)
    requires c.phase == Opened && |c.scopes| > 0 && TakesCoords(c.scopes[|c.scopes| - 1])
    requires ValidBatches(bs)
    ensures RunProtocol(c, CoordsEvents(bs)) == Some(c)
    decreases |bs|
  {
    if bs != [] {
      RunProtocolAppend(c, [Coords(bs[0])], CoordsEvents(bs[1..]));
      CoordsEventsAccepted(c, bs[1..]);
    }
  }

  lemma {:induction false} RingsEventsAccepted(rs: seq<seq<Batch>>)
    requires forall i :: 0 <= i < |rs| ==> ValidBatches(rs[i])
    ensures RunProtocol(Control(Opened, [GeomScope(Polygon)]), RingsEvents(rs))
         == Some(Control(Opened, [GeomScope(Polygon)]))
    decreases |rs|
  {
    if rs != [] {
      var c := Control(Opened, [GeomScope(Polygon)]);
      var inRing := Control(Opened, [GeomScope(Polygon), RingScope]);
      RunProtocolAppend(c, RingEvents(rs[0]), RingsEvents(rs[1..]));
      RunProtocolAppend(c, [RingStart] + CoordsEvents(rs[0]), [RingEnd]);
      RunProtocolAppend(c, [RingStart], CoordsEvents(rs[0]));
      assert c.scopes + [RingScope] == inRing.scopes;
      assert Advance(c, RingStart) == Some(inRing);
      assert [RingStart][1..] == [];
      assert RunProtocol(c, [RingStart]) == Some(inRing);
      CoordsEventsAccepted(inRing, rs[0]);
      assert RunProtocol(c, [RingStart] + CoordsEvents(rs[0])) == Some(inRing);
      assert inRing.scopes[..1] == [GeomScope(Polygon)];
      assert RunProtocol(inRing, [RingEnd]) == Some(c);
      assert RunProtocol(c, RingEvents(rs[0])) == Some(c);
      RingsEventsAccepted(rs[1..]);
    }
  }

  lemma {:induction false} GeomEventsAccepted(g: Geom)
    requires WellFormedGeom(g)
    ensures RunProtocol(Control(Opened, []), GeomEvents(g)) == Some(Control(Filled, []))
  {
    var c0 := Control(Opened, []);
    var c := Control(Opened, [GeomScope(g.geometryType)]);
    RunProtocolAppend(c0, [GeomStart(g.geometryType, g.dimensions)] + BodyEvents(g.body), [GeomEnd]);
    RunProtocolAppend(c0, [GeomStart(g.geometryType, g.dimensions)], BodyEvents(g.body));
    match g.body
    case EmptyBody =>
    case CoordBody(bs) => CoordsEventsAccepted(c, bs);
    case RingBody(rs) => RingsEventsAccepted(rs);
    assert RunProtocol(c, [GeomEnd]) == Some(Control(Filled, []));
  }

  lemma {:induction false} FeatureEventsAccepted(f: Feature)
    requires WellFormedFeature(f)
    ensures RunProtocol(Control(Outside, []), FeatureEvents(f)) == Some(Control(Outside, []))
  {
    var c0 := Control(Outside, []);
    match f
    case NullFeature =>
      var es := FeatureEvents(f);
      assert es[1..] == [NullFeat, FeatEnd] && es[1..][1..] == [FeatEnd];
      assert RunProtocol(Control(Nulled, []), [FeatEnd]) == Some(c0);
    case GeomFeature(g) =>
      RunProtocolAppend(c0, [FeatStart] + GeomEvents(g), [FeatEnd]);
      RunProtocolAppend(c0, [FeatStart], GeomEvents(g));
      GeomEventsAccepted(g);
  }

  /** The events emitted for any sequence of well-formed features form a
      well-formed session. */
  lemma {:induction false} StreamWellFormed(fs: seq<Feature>)
    requires WellFormedFeatures(fs)
    ensures WellFormedStream(StreamEvents(fs))
    decreases |fs|
  {
    if fs != [] {
      RunProtocolAppend(Control(Outside, []), FeatureEvents(fs[0]), StreamEvents(fs[1..]));
      FeatureEventsAccepted(fs[0]);
      StreamWellFormed(fs[1..]);
    }
  }

  lemma {:induction false} StreamEventsSnoc(fs: seq<Feature>, f: Feature)
    ensures StreamEvents(fs + [f]) == StreamEvents(fs) + FeatureEvents(f)
    decreases |fs|
  {
    if fs == [] {
      assert [f][1..] == [];
      assert StreamEvents([f]) == FeatureEvents(f) + StreamEvents([]);
    } else {
      assert (fs + [f])[0] == fs[0] && (fs + [f])[1..] == fs[1..] + [f];
      StreamEventsSnoc(fs[1..], f);
    }
  }

  // -----------------------------------------------------------------------
  // Every accepted session is a producer's stream

  predicate IsHint(e: Event)
  {
    e.ReserveCoord? || e.ReserveFeat?
  }

  /** The calls of a session with the reserve hints dropped, in order. */
  function WithoutHints(es: seq<Event>): seq<Event>
  {
    if es == [] then []
    else WithoutHints(es[..|es| - 1]) + (if IsHint(es[|es| - 1]) then [] else [es[|es| - 1]])
  }

  lemma CoordsEventsSnoc(bs: seq<Batch>, b: Batch)
    ensures CoordsEvents(bs + [b]) == CoordsEvents(bs) + [Coords(b)]
    decreases |bs|
  {
    if bs == [] {
      assert [b][1..] == [];
    } else {
      assert (bs + [b])[1..] == bs[1..] + [b];
      CoordsEventsSnoc(bs[1..], b);
    }
  }

  lemma RingsEventsSnoc(rs: seq<seq<Batch>>, r: seq<Batch>)
    ensures RingsEvents(rs + [r]) == RingsEvents(rs) + RingEvents(r)
    decreases |rs|
  {
    if rs == [] {
      assert [r][1..] == [];
    } else {
      assert (rs + [r])[1..] == rs[1..] + [r];
      RingsEventsSnoc(rs[1..], r);
    }
  }

  /** How far the feature being received has got: between features, after
      feat_start, after null_feat, inside a geometry whose content so far is
      g, inside a ring of a polygon (its rings so far and the batches of the
      open ring), or after a complete geometry g. */
  datatype Progress =
    | Between
    | AfterFeatStart
    | AfterNullFeat
    | OpenGeom(g: Geom)
    | OpenRing(dimensions: Dimensions, rings: seq<seq<Batch>>, ring: seq<Batch>)
    | ClosedGeom(g: Geom)

  /** The calls received so far for the pending feature. */
  function ProgressEvents(p: Progress): seq<Event>
  {
    match p
    case Between => []
    case AfterFeatStart => [FeatStart]
    case AfterNullFeat => [FeatStart, NullFeat]
    case OpenGeom(g) => [FeatStart, GeomStart(g.geometryType, g.dimensions)] + BodyEvents(g.body)
    case OpenRing(d, rs, r) => [FeatStart, GeomStart(Polygon, d)] + RingsEvents(rs) + [RingStart] + CoordsEvents(r)
    case ClosedGeom(g) => [FeatStart] + GeomEvents(g)
  }

  /** The protocol position those calls lead to. */
  function ProgressControl(p: Progress): Control
  {
    match p
    case Between => Control(Outside, [])
    case AfterFeatStart => Control(Opened, [])
    case AfterNullFeat => Control(Nulled, [])
    case OpenGeom(g) => Control(Opened, [GeomScope(g.geometryType)])
    case OpenRing(_, _, _) => Control(Opened, [GeomScope(Polygon), RingScope])
    case ClosedGeom(_) => Control(Filled, [])
  }

  predicate ProgressValid(p: Progress)
  {
    match p
    case OpenGeom(g) => WellFormedGeom(g)
    case OpenRing(_, rs, r) => (forall i :: 0 <= i < |rs| ==> ValidBatches(rs[i])) && ValidBatches(r)
    case ClosedGeom(g) => WellFormedGeom(g)
    case _ => true
  }

  /** ring_start inside a polygon opens its next ring. */
  lemma RingStartInGeom(g: Geom) returns (p': Progress)
    requires WellFormedGeom(g) && g.geometryType == Polygon
    ensures ProgressValid(p') && p' != Between
    ensures Advance(ProgressControl(OpenGeom(g)), RingStart) == Some(ProgressControl(p'))
    ensures ProgressEvents(OpenGeom(g)) + [RingStart] == ProgressEvents(p')
  {
    var rs := if g.body.RingBody? then g.body.rings else [];
    p' := OpenRing(g.dimensions, rs, []);
    assert [GeomScope(Polygon)] + [RingScope] == [GeomScope(Polygon), RingScope];
    assert BodyEvents(g.body) == RingsEvents(rs);
  }

  /** coords inside a point or linestring adds one batch to its content. */
  lemma CoordsInGeom(g: Geom, b: Batch) returns (p': Progress)
    requires WellFormedGeom(g) && TakesCoords(GeomScope(g.geometryType)) && ValidBatch(b)
    ensures ProgressValid(p') && p' != Between
    ensures Advance(ProgressControl(OpenGeom(g)), Coords(b)) == Some(ProgressControl(p'))
    ensures ProgressEvents(OpenGeom(g)) + [Coords(b)] == ProgressEvents(p')
  {
    var head := [FeatStart, GeomStart(g.geometryType, g.dimensions)];
    var bs := if g.body.CoordBody? then g.body.batches else [];
    p' := OpenGeom(g.(body := CoordBody(bs + [b])));
    assert BodyEvents(g.body) == CoordsEvents(bs);
    CoordsEventsSnoc(bs, b);
    assert ProgressEvents(p') == head + (CoordsEvents(bs) + [Coords(b)]);
  }

  /** geom_end completes the geometry. */
  lemma GeomEndInGeom(g: Geom) returns (p': Progress)
    requires WellFormedGeom(g)
    ensures ProgressValid(p') && p' != Between
    ensures Advance(ProgressControl(OpenGeom(g)), GeomEnd) == Some(ProgressControl(p'))
    ensures ProgressEvents(OpenGeom(g)) + [GeomEnd] == ProgressEvents(p')
  {
    p' := ClosedGeom(g);
    assert [GeomScope(g.geometryType)][..0] == [];
  }

  /** A call accepted inside a geometry: ring_start opens the polygon's
      next ring, coords adds a batch, geom_end completes the geometry. */
  lemma AdvanceOpenGeom(g: Geom, e: Event) returns (p': Progress)
    requires WellFormedGeom(g) && !IsHint(e)
    requires Advance(ProgressControl(OpenGeom(g)), e).Some?
    ensures ProgressValid(p') && p' != Between
    ensures Advance(ProgressControl(OpenGeom(g)), e) == Some(ProgressControl(p'))
    ensures ProgressEvents(OpenGeom(g)) + [e] == ProgressEvents(p')
  {
    if e.RingStart? {
      p' := RingStartInGeom(g);
    } else if e.Coords? {
      p' := CoordsInGeom(g, e.batch);
    } else {
      assert e.GeomEnd?;
      p' := GeomEndInGeom(g);
    }
  }

  /** coords inside a ring adds one batch to the ring. */
  lemma CoordsInRing(d: Dimensions, rs: seq<seq<Batch>>, r: seq<Batch>, b: Batch) returns (p': Progress)
    requires ProgressValid(OpenRing(d, rs, r)) && ValidBatch(b)
    ensures ProgressValid(p') && p' != Between
    ensures Advance(ProgressControl(OpenRing(d, rs, r)), Coords(b)) == Some(ProgressControl(p'))
    ensures ProgressEvents(OpenRing(d, rs, r)) + [Coords(b)] == ProgressEvents(p')
  {
    p' := OpenRing(d, rs, r + [b]);
    CoordsEventsSnoc(r, b);
  }

  /** ring_end adds the open ring to the polygon. */
  lemma RingEndInRing(d: Dimensions, rs: seq<seq<Batch>>, r: seq<Batch>) returns (p': Progress)
    requires ProgressValid(OpenRing(d, rs, r))
    ensures ProgressValid(p') && p' != Between
    ensures Advance(ProgressControl(OpenRing(d, rs, r)), RingEnd) == Some(ProgressControl(p'))
    ensures ProgressEvents(OpenRing(d, rs, r)) + [RingEnd] == ProgressEvents(p')
  {
    var head := [FeatStart, GeomStart(Polygon, d)];
    p' := OpenGeom(Geom(Polygon, d, RingBody(rs + [r])));
    assert [GeomScope(Polygon), RingScope][..1] == [GeomScope(Polygon)];
    RingsEventsSnoc(rs, r);
    assert ProgressEvents(p') == head + (RingsEvents(rs) + ([RingStart] + CoordsEvents(r) + [RingEnd]));
  }

  /** A call accepted inside a ring: coords adds a batch to the ring,
      ring_end adds the ring to the polygon. */
  lemma AdvanceOpenRing(d: Dimensions, rs: seq<seq<Batch>>, r: seq<Batch>, e: Event) returns (p': Progress)
    requires ProgressValid(OpenRing(d, rs, r)) && !IsHint(e)
    requires Advance(ProgressControl(OpenRing(d, rs, r)), e).Some?
    ensures ProgressValid(p') && p' != Between
    ensures Advance(ProgressControl(OpenRing(d, rs, r)), e) == Some(ProgressControl(p'))
    ensures ProgressEvents(OpenRing(d, rs, r)) + [e] == ProgressEvents(p')
  {
    if e.Coords? {
      p' := CoordsInRing(d, rs, r, e.batch);
    } else {
      assert e.RingEnd?;
      p' := RingEndInRing(d, rs, r);
    }
  }

  /** A call accepted before feat_end extends the pending feature. */
  lemma AdvancePending(p: Progress, e: Event) returns (p': Progress)
    requires ProgressValid(p) && !IsHint(e) && !p.AfterNullFeat? && !p.ClosedGeom?
    requires Advance(ProgressControl(p), e).Some?
    ensures ProgressValid(p')
    ensures Advance(ProgressControl(p), e) == Some(ProgressControl(p'))
    ensures ProgressEvents(p) + [e] == ProgressEvents(p')
  {
    match p
    case Between =>
      p' := AfterFeatStart;
    case AfterFeatStart =>
      if e.NullFeat? {
        p' := AfterNullFeat;
      } else {
        p' := OpenGeom(Geom(e.geometryType, e.dimensions, EmptyBody));
        assert ProgressEvents(p') == [FeatStart, e] + [];
      }
    case OpenGeom(g) =>
      p' := AdvanceOpenGeom(g, e);
    case OpenRing(d, rs, r) =>
      p' := AdvanceOpenRing(d, rs, r, e);
  }

  /** feat_end after null_feat or a whole geometry completes one more
      well-formed feature. */
  lemma CompleteFeature(fs: seq<Feature>, p: Progress, e: Event) returns (fs': seq<Feature>)
    requires WellFormedFeatures(fs) && ProgressValid(p) && (p.AfterNullFeat? || p.ClosedGeom?)
    requires Advance(ProgressControl(p), e).Some? && !IsHint(e)
    ensures WellFormedFeatures(fs')
    ensures Advance(ProgressControl(p), e) == Some(ProgressControl(Between))
    ensures StreamEvents(fs) + ProgressEvents(p) + [e] == StreamEvents(fs')
  {
    assert e == FeatEnd;
    var f := if p.AfterNullFeat? then NullFeature else GeomFeature(p.g);
    assert ProgressEvents(p) + [e] == FeatureEvents(f);
    StreamEventsSnoc(fs, f);
    fs' := fs + [f];
    assert fs'[|fs|] == f;
  }

  /** One accepted call, other than a hint, either extends the pending
      feature or, at feat_end, completes it as one more well-formed feature. */
  lemma AdvanceProgress(fs: seq<Feature>, p: Progress, e: Event) returns (fs': seq<Feature>, p': Progress)
    requires WellFormedFeatures(fs) && ProgressValid(p) && !IsHint(e)
    requires Advance(ProgressControl(p), e).Some?
    ensures WellFormedFeatures(fs') && ProgressValid(p')
    ensures Advance(ProgressControl(p), e) == Some(ProgressControl(p'))
    ensures StreamEvents(fs) + ProgressEvents(p) + [e] == StreamEvents(fs') + ProgressEvents(p')
  {
    if p.AfterNullFeat? || p.ClosedGeom? {
      fs' := CompleteFeature(fs, p, e);
      p' := Between;
      assert StreamEvents(fs') + ProgressEvents(p') == StreamEvents(fs');
    } else {
      fs' := fs;
      p' := AdvancePending(p, e);
      assert StreamEvents(fs) + ProgressEvents(p) + [e] == StreamEvents(fs) + (ProgressEvents(p) + [e]);
    }
  }

  /** Any call sequence the protocol accepts from between features is, with
      its hints dropped, the stream of some well-formed features followed by
      the calls of one pending feature. */
  lemma {:induction false} AcceptedProgress(es: seq<Event>) returns (fs: seq<Feature>, p: Progress)
    requires RunProtocol(Control(Outside, []), es).Some?
    ensures WellFormedFeatures(fs) && ProgressValid(p)
    ensures RunProtocol(Control(Outside, []), es) == Some(ProgressControl(p))
    ensures WithoutHints(es) == StreamEvents(fs) + ProgressEvents(p)
    decreases |es|
  {
    var c0 := Control(Outside, []);
    if es == [] {
      fs, p := [], Between;
    } else {
      var init, e := es[..|es| - 1], es[|es| - 1];
      assert init + [e] == es;
      RunProtocolAppend(c0, init, [e]);
      fs, p := AcceptedProgress(init);
      assert [e][1..] == [];
      if !IsHint(e) {
        fs, p := AdvanceProgress(fs, p, e);
      }
    }
  }

  /** An accepted session that ends between features is, once its hints
      are dropped, exactly the stream of some well-formed features. */
  lemma AcceptedFeatures(es: seq<Event>) returns (fs: seq<Feature>)
    requires RunProtocol(Control(Outside, []), es).Some?
    requires RunProtocol(Control(Outside, []), es).value.phase == Outside
    ensures WellFormedFeatures(fs)
    ensures WithoutHints(es) == StreamEvents(fs)
  {
    var p;
    fs, p := AcceptedProgress(es);
    assert p == Between;
  }

  /** Hints are accepted anywhere and change nothing, so dropping them does
      not change what the protocol makes of a session. */
  lemma {:induction false} RunProtocolWithoutHints(c: Control, es: seq<Event>)
    ensures RunProtocol(c, es) == RunProtocol(c, WithoutHints(es))
    decreases |es|
  {
    if es != [] {
      var init, e := es[..|es| - 1], es[|es| - 1];
      assert init + [e] == es;
      RunProtocolAppend(c, init, [e]);
      RunProtocolWithoutHints(c, init);
      assert [e][1..] == [];
      if IsHint(e) {
        assert WithoutHints(es) == WithoutHints(init) + [] == WithoutHints(init);
        match RunProtocol(c, init)
        case None =>
        case Some(c') => assert Advance(c', e) == Some(c');
      } else {
        RunProtocolAppend(c, WithoutHints(init), [e]);
      }
    }
  }

  /** A session is well formed exactly when, hints dropped, it is the
      stream of some well-formed features. */
  lemma WellFormedStreamIff(es: seq<Event>)
    ensures WellFormedStream(es) <==>
      exists fs :: WellFormedFeatures(fs) && WithoutHints(es) == StreamEvents(fs)
  {
    RunProtocolWithoutHints(Control(Outside, []), es);
    if WellFormedStream(es) {
      var fs := AcceptedFeatures(es);
    }
    if fs :| WellFormedFeatures(fs) && WithoutHints(es) == StreamEvents(fs) {
      StreamWellFormed(fs);
    }
  }
}
