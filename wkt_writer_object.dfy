/** The WKT writer as the object its visitor callbacks mutate. Each callback
    updates the writer's fields in place and returns a status; each is proved
    to do exactly what the step function WktWriter.Step prescribes for its
    event, so everything proved about Step and Run (WriterColumn above all)
    holds for a sequence of calls on one Writer. */
module WktWriterObject {
  import opened Wrappers
  import opened GeoArrowTypes
  import opened Visitor
  import opened WktText
  import opened WktEmit
  import opened WktWriter
  import CoordViews

  /** What a callback owes its caller: an accepted event returns OK and moves
      the writer to the state Step gives; a refused one returns Step's error
      code and leaves the writer as it was. */
  ghost predicate Follows(before: WriterState, e: Event, status: int, after: WriterState)
  {
    match Step(before, e)
    case Success(s) => status == GEOARROW_OK && after == s
    case Failure(code) => status == code && after == before
  }

  /** Formats one coordinate: its values in slot order, separated by single
      spaces. */
  method FormatTuple(t: Tuple) returns (text: string)
    ensures text == TupleText(t)
  {
    if |t| == 0 {
      return "";
    }
    var parts := NumTexts(t);
    text := NumText(t[0]);
    var i := 1;
    while i < |t|
      invariant 1 <= i <= |t|
      invariant text == Join(" ", parts[..i])
    {
      JoinSnoc(" ", parts[..i], parts[i]);
      assert parts[..i + 1] == parts[..i] + [parts[i]];
      text := text + " " + NumText(t[i]);
      i := i + 1;
    }
    assert parts[..|t|] == parts;
  }

  /** Formats the coordinates of a view as further children of a list that
      already holds `before` children: each is preceded by the list's
      opening or by ", ". */
  method FormatCoords(cv: CoordViews.CoordView, lead: string, before: nat) returns (text: string)
    requires CoordViews.Valid(cv)
    ensures text == Emit(lead, before, TupleTexts(CoordViews.Tuples(cv)))
  {
    ghost var texts := TupleTexts(CoordViews.Tuples(cv));
    text := "";
    var row := 0;
    while row < cv.nCoords
      invariant 0 <= row <= cv.nCoords
      invariant text == Emit(lead, before, texts[..row])
    {
      var t := FormatTuple(CoordViews.Tuple(cv, row));
      EmitSnoc(lead, before, texts[..row], t);
      assert texts[..row + 1] == texts[..row] + [t];
      text := text + Sep(lead, before + row) + t;
      row := row + 1;
    }
    assert texts[..cv.nCoords] == texts;
  }

  /** coords on a view, where the writer takes coordinates: the step writes
      the formatted coordinates and counts them as children of the list. */
  lemma CoordsAccepted(s: WriterState, cv: CoordViews.CoordView, text: string) returns (next: WriterState)
    requires CoordViews.Valid(cv)
    requires Consistent(s)
    requires s.phase == Opened && |s.frames| > 0 && TakesCoords(Top(s).scope)
    requires text == Emit(LeadOf(Top(s)), Top(s).children, TupleTexts(CoordViews.Tuples(cv)))
    ensures Step(s, Event.Coords(CoordViews.Tuples(cv))) == Success(next)
    ensures next == s.(values := s.values + text,
                       frames := s.frames[..|s.frames| - 1] + [Frame(Top(s).scope, Top(s).children + cv.nCoords)])
    ensures Consistent(next)
    ensures Follows(s, Event.Coords(CoordViews.Tuples(cv)), GEOARROW_OK, next)
  {
    ViewIsBatch(cv);
    assert ScopesOf(s.frames)[|s.frames| - 1] == Top(s).scope;
    next := Extend(s, TupleTexts(CoordViews.Tuples(cv)));
    StepConsistent(s, Event.Coords(CoordViews.Tuples(cv)));
  }

  /** coords anywhere else is refused. */
  lemma CoordsRefused(s: WriterState, cv: CoordViews.CoordView)
    requires CoordViews.Valid(cv)
    requires !(s.phase == Opened && |s.frames| > 0 && TakesCoords(Top(s).scope))
    ensures Step(s, Event.Coords(CoordViews.Tuples(cv))) == Failure(EINVAL)
    ensures Follows(s, Event.Coords(CoordViews.Tuples(cv)), EINVAL, s)
  {
    if |s.frames| > 0 {
      assert ScopesOf(s.frames)[|s.frames| - 1] == Top(s).scope;
    }
  }

  /** The private state of GeoArrowWKTWriter: the text written so far, the
      offsets that end each finished entry, the validity of each entry, the
      number of nulls, where the current feature stands, and the stack of
      lists still open. */
  class Writer {
    var values: string
    var offsets: seq<int>
    var validity: seq<bool>
    var nullCount: int
    var phase: Phase
    var frames: seq<Frame>

    function State(): WriterState
      reads this
    {
      WriterState(values, offsets, validity, nullCount, phase, frames)
    }

    ghost predicate Valid()
      reads this
    {
      Consistent(State())
    }

    /** GeoArrowWKTWriterInit: an empty writer between features. */
    constructor()
      ensures State() == Initial && Valid()
    {
      values := "";
      offsets := [0];
      validity := [];
      nullCount := 0;
      phase := Outside;
      frames := [];
      InitialConsistent();
    }

    /** reserve_coord: a size hint; accepted anywhere, changes nothing. */
    method ReserveCoord(n: int) returns (status: int)
      requires Valid()
      ensures Valid() && Follows(State(), Event.ReserveCoord(n), status, State())
    {
      return GEOARROW_OK;
    }

    /** reserve_feat: a size hint; accepted anywhere, changes nothing. */
    method ReserveFeat(n: int) returns (status: int)
      requires Valid()
      ensures Valid() && Follows(State(), Event.ReserveFeat(n), status, State())
    {
      return GEOARROW_OK;
    }

    /** feat_start: opens a feature; only between features. */
    method FeatStart() returns (status: int)
      requires Valid()
      modifies this
      ensures Valid() && Follows(old(State()), Event.FeatStart, status, State())
    {
      if phase != Outside {
        return EINVAL;
      }
      phase := Opened;
      frames := [];
      StepConsistent(old(State()), Event.FeatStart);
      return GEOARROW_OK;
    }

    /** null_feat: marks the open feature null; only before any geometry. */
    method NullFeat() returns (status: int)
      requires Valid()
      modifies this
      ensures Valid() && Follows(old(State()), Event.NullFeat, status, State())
    {
      if phase != Opened || frames != [] {
        return EINVAL;
      }
      phase := Nulled;
      StepConsistent(old(State()), Event.NullFeat);
      return GEOARROW_OK;
    }

    /** geom_start: writes the keyword and the dimension tag and opens the
      geometry's list. */
    method GeomStart(g: GeometryType, d: Dimensions) returns (status: int)
      requires Valid()
      modifies this
      ensures Valid() && Follows(old(State()), Event.GeomStart(g, d), status, State())
    {
      if phase != Opened || frames != [] {
        return EINVAL;
      }
      values := values + Keyword(g) + DimSuffix(d);
      frames := [Frame(GeomScope(g), 0)];
      StepConsistent(old(State()), Event.GeomStart(g, d));
      return GEOARROW_OK;
    }

    /** ring_start: writes the polygon's "(" or ", " and opens the ring's list. */
    method RingStart() returns (status: int)
      requires Valid()
      modifies this
      ensures Valid() && Follows(old(State()), Event.RingStart, status, State())
    {
      if phase != Opened || |frames| == 0 || frames[|frames| - 1].scope != GeomScope(Polygon) {
        assert Step(State(), Event.RingStart).Failure?;
        return EINVAL;
      }
      var top := frames[|frames| - 1];
      var rest := frames[..|frames| - 1];
      values := values + Sep(LeadOf(top), top.children);
      frames := rest + [Frame(top.scope, top.children + 1)] + [Frame(RingScope, 0)];
      StepConsistent(old(State()), Event.RingStart);
      return GEOARROW_OK;
    }

    /** coords: writes every coordinate of the view into the innermost open
      list, each preceded by "(" or ", ". */
    method Coords(cv: CoordViews.CoordView) returns (status: int)
      requires Valid() && CoordViews.Valid(cv)
      modifies this
      ensures Valid() && Follows(old(State()), Event.Coords(CoordViews.Tuples(cv)), status, State())
    {
      if phase != Opened || |frames| == 0 || !TakesCoords(frames[|frames| - 1].scope) {
        CoordsRefused(State(), cv);
        return EINVAL;
      }
      var top := frames[|frames| - 1];
      var text := FormatCoords(cv, LeadOf(top), top.children);
      ghost var next := CoordsAccepted(State(), cv, text);
      values := values + text;
      frames := frames[..|frames| - 1] + [Frame(top.scope, top.children + cv.nCoords)];
      assert State() == next;
      return GEOARROW_OK;
    }

    /** ring_end: closes the ring's list with ")" or "EMPTY". */
    method RingEnd() returns (status: int)
      requires Valid()
      modifies this
      ensures Valid() && Follows(old(State()), Event.RingEnd, status, State())
    {
      if phase != Opened || |frames| == 0 || frames[|frames| - 1].scope != RingScope {
        assert Step(State(), Event.RingEnd).Failure?;
        return EINVAL;
      }
      var top := frames[|frames| - 1];
      values := values + Closer(LeadOf(top), top.children);
      frames := frames[..|frames| - 1];
      StepConsistent(old(State()), Event.RingEnd);
      return GEOARROW_OK;
    }

    /** geom_end: closes the geometry's list with ")" or " EMPTY"; the
      feature is then filled. */
    method GeomEnd() returns (status: int)
      requires Valid()
      modifies this
      ensures Valid() && Follows(old(State()), Event.GeomEnd, status, State())
    {
      if phase != Opened || |frames| == 0 || !frames[|frames| - 1].scope.GeomScope? {
        assert Step(State(), Event.GeomEnd).Failure?;
        return EINVAL;
      }
      var top := frames[|frames| - 1];
      values := values + Closer(LeadOf(top), top.children);
      frames := frames[..|frames| - 1];
      phase := if frames == [] then Filled else Opened;
      StepConsistent(old(State()), Event.GeomEnd);
      return GEOARROW_OK;
    }

    /** feat_end: seals the entry, valid when it holds a geometry and null
      after null_feat. */
    method FeatEnd() returns (status: int)
      requires Valid()
      modifies this
      ensures Valid() && Follows(old(State()), Event.FeatEnd, status, State())
    {
      if (phase != Nulled && phase != Filled) || frames != [] {
        return EINVAL;
      }
      offsets := offsets + [|values|];
      validity := validity + [phase == Filled];
      nullCount := nullCount + (if phase == Nulled then 1 else 0);
      phase := Outside;
      StepConsistent(old(State()), Event.FeatEnd);
      return GEOARROW_OK;
    }

    /** GeoArrowWKTWriterFinish: between features, hands over the column and
      resets the writer; inside a feature, fails and changes nothing. */
    method Finish() returns (status: int, col: Option<Column>)
      requires Valid()
      modifies this
      ensures Valid()
      ensures match FinishState(old(State()))
        case Success(p) => status == GEOARROW_OK && col == Some(p.0) && State() == p.1
        case Failure(code) => status == code && col.None? && State() == old(State())
    {
      if phase != Outside {
        return EINVAL, None;
      }
      col := Some(Column(|offsets| - 1, nullCount, if nullCount == 0 then None else Some(validity),
                         offsets, values));
      values := "";
      offsets := [0];
      validity := [];
      nullCount := 0;
      frames := [];
      InitialConsistent();
      return GEOARROW_OK, col;
    }
  }
}
