/** The WKT writer as a visitor consumer: every callback is a step over the
    writer's state (text buffer, entry offsets, validity, null count, the
    position in the feature and a stack of open lists), and Finish turns
    the state into a string column. The main result, WriterColumn, is that
    the events a producer emits for any sequence of features finish into a
    column whose entries are those features' WKT, with nulls where the
    features are null. */
module WktWriter {
  import opened Wrappers
  import opened GeoArrowTypes
  import opened Visitor
  import opened WktText
  import opened WktEmit

  /** One open geom_start or ring_start and how many children (coordinates
      or rings) have been written into its list so far. */
  datatype Frame = Frame(scope: Scope, children: nat)

  datatype WriterState = WriterState(
    values: string,
    offsets: seq<int>,
    validity: seq<bool>,
    nullCount: int,
    phase: Phase,
    frames: seq<Frame>)

  function ScopesOf(frames: seq<Frame>): (r: seq<Scope>)
    ensures |r| == |frames|
  {
    seq(|frames|, i requires 0 <= i < |frames| => frames[i].scope)
  }

  /** The protocol position the writer is at. */
  function ControlOf(s: WriterState): Control
  {
    Control(s.phase, ScopesOf(s.frames))
  }

  /** A freshly initialised (or reset) writer: no text, one offset, no entries. */
  const Initial := WriterState("", [0], [], 0, Outside, [])

  function Top(s: WriterState): Frame
    requires |s.frames| > 0
  {
    s.frames[|s.frames| - 1]
  }

  function LeadOf(f: Frame): string
  {
    Lead(f.scope.GeomScope?)
  }

  /** Writes `parts` as further children of the innermost open list. */
  function Extend(s: WriterState, parts: seq<string>): WriterState
    requires |s.frames| > 0
  {
    var top := Top(s);
    s.(values := s.values + Emit(LeadOf(top), top.children, parts),
       frames := s.frames[..|s.frames| - 1] + [Frame(top.scope, top.children + |parts|)])
  }

  lemma ScopesOfReplaceTop(frames: seq<Frame>, f: Frame)
    requires |frames| > 0 && f.scope == frames[|frames| - 1].scope
    ensures ScopesOf(frames[..|frames| - 1] + [f]) == ScopesOf(frames)
  {
  }

  lemma ScopesOfPush(frames: seq<Frame>, f: Frame)
    ensures ScopesOf(frames + [f]) == ScopesOf(frames) + [f.scope]
  {
  }

  lemma ScopesOfPop(frames: seq<Frame>)
    requires |frames| > 0
    ensures ScopesOf(frames[..|frames| - 1]) == ScopesOf(frames)[..|frames| - 1]
  {
  }

  /** One callback. Calls out of protocol order fail with EINVAL and leave
      the state as it was; the others write their share of the text. */
  function Step(s: WriterState, e: Event): (r: Result<WriterState>)
    ensures r.Success? <==> Advance(ControlOf(s), e).Some?
    ensures r.Success? ==> ControlOf(r.value) == Advance(ControlOf(s), e).value
    ensures r.Failure? ==> r.code == EINVAL
  {
    match Advance(ControlOf(s), e)
    case None => Failure(EINVAL)
    case Some(c) =>
      match e
      case ReserveCoord(_) => Success(s)
      case ReserveFeat(_) => Success(s)
      case FeatStart => Success(s.(phase := Opened, frames := []))
      case NullFeat => Success(s.(phase := Nulled))
      case GeomStart(g, d) =>
        Success(s.(values := s.values + Keyword(g) + DimSuffix(d), frames := [Frame(GeomScope(g), 0)]))
      case RingStart =>
        var top := Top(s);
        var frames := s.frames[..|s.frames| - 1] + [Frame(top.scope, top.children + 1)];
        ScopesOfReplaceTop(s.frames, Frame(top.scope, top.children + 1));
        ScopesOfPush(frames, Frame(RingScope, 0));
        Success(s.(values := s.values + Sep(LeadOf(top), top.children),
                   frames := frames + [Frame(RingScope, 0)]))
      case Coords(b) =>
        ScopesOfReplaceTop(s.frames, Frame(Top(s).scope, Top(s).children + |b|));
        Success(Extend(s, TupleTexts(b)))
      case RingEnd =>
        ScopesOfPop(s.frames);
        Success(s.(values := s.values + Closer(LeadOf(Top(s)), Top(s).children),
                   frames := s.frames[..|s.frames| - 1]))
      case GeomEnd =>
        ScopesOfPop(s.frames);
        Success(s.(values := s.values + Closer(LeadOf(Top(s)), Top(s).children),
                   frames := s.frames[..|s.frames| - 1], phase := c.phase))
      case FeatEnd =>
        Success(s.(offsets := s.offsets + [|s.values|],
                   validity := s.validity + [s.phase == Filled],
                   nullCount := s.nullCount + (if s.phase == Nulled then 1 else 0),
                   phase := Outside))
  }

  /** A sequence of callbacks; the first failure stops the session. */
  function Run(s: WriterState, es: seq<Event>): (r: Result<WriterState>)
    ensures r.Success? <==> RunProtocol(ControlOf(s), es).Some?
    ensures r.Success? ==> ControlOf(r.value) == RunProtocol(ControlOf(s), es).value
    decreases |es|
  {
    if es == [] then Success(s)
    else match Step(s, es[0])
      case Failure(code) => Failure(code)
      case Success(s') => Run(s', es[1..])
  }

  lemma {:induction false} RunAppend(s: WriterState, a: seq<Event>, b: seq<Event>)
    ensures Run(s, a + b) ==
      match Run(s, a)
      case Failure(code) => Failure(code)
      case Success(s') => Run(s', b)
    decreases |a|
  {
    if a == [] {
      assert a + b == b;
    } else {
      assert (a + b)[0] == a[0] && (a + b)[1..] == a[1..] + b;
      match Step(s, a[0])
      case Failure(_) =>
      case Success(s') => RunAppend(s', a[1..], b);
    }
  }

  /** Two successful runs chain into one. */
  lemma RunChain(s: WriterState, a: seq<Event>, b: seq<Event>, s1: WriterState, s2: WriterState)
    requires Run(s, a) == Success(s1) && Run(s1, b) == Success(s2)
    ensures Run(s, a + b) == Success(s2)
  {
    RunAppend(s, a, b);
  }

  // -----------------------------------------------------------------------
  // The writer's invariant

  /** The number of null entries a validity sequence records. */
  function CountFalse(v: seq<bool>): nat
  {
    if v == [] then 0 else CountFalse(v[..|v| - 1]) + (if v[|v| - 1] then 0 else 1)
  }

  lemma CountFalseSnoc(v: seq<bool>, b: bool)
    ensures CountFalse(v + [b]) == CountFalse(v) + (if b then 0 else 1)
  {
    assert (v + [b])[..|v|] == v;
  }

  /** Offsets start at 0, never decrease and stay inside the text; one
      validity flag per sealed entry; the null count is the number of null
      entries; between features no list is open and the last entry ends at
      the end of the text. */
  predicate Consistent(s: WriterState)
  {
    && |s.offsets| >= 1
    && s.offsets[0] == 0
    && (forall i, j :: 0 <= i <= j < |s.offsets| ==> s.offsets[i] <= s.offsets[j])
    && s.offsets[|s.offsets| - 1] <= |s.values|
    && |s.validity| == |s.offsets| - 1
    && s.nullCount == CountFalse(s.validity)
    && (s.phase == Outside ==> s.frames == [] && s.offsets[|s.offsets| - 1] == |s.values|)
  }

  lemma InitialConsistent()
    ensures Consistent(Initial)
  {
  }

  /** Every accepted callback keeps the invariant, and sealed entries are
      never rewritten. */
  lemma StepConsistent(s: WriterState, e: Event)
    requires Consistent(s)
    requires Step(s, e).Success?
    ensures Consistent(Step(s, e).value)
    ensures |s.values| <= |Step(s, e).value.values|
    ensures Step(s, e).value.values[..|s.values|] == s.values
    ensures Step(s, e).value.offsets[..|s.offsets|] == s.offsets
  {
    var r := Step(s, e).value;
    if e.FeatEnd? {
      FeatEndConsistent(s);
    } else {
      assert r.offsets == s.offsets && r.validity == s.validity && r.nullCount == s.nullCount;
      assert r.values[..|s.values|] == s.values;
      AppendConsistent(s, r);
    }
  }

  /** feat_end seals the entry: one more offset, at the end of the text. */
  lemma FeatEndConsistent(s: WriterState)
    requires Consistent(s)
    requires Step(s, FeatEnd).Success?
    ensures Consistent(Step(s, FeatEnd).value)
    ensures Step(s, FeatEnd).value.values == s.values
    ensures Step(s, FeatEnd).value.offsets[..|s.offsets|] == s.offsets
  {
    var r := Step(s, FeatEnd).value;
    CountFalseSnoc(s.validity, s.phase == Filled);
    assert r.offsets[..|s.offsets|] == s.offsets;
  }

  /** A callback other than feat_end seals nothing: it only appends text,
      and it leaves the writer between features only when it changes nothing. */
  lemma AppendConsistent(s: WriterState, r: WriterState)
    requires Consistent(s)
    requires r.offsets == s.offsets && r.validity == s.validity && r.nullCount == s.nullCount
    requires |s.values| <= |r.values| && r.values[..|s.values|] == s.values
    requires r.phase == Outside ==> r == s
    ensures Consistent(r)
  {
  }

  // -----------------------------------------------------------------------
  // The column Finish produces

  /** A string column: length, null count, an optional validity bitmap
      (absent when nothing is null), offsets and the character data. */
  datatype Column = Column(
    length: int,
    nullCount: int,
    validity: Option<seq<bool>>,
    offsets: seq<int>,
    data: string)

  predicate ColumnValid(col: Column)
  {
    && col.length >= 0
    && |col.offsets| == col.length + 1
    && col.offsets[0] == 0
    && (forall i, j :: 0 <= i <= j <= col.length ==> col.offsets[i] <= col.offsets[j])
    && col.offsets[col.length] == |col.data|
    && (col.validity.None? <==> col.nullCount == 0)
    && (col.validity.Some? ==> |col.validity.value| == col.length && col.nullCount == CountFalse(col.validity.value))
  }

  predicate IsNull(col: Column, i: int)
    requires ColumnValid(col) && 0 <= i < col.length
  {
    col.validity.Some? && !col.validity.value[i]
  }

  /** Entry i: none when null, else the text between its two offsets. */
  function Entry(col: Column, i: int): Option<string>
    requires ColumnValid(col) && 0 <= i < col.length
  {
    if IsNull(col, i) then None else Some(col.data[col.offsets[i]..col.offsets[i + 1]])
  }

  /** Finish: fails with EINVAL inside a feature; otherwise hands over the
      column (dropping the validity bitmap when nothing is null) and leaves
      the writer reset. */
  function FinishState(s: WriterState): (r: Result<(Column, WriterState)>)
    ensures r.Failure? <==> s.phase != Outside
    ensures r.Failure? ==> r.code == EINVAL
    ensures r.Success? ==> r.value.1 == Initial && r.value.0.data == s.values
    ensures r.Success? && Consistent(s) ==> ColumnValid(r.value.0) && r.value.0.length == |s.validity|
  {
    if s.phase != Outside then Failure(EINVAL)
    else
      var col := Column(|s.offsets| - 1, s.nullCount,
                        if s.nullCount == 0 then None else Some(s.validity),
                        s.offsets, s.values);
      Success((col, Initial))
  }

  // -----------------------------------------------------------------------
  // What the writer does with the events of one geometry

  lemma ExtendTwice(s: WriterState, a: seq<string>, b: seq<string>)
    requires |s.frames| > 0
    ensures |Extend(s, a).frames| > 0
    ensures Extend(Extend(s, a), b) == Extend(s, a + b)
  {
    var top := Top(s);
    EmitAppend(LeadOf(top), top.children, a, b);
    assert Top(Extend(s, a)) == Frame(top.scope, top.children + |a|);
    assert Extend(s, a).frames[..|s.frames| - 1] == s.frames[..|s.frames| - 1];
  }

  lemma {:induction false} CoordsRun(s: WriterState, bs: seq<Batch>)
    requires s.phase == Opened && |s.frames| > 0 && TakesCoords(Top(s).scope)
    requires ValidBatches(bs)
    ensures Run(s, CoordsEvents(bs)) == Success(Extend(s, TupleTexts(Flatten(bs))))
    decreases |bs|
  {
    if bs == [] {
      assert s.frames[..|s.frames| - 1] + [Top(s)] == s.frames;
      assert TupleTexts(Flatten(bs)) == [];
      assert s.values + "" == s.values;
    } else {
      var s1 := Extend(s, TupleTexts(bs[0]));
      assert ValidBatch(bs[0]);
      assert ScopesOf(s.frames)[|s.frames| - 1] == Top(s).scope;
      assert Step(s, Coords(bs[0])) == Success(s1);
      assert [Coords(bs[0])][1..] == [];
      assert Run(s, [Coords(bs[0])]) == Success(s1);
      RunAppend(s, [Coords(bs[0])], CoordsEvents(bs[1..]));
      CoordsRun(s1, bs[1..]);
      ExtendTwice(s, TupleTexts(bs[0]), TupleTexts(Flatten(bs[1..])));
      TupleTextsAppend(bs[0], Flatten(bs[1..]));
    }
  }

  /** The state inside a polygon that already holds `c` rings. */
  function InPolygon(s: WriterState, c: nat): WriterState
  {
    s.(phase := Opened, frames := [Frame(GeomScope(Polygon), c)])
  }

  /** The state just after ring_start in a polygon that held `c` rings. */
  function InRing(s: WriterState, c: nat): WriterState
  {
    s.(values := s.values + Sep(" ", c), phase := Opened,
       frames := [Frame(GeomScope(Polygon), c + 1), Frame(RingScope, 0)])
  }

  lemma RingStartRun(s: WriterState, c: nat)
    ensures Run(InPolygon(s, c), [RingStart]) == Success(InRing(s, c))
  {
    var s0 := InPolygon(s, c);
    var s1 := InRing(s, c);
    assert ScopesOf(s0.frames) == [GeomScope(Polygon)];
    assert ScopesOf(s1.frames) == [GeomScope(Polygon), RingScope];
    assert Top(s0) == Frame(GeomScope(Polygon), c) && LeadOf(Top(s0)) == " ";
    assert s0.frames[..0] + [Frame(GeomScope(Polygon), c + 1)] + [Frame(RingScope, 0)] == s1.frames;
    assert Step(s0, RingStart) == Success(s1);
    assert [RingStart][1..] == [];
  }

  lemma RingEndRun(s: WriterState, c: nat, n: nat)
    requires s.phase == Opened && s.frames == [Frame(GeomScope(Polygon), c), Frame(RingScope, n)]
    ensures Run(s, [RingEnd]) == Success(s.(values := s.values + Closer("", n), frames := [Frame(GeomScope(Polygon), c)]))
  {
    assert ScopesOf(s.frames) == [GeomScope(Polygon), RingScope];
    assert Top(s) == Frame(RingScope, n) && LeadOf(Top(s)) == "";
    assert s.frames[..1] == [Frame(GeomScope(Polygon), c)];
    assert [RingEnd][1..] == [];
  }

  lemma RingTextAssembly(v: string, c: nat, texts: seq<string>)
    ensures v + Sep(" ", c) + Emit("", 0, texts) + Closer("", |texts|)
         == v + Emit(" ", c, [Parenthesized(texts)])
  {
    EmitClosed("", texts);
    assert Emit(" ", c, [Parenthesized(texts)]) == Sep(" ", c) + Parenthesized(texts) + Emit(" ", c + 1, []);
    assert "" + Parenthesized(texts) == Parenthesized(texts);
    Reassociate(v, "", Sep(" ", c), Emit("", 0, texts), Closer("", |texts|), "", Parenthesized(texts));
  }

  lemma RingCoordsState(s: WriterState, c: nat, texts: seq<string>)
    ensures var s2 := Extend(InRing(s, c), texts);
      && s2.phase == Opened
      && s2.frames == [Frame(GeomScope(Polygon), c + 1), Frame(RingScope, |texts|)]
      && s2.values == s.values + Sep(" ", c) + Emit("", 0, texts)
  {
  }

  lemma RingClosedState(s: WriterState, c: nat, texts: seq<string>)
    ensures var s2 := Extend(InRing(s, c), texts);
      s2.(values := s2.values + Closer("", |texts|), frames := [Frame(GeomScope(Polygon), c + 1)])
      == Extend(InPolygon(s, c), [Parenthesized(texts)])
  {
    RingCoordsState(s, c, texts);
    RingTextAssembly(s.values, c, texts);
  }

  lemma RingRun(s: WriterState, c: nat, r: seq<Batch>)
    requires ValidBatches(r)
    ensures Run(InPolygon(s, c), RingEvents(r))
         == Success(Extend(InPolygon(s, c), [CoordListText(Flatten(r))]))
  {
    var s0 := InPolygon(s, c);
    var s1 := InRing(s, c);
    RingStartRun(s, c);
    var texts := TupleTexts(Flatten(r));
    assert ScopesOf(s1.frames) == [GeomScope(Polygon), RingScope];
    CoordsRun(s1, r);
    var s2 := Extend(s1, texts);
    RingCoordsState(s, c, texts);
    var s3 := s2.(values := s2.values + Closer("", |texts|), frames := [Frame(GeomScope(Polygon), c + 1)]);
    RingEndRun(s2, c + 1, |texts|);
    RunChain(s0, [RingStart], CoordsEvents(r), s1, s2);
    RunChain(s0, [RingStart] + CoordsEvents(r), [RingEnd], s2, s3);
    RingClosedState(s, c, texts);
  }

  lemma RingsRunStep(s: WriterState, c: nat, r: seq<Batch>, rest: seq<seq<Batch>>, s1: WriterState)
    requires ValidBatches(r)
    requires s1 == Extend(InPolygon(s, c), [CoordListText(Flatten(r))])
    requires Run(s1, RingsEvents(rest)) == Success(Extend(s1, RingTexts(rest)))
    ensures Run(InPolygon(s, c), RingEvents(r) + RingsEvents(rest))
         == Success(Extend(InPolygon(s, c), [CoordListText(Flatten(r))] + RingTexts(rest)))
  {
    var s0 := InPolygon(s, c);
    RingRun(s, c, r);
    RunAppend(s0, RingEvents(r), RingsEvents(rest));
    ExtendTwice(s0, [CoordListText(Flatten(r))], RingTexts(rest));
  }

  lemma ExtendPolygon(s: WriterState, c: nat, parts: seq<string>)
    ensures Extend(InPolygon(s, c), parts) == InPolygon(Extend(InPolygon(s, c), parts), c + |parts|)
  {
  }

  lemma {:induction false} RingsRun(s: WriterState, c: nat, rs: seq<seq<Batch>>)
    requires forall i :: 0 <= i < |rs| ==> ValidBatches(rs[i])
    ensures Run(InPolygon(s, c), RingsEvents(rs)) == Success(Extend(InPolygon(s, c), RingTexts(rs)))
    decreases |rs|
  {
    var s0 := InPolygon(s, c);
    if rs == [] {
      assert RingTexts(rs) == [];
      assert s0.values + "" == s0.values;
      assert s0.frames[..0] + [Frame(GeomScope(Polygon), c)] == s0.frames;
    } else {
      var r, rest := rs[0], rs[1..];
      var s1 := Extend(s0, [CoordListText(Flatten(r))]);
      RingsSplit(rs);
      ExtendPolygon(s, c, [CoordListText(Flatten(r))]);
      RingsRun(s1, c + 1, rest);
      RingsRunStep(s, c, r, rest, s1);
    }
  }

  /** The first ring's calls and text, then the rest's. */
  lemma RingsSplit(rs: seq<seq<Batch>>)
    requires |rs| > 0 && forall i :: 0 <= i < |rs| ==> ValidBatches(rs[i])
    ensures ValidBatches(rs[0]) && forall i :: 0 <= i < |rs[1..]| ==> ValidBatches(rs[1..][i])
    ensures RingsEvents(rs) == RingEvents(rs[0]) + RingsEvents(rs[1..])
    ensures RingTexts(rs) == [CoordListText(Flatten(rs[0]))] + RingTexts(rs[1..])
  {
    assert [CoordListText(Flatten(rs[0]))] + RingTexts(rs[1..]) == RingTexts(rs);
  }

  /** The children a geometry's body writes into its list. */
  function BodyParts(b: Body): seq<string>
  {
    match b
    case EmptyBody => []
    case CoordBody(bs) => TupleTexts(Flatten(bs))
    case RingBody(rs) => RingTexts(rs)
  }

  lemma BodyTextParts(b: Body)
    ensures BodyText(b) == Parenthesized(BodyParts(b))
  {
  }

  /** The state after geom_start(k, d) inside an opened feature. */
  function Started(s: WriterState, k: GeometryType, d: Dimensions): WriterState
  {
    s.(values := s.values + Keyword(k) + DimSuffix(d), phase := Opened, frames := [Frame(GeomScope(k), 0)])
  }

  lemma GeomStartRun(s: WriterState, k: GeometryType, d: Dimensions)
    requires s.phase == Opened && s.frames == []
    ensures Run(s, [GeomStart(k, d)]) == Success(Started(s, k, d))
  {
    assert Step(s, GeomStart(k, d)) == Success(Started(s, k, d));
    assert [GeomStart(k, d)][1..] == [];
  }

  lemma BodyRun(s: WriterState, g: Geom)
    requires WellFormedGeom(g)
    ensures Run(Started(s, g.geometryType, g.dimensions), BodyEvents(g.body))
         == Success(Extend(Started(s, g.geometryType, g.dimensions), BodyParts(g.body)))
  {
    var k := g.geometryType;
    var s1 := Started(s, k, g.dimensions);
    match g.body {
      case EmptyBody =>
        assert s1.frames[..0] + [Frame(GeomScope(k), 0)] == s1.frames;
        assert s1.values + "" == s1.values;
        assert Extend(s1, []) == s1;
      case CoordBody(bs) =>
        assert ScopesOf(s1.frames) == [GeomScope(k)];
        CoordsRun(s1, bs);
      case RingBody(rs) =>
        assert s1 == InPolygon(s1, 0);
        RingsRun(s1, 0, rs);
    }
  }

  lemma GeomEndRun(s: WriterState, k: GeometryType, parts: seq<string>)
    requires s.phase == Opened && s.frames == [Frame(GeomScope(k), |parts|)]
    ensures Run(s, [GeomEnd]) == Success(s.(values := s.values + Closer(" ", |parts|), frames := [], phase := Filled))
  {
    assert ScopesOf(s.frames) == [GeomScope(k)];
    assert s.frames[..0] == [];
    assert [GeomEnd][1..] == [];
  }

  lemma StartedExtend(s: WriterState, k: GeometryType, d: Dimensions, parts: seq<string>)
    ensures Extend(Started(s, k, d), parts)
         == s.(values := s.values + Keyword(k) + DimSuffix(d) + Emit(" ", 0, parts),
               phase := Opened, frames := [Frame(GeomScope(k), |parts|)])
  {
  }

  lemma GeomClosedState(s: WriterState, g: Geom)
    requires s.frames == []
    ensures var s2 := Extend(Started(s, g.geometryType, g.dimensions), BodyParts(g.body));
      s2.(values := s2.values + Closer(" ", |BodyParts(g.body)|), frames := [], phase := Filled)
      == s.(values := s.values + GeomText(g), phase := Filled)
  {
    var parts := BodyParts(g.body);
    var s2 := Extend(Started(s, g.geometryType, g.dimensions), parts);
    StartedExtend(s, g.geometryType, g.dimensions, parts);
    GeomTextAssembly(s.values, g);
    assert s2.values + Closer(" ", |parts|) == s.values + GeomText(g);
  }

  /** Inside a feature, the events of a well-formed geometry append exactly
      its WKT to the text and leave the feature filled. */
  lemma {:induction false} GeomRun(s: WriterState, g: Geom)
    requires s.phase == Opened && s.frames == []
    requires WellFormedGeom(g)
    ensures Run(s, GeomEvents(g)) == Success(s.(values := s.values + GeomText(g), phase := Filled))
  {
    var k := g.geometryType;
    var s1 := Started(s, k, g.dimensions);
    var parts := BodyParts(g.body);
    var s2 := Extend(s1, parts);
    GeomStartRun(s, k, g.dimensions);
    BodyRun(s, g);
    StartedExtend(s, k, g.dimensions, parts);
    GeomEndRun(s2, k, parts);
    var s3 := s2.(values := s2.values + Closer(" ", |parts|), frames := [], phase := Filled);
    RunChain(s, [GeomStart(k, g.dimensions)], BodyEvents(g.body), s1, s2);
    RunChain(s, [GeomStart(k, g.dimensions)] + BodyEvents(g.body), [GeomEnd], s2, s3);
    GeomClosedState(s, g);
  }

  lemma GeomTextAssembly(v: string, g: Geom)
    ensures v + Keyword(g.geometryType) + DimSuffix(g.dimensions) + Emit(" ", 0, BodyParts(g.body))
              + Closer(" ", |BodyParts(g.body)|)
         == v + GeomText(g)
  {
    var parts := BodyParts(g.body);
    EmitClosed(" ", parts);
    BodyTextParts(g.body);
    Reassociate(v, Keyword(g.geometryType), DimSuffix(g.dimensions), Emit(" ", 0, parts),
                Closer(" ", |parts|), " ", BodyText(g.body));
  }

  lemma Reassociate(v: string, a: string, b: string, c: string, d: string, sp: string, t: string)
    requires c + d == sp + t
    ensures v + a + b + c + d == v + (a + b + sp + t)
  {
    calc {
      v + a + b + c + d;
      v + (a + b) + (c + d);
      v + (a + b) + (sp + t);
      v + (a + b + sp + t);
    }
  }

  // -----------------------------------------------------------------------
  // Whole features and whole sessions

  /** The text a feature contributes: nothing for a null feature. */
  function FeatureText(f: Feature): string
  {
    match f
    case NullFeature => ""
    case GeomFeature(g) => GeomText(g)
  }

  /** The state after a feature has been written and sealed by feat_end. */
  function Sealed(s: WriterState, f: Feature): WriterState
  {
    var t := FeatureText(f);
    s.(values := s.values + t,
       offsets := s.offsets + [|s.values| + |t|],
       validity := s.validity + [f.GeomFeature?],
       nullCount := s.nullCount + (if f.NullFeature? then 1 else 0),
       phase := Outside, frames := [])
  }

  lemma FeatEndRun(s: WriterState)
    requires (s.phase == Nulled || s.phase == Filled) && s.frames == []
    ensures Run(s, [FeatEnd]) == Success(s.(offsets := s.offsets + [|s.values|],
                                            validity := s.validity + [s.phase == Filled],
                                            nullCount := s.nullCount + (if s.phase == Nulled then 1 else 0),
                                            phase := Outside))
  {
    assert [FeatEnd][1..] == [];
  }

  lemma FeatStartRun(s: WriterState)
    requires s.phase == Outside
    ensures Run(s, [FeatStart]) == Success(s.(phase := Opened, frames := []))
  {
    assert [FeatStart][1..] == [];
  }

  lemma NullFeatureRun(s: WriterState)
    requires s.phase == Outside && s.frames == []
    ensures Run(s, FeatureEvents(NullFeature)) == Success(Sealed(s, NullFeature))
  {
    var s1 := s.(phase := Opened, frames := []);
    var s2 := s1.(phase := Nulled);
    FeatStartRun(s);
    assert [NullFeat][1..] == [];
    assert Run(s1, [NullFeat]) == Success(s2);
    FeatEndRun(s2);
    assert s2.values + "" == s2.values;
    RunChain(s, [FeatStart], [NullFeat], s1, s2);
    RunChain(s, [FeatStart] + [NullFeat], [FeatEnd], s2, Sealed(s, NullFeature));
    assert FeatureEvents(NullFeature) == [FeatStart] + [NullFeat] + [FeatEnd];
  }

  /** feat_start, then calls that append a geometry feature's text and
      complete the geometry, then feat_end: the feature is sealed. */
  lemma BracketRun(s: WriterState, es: seq<Event>, f: Feature)
    requires s.phase == Outside && s.frames == [] && f.GeomFeature?
    requires Run(s.(phase := Opened, frames := []), es) ==
      Success(s.(values := s.values + FeatureText(f), phase := Filled, frames := []))
    ensures Run(s, [FeatStart] + es + [FeatEnd]) == Success(Sealed(s, f))
  {
    var s1 := s.(phase := Opened, frames := []);
    var s2 := s.(values := s.values + FeatureText(f), phase := Filled, frames := []);
    FeatStartRun(s);
    FeatEndSeals(s, f);
    RunChain(s, [FeatStart], es, s1, s2);
    RunChain(s, [FeatStart] + es, [FeatEnd], s2, Sealed(s, f));
  }

  /** feat_end after a geometry feature's text seals that feature. */
  lemma FeatEndSeals(s: WriterState, f: Feature)
    requires f.GeomFeature?
    ensures Run(s.(values := s.values + FeatureText(f), phase := Filled, frames := []), [FeatEnd]) == Success(Sealed(s, f))
  {
    var t := FeatureText(f);
    FeatEndRun(s.(values := s.values + t, phase := Filled, frames := []));
    assert |s.values + t| == |s.values| + |t|;
  }

  lemma GeomFeatureRun(s: WriterState, g: Geom)
    requires s.phase == Outside && s.frames == []
    requires WellFormedGeom(g)
    ensures Run(s, FeatureEvents(GeomFeature(g))) == Success(Sealed(s, GeomFeature(g)))
  {
    var s1 := s.(phase := Opened, frames := []);
    GeomRun(s1, g);
    assert FeatureText(GeomFeature(g)) == GeomText(g);
    BracketRun(s, GeomEvents(g), GeomFeature(g));
  }

  /** Between features, the events of a well-formed feature append its text,
      seal one entry and record whether it is null. */
  lemma FeatureRun(s: WriterState, f: Feature)
    requires s.phase == Outside && s.frames == []
    requires WellFormedFeature(f)
    ensures Run(s, FeatureEvents(f)) == Success(Sealed(s, f))
  {
    match f
    case NullFeature => NullFeatureRun(s);
    case GeomFeature(g) => GeomFeatureRun(s, g);
  }

  function Validity(fs: seq<Feature>): (v: seq<bool>)
    ensures |v| == |fs|
  {
    seq(|fs|, i requires 0 <= i < |fs| => fs[i].GeomFeature?)
  }

  function CountNulls(fs: seq<Feature>): nat
  {
    if fs == [] then 0
    else CountNulls(fs[..|fs| - 1]) + (if fs[|fs| - 1].NullFeature? then 1 else 0)
  }

  lemma {:induction false} CountNullsValidity(fs: seq<Feature>)
    ensures CountFalse(Validity(fs)) == CountNulls(fs)
    decreases |fs|
  {
    if fs != [] {
      var init := fs[..|fs| - 1];
      assert Validity(fs) == Validity(init) + [fs[|fs| - 1].GeomFeature?];
      CountFalseSnoc(Validity(init), fs[|fs| - 1].GeomFeature?);
      CountNullsValidity(init);
    }
  }

  lemma {:induction false} NoNullsAllValid(fs: seq<Feature>, i: int)
    requires CountNulls(fs) == 0 && 0 <= i < |fs|
    ensures fs[i].GeomFeature?
    decreases |fs|
  {
    if i < |fs| - 1 {
      NoNullsAllValid(fs[..|fs| - 1], i);
    }
  }

  /** The offsets cut the text into exactly the given texts, in order: one
      offset more than texts, starting at 0, never decreasing, the last at
      the end of the text. */
  predicate Delimits(values: string, offsets: seq<int>, texts: seq<string>)
  {
    && |offsets| == |texts| + 1
    && offsets[0] == 0
    && offsets[|texts|] == |values|
    && (forall i, j :: 0 <= i <= j <= |texts| ==> offsets[i] <= offsets[j])
    && (forall i :: 0 <= i < |texts| ==> values[offsets[i]..offsets[i + 1]] == texts[i])
  }

  lemma SnocMonotone(o: seq<int>, x: int)
    requires |o| > 0 && o[|o| - 1] <= x
    requires forall i, j :: 0 <= i <= j < |o| ==> o[i] <= o[j]
    ensures forall i, j :: 0 <= i <= j < |o| + 1 ==> (o + [x])[i] <= (o + [x])[j]
  {
    forall i, j | 0 <= i <= j < |o| + 1
      ensures (o + [x])[i] <= (o + [x])[j]
    {
      if i < j == |o| {
        assert o[i] <= o[|o| - 1];
      }
    }
  }

  /** Appending a text and an offset at its end delimits one more text and
      keeps every earlier one. */
  lemma DelimitsSnoc(values: string, offsets: seq<int>, texts: seq<string>, t: string)
    requires Delimits(values, offsets, texts)
    ensures Delimits(values + t, offsets + [|values| + |t|], texts + [t])
  {
    var values', offsets', texts' := values + t, offsets + [|values| + |t|], texts + [t];
    SnocMonotone(offsets, |values| + |t|);
    forall i | 0 <= i < |texts'|
      ensures values'[offsets'[i]..offsets'[i + 1]] == texts'[i]
    {
      if i < |texts| {
        assert offsets[i] <= offsets[i + 1] <= offsets[|texts|];
        assert values'[offsets[i]..offsets[i + 1]] == values[offsets[i]..offsets[i + 1]];
      } else {
        assert values'[|values|..] == t;
      }
    }
  }

  /** The text of each feature, in order. */
  function Texts(fs: seq<Feature>): (ts: seq<string>)
    ensures |ts| == |fs|
  {
    seq(|fs|, i requires 0 <= i < |fs| => FeatureText(fs[i]))
  }

  /** The state holds the entries of `fs`: its offsets delimit the texts of
      the features, with one validity flag per feature and the count of
      nulls, and no feature open. */
  predicate Represents(s: WriterState, fs: seq<Feature>)
  {
    && s.phase == Outside && s.frames == []
    && Delimits(s.values, s.offsets, Texts(fs))
    && s.validity == Validity(fs)
    && s.nullCount == CountNulls(fs)
  }

  /** Sealing the last feature of fs, in a state holding the entries of the
      others, gives a state holding the entries of fs: the new entry is
      added and every earlier one is kept. */
  lemma RepresentsSealed(s: WriterState, fs: seq<Feature>)
    requires |fs| > 0 && Represents(s, fs[..|fs| - 1])
    ensures Represents(Sealed(s, fs[|fs| - 1]), fs)
  {
    var init, f := fs[..|fs| - 1], fs[|fs| - 1];
    DelimitsSnoc(s.values, s.offsets, Texts(init), FeatureText(f));
    assert Texts(init) + [FeatureText(f)] == Texts(fs);
    assert Validity(fs) == Validity(init) + [f.GeomFeature?];
  }

  lemma RepresentsConsistent(s: WriterState, fs: seq<Feature>)
    requires Represents(s, fs)
    ensures Consistent(s)
  {
    CountNullsValidity(fs);
  }

  /** Feeding the events of well-formed features to a fresh writer succeeds
      and leaves it holding exactly those features' entries. */
  lemma {:induction false} StreamRun(fs: seq<Feature>)
    requires WellFormedFeatures(fs)
    ensures Run(Initial, StreamEvents(fs)).Success?
    ensures Represents(Run(Initial, StreamEvents(fs)).value, fs)
    decreases |fs|
  {
    if fs == [] {
      assert Run(Initial, []) == Success(Initial);
    } else {
      var init := fs[..|fs| - 1];
      var f := fs[|fs| - 1];
      assert init + [f] == fs;
      assert WellFormedFeatures(init);
      assert WellFormedFeature(f);
      StreamRun(init);
      var s := Run(Initial, StreamEvents(init)).value;
      FeatureRun(s, f);
      StreamEventsSnoc(init, f);
      RunChain(Initial, StreamEvents(init), FeatureEvents(f), s, Sealed(s, f));
      RepresentsSealed(s, fs);
    }
  }

  /** The writer's contract: after the events of any well-formed features
      and Finish, the column has one entry per feature, each entry is the
      feature's WKT (null for a null feature), the null count is the number
      of null features, the validity bitmap is absent exactly when nothing
      is null, and the writer is reset for reuse. */
  lemma FinishEntry(s: WriterState, fs: seq<Feature>, i: int)
    requires Represents(s, fs) && 0 <= i < |fs|
    ensures Consistent(s) && FinishState(s).Success?
    ensures Entry(FinishState(s).value.0, i) == FeatureWkt(fs[i])
  {
    RepresentsConsistent(s, fs);
    var col := FinishState(s).value.0;
    assert Texts(fs)[i] == FeatureText(fs[i]);
    if col.validity.None? {
      NoNullsAllValid(fs, i);
    }
  }

  /** Finishing a writer that holds the entries of fs gives the column of fs. */
  lemma FinishRepresents(s: WriterState, fs: seq<Feature>)
    requires Represents(s, fs)
    ensures FinishState(s).Success?
    ensures var (col, after) := FinishState(s).value;
      && ColumnValid(col)
      && col.length == |fs|
      && col.nullCount == CountNulls(fs)
      && (col.validity.None? <==> CountNulls(fs) == 0)
      && (forall i :: 0 <= i < |fs| ==> Entry(col, i) == FeatureWkt(fs[i]))
      && after == Initial
  {
    RepresentsConsistent(s, fs);
    forall i | 0 <= i < |fs|
      ensures Entry(FinishState(s).value.0, i) == FeatureWkt(fs[i])
    {
      FinishEntry(s, fs, i);
    }
  }

  lemma WriterColumn(fs: seq<Feature>)
    requires WellFormedFeatures(fs)
    ensures Run(Initial, StreamEvents(fs)).Success?
    ensures FinishState(Run(Initial, StreamEvents(fs)).value).Success?
    ensures var (col, after) := FinishState(Run(Initial, StreamEvents(fs)).value).value;
      && ColumnValid(col)
      && col.length == |fs|
      && col.nullCount == CountNulls(fs)
      && (col.validity.None? <==> CountNulls(fs) == 0)
      && (forall i :: 0 <= i < |fs| ==> Entry(col, i) == FeatureWkt(fs[i]))
      && after == Initial
  {
    StreamRun(fs);
    FinishRepresents(Run(Initial, StreamEvents(fs)).value, fs);
  }

  /** Reserve hints leave the writer as it is, so dropping them changes
      nothing about a session. */
  lemma {:induction false} RunWithoutHints(s: WriterState, es: seq<Event>)
    ensures Run(s, es) == Run(s, WithoutHints(es))
    decreases |es|
  {
    if es != [] {
      var init, e := es[..|es| - 1], es[|es| - 1];
      assert init + [e] == es;
      RunAppend(s, init, [e]);
      RunWithoutHints(s, init);
      assert [e][1..] == [];
      if IsHint(e) {
        assert WithoutHints(es) == WithoutHints(init) + [] == WithoutHints(init);
        match Run(s, init)
        case Failure(_) =>
        case Success(s') => assert Step(s', e) == Success(s');
      } else {
        RunAppend(s, WithoutHints(init), [e]);
      }
    }
  }

  /** The converse of WriterColumn: whatever calls a fresh writer accepts
      and then finishes, the column is that of some well-formed features,
      one entry per feature, each its WKT or a null. */
  lemma AcceptedColumn(es: seq<Event>) returns (fs: seq<Feature>)
    requires Run(Initial, es).Success?
    requires FinishState(Run(Initial, es).value).Success?
    ensures WellFormedFeatures(fs)
    ensures var (col, after) := FinishState(Run(Initial, es).value).value;
      && ColumnValid(col)
      && col.length == |fs|
      && col.nullCount == CountNulls(fs)
      && (col.validity.None? <==> CountNulls(fs) == 0)
      && (forall i :: 0 <= i < |fs| ==> Entry(col, i) == FeatureWkt(fs[i]))
      && after == Initial
  {
    assert ControlOf(Initial) == Control(Outside, []);
    fs := AcceptedFeatures(es);
    RunWithoutHints(Initial, es);
    WriterColumn(fs);
  }
}
