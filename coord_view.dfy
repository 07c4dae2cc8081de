/** Strided coordinate views: one interface over separate (one buffer per
    dimension) and interleaved (tuple-packed) coordinate buffers. Doubles are
    modelled as integers. */
module CoordViews {

  /** A coordinate view has room for at most this many value columns. */
  const MAX_VALUES: int := 4

  /** GeoArrowCoordView: one sequence per value column (four slots, of which
      the first nValues are used), the number of coordinates and the stride
      between two consecutive coordinates within a column. */
  datatype CoordView = CoordView(values: seq<seq<int>>, nCoords: int, nValues: int, coordsStride: int)

  /** Every coordinate of every used column lies inside that column. */
  predicate Valid(cv: CoordView)
  {
    && |cv.values| == MAX_VALUES
    && 1 <= cv.nValues <= MAX_VALUES
    && 0 <= cv.nCoords
    && 1 <= cv.coordsStride
    && forall col :: 0 <= col < cv.nValues ==>
         cv.nCoords == 0 || (cv.nCoords - 1) * cv.coordsStride < |cv.values[col]|
  }

  /** Scaling by a non-negative stride keeps order. */
  lemma MulMonotone(a: int, b: int, s: int)
    requires 0 <= a <= b && 0 <= s
    ensures 0 <= a * s <= b * s
  {
  }

  /** A smaller row starts at least one stride earlier. */
  lemma MulStrict(a: int, b: int, s: int)
    requires 0 <= a < b && 1 <= s
    ensures a * s + s <= b * s
  {
    MulMonotone(a + 1, b, s);
  }

  /** The position GEOARROW_COORD_VIEW_VALUE reads is inside the column for
      every coordinate of a valid view. */
  lemma ValueIndexInBounds(cv: CoordView, row: int, col: int)
    requires Valid(cv) && 0 <= row < cv.nCoords && 0 <= col < cv.nValues
    ensures 0 <= row * cv.coordsStride < |cv.values[col]|
  {
    MulMonotone(row, cv.nCoords - 1, cv.coordsStride);
  }

  /** GEOARROW_COORD_VIEW_VALUE: component col of coordinate row is read at
      values[col][row * coords_stride]. */
  function Value(cv: CoordView, row: int, col: int): int
    requires Valid(cv) && 0 <= row < cv.nCoords && 0 <= col < cv.nValues
  {
    ValueIndexInBounds(cv, row, col);
    cv.values[col][row * cv.coordsStride]
  }

  /** The values of one coordinate in slot order. */
  function Tuple(cv: CoordView, row: int): (t: seq<int>)
    requires Valid(cv) && 0 <= row < cv.nCoords
  {
    seq(cv.nValues, col requires 0 <= col < cv.nValues => Value(cv, row, col))
  }

  /** All coordinates of a view, in order. */
  function Tuples(cv: CoordView): (ts: seq<seq<int>>)
    requires Valid(cv)
  {
    seq(cv.nCoords, row requires 0 <= row < cv.nCoords => Tuple(cv, row))
  }

  /** Every coordinate of a valid view carries nValues values. */
  lemma TuplesShape(cv: CoordView)
    requires Valid(cv)
    ensures |Tuples(cv)| == cv.nCoords
    ensures forall row :: 0 <= row < cv.nCoords ==> |Tuples(cv)[row]| == cv.nValues
  {
  }

  /** A separate layout: column col is cols[col] and the stride is 1. */
  function Separate(cols: seq<seq<int>>, n: int): (cv: CoordView)
    requires 1 <= |cols| <= MAX_VALUES && 0 <= n
    requires forall col :: 0 <= col < |cols| ==> n <= |cols[col]|
    ensures Valid(cv) && cv.nCoords == n && cv.nValues == |cols|
  {
    CoordView(cols + seq(MAX_VALUES - |cols|, _ => []), n, |cols|, 1)
  }

  lemma InterleavedFits(buf: seq<int>, k: int, n: int)
    requires 1 <= k <= MAX_VALUES && 0 <= n && n * k <= |buf|
    ensures 0 < n ==> k <= |buf| && forall col :: 0 <= col < k ==> (n - 1) * k < |buf[col..]|
  {
    if 0 < n {
      MulMonotone(1, n, k);
      assert (n - 1) * k == n * k - k;
    }
  }

  /** An interleaved layout: one buffer holding n tuples of k values each;
      column col starts at position col and the stride is k. */
  function Interleaved(buf: seq<int>, k: int, n: int): (cv: CoordView)
    requires 1 <= k <= MAX_VALUES && 0 <= n && n * k <= |buf|
    ensures Valid(cv) && cv.nCoords == n && cv.nValues == k
  {
    InterleavedFits(buf, k, n);
    CoordView(seq(MAX_VALUES, col requires 0 <= col < MAX_VALUES =>
                if col < k && col < |buf| then buf[col..] else []), n, k, k)
  }

  /** Reading a separate layout returns the element of the named column. */
  lemma SeparateValue(cols: seq<seq<int>>, n: int, row: int, col: int)
    requires 1 <= |cols| <= MAX_VALUES && 0 <= n
    requires forall c :: 0 <= c < |cols| ==> n <= |cols[c]|
    requires 0 <= row < n && 0 <= col < |cols|
    ensures Value(Separate(cols, n), row, col) == cols[col][row]
  {
  }

  /** Reading an interleaved layout returns buf[row * k + col]. */
  lemma InterleavedValue(buf: seq<int>, k: int, n: int, row: int, col: int)
    requires 1 <= k <= MAX_VALUES && 0 <= n && n * k <= |buf|
    requires 0 <= row < n && 0 <= col < k
    ensures Value(Interleaved(buf, k, n), row, col) == buf[row * k + col]
  {
  }

  /** A smaller factor gives a product smaller by at least one step. */
  lemma MulGap(a: int, b: int, k: int)
    requires 0 < k
    ensures a < b ==> a * k + k <= b * k
  {
    if a < b {
      MulMonotone(1, b - a, k);
      assert (b - a) * k == b * k - a * k;
    }
  }

  /** Quotient and remainder are unique: an interleaved index splits into
      one row and one column. */
  lemma DivModUnique(a: int, k: int, q: int, r: int)
    requires 0 < k && 0 <= r < k && a == q * k + r
    ensures a / k == q && a % k == r
  {
    MulGap(a / k, q, k);
    MulGap(q, a / k, k);
  }

  /** A quotient by k of something below n * k is below n. */
  lemma DivBelow(i: int, k: int, n: int)
    requires 0 < k && 0 <= i < n * k
    ensures 0 <= i / k < n
  {
    MulGap(n - 1, i / k, k);
    assert (n - 1) * k + k == n * k;
  }

  /** Packs n coordinates held in separate columns into one interleaved buffer. */
  function Interleave(cols: seq<seq<int>>, n: int): (buf: seq<int>)
    requires 1 <= |cols| <= MAX_VALUES && 0 <= n
    requires forall col :: 0 <= col < |cols| ==> n <= |cols[col]|
    ensures |buf| == n * |cols|
  {
    var k := |cols|;
    seq(n * k, i requires 0 <= i < n * k =>
      DivBelow(i, k, n);
      cols[i % k][i / k])
  }

  /** One value read through both layouts. */
  lemma ValueAgrees(cols: seq<seq<int>>, n: int, row: int, col: int)
    requires 1 <= |cols| <= MAX_VALUES && 0 <= n
    requires forall c :: 0 <= c < |cols| ==> n <= |cols[c]|
    requires 0 <= row < n && 0 <= col < |cols|
    ensures Value(Separate(cols, n), row, col) == Value(Interleaved(Interleave(cols, n), |cols|, n), row, col)
  {
    var k := |cols|;
    var i := row * k + col;
    MulStrict(row, n, k);
    DivModUnique(i, k, row, col);
    InterleaveAt(cols, n, i);
    InterleavedValue(Interleave(cols, n), k, n, row, col);
    SeparateValue(cols, n, row, col);
  }

  lemma InterleaveAt(cols: seq<seq<int>>, n: int, i: int)
    requires 1 <= |cols| <= MAX_VALUES && 0 <= n
    requires forall c :: 0 <= c < |cols| ==> n <= |cols[c]|
    requires 0 <= i < n * |cols|
    ensures 0 <= i / |cols| < n
    ensures Interleave(cols, n)[i] == cols[i % |cols|][i / |cols|]
  {
    DivBelow(i, |cols|, n);
  }

  /** One coordinate read through both layouts. */
  lemma TupleAgrees(cols: seq<seq<int>>, n: int, row: int)
    requires 1 <= |cols| <= MAX_VALUES && 0 <= n
    requires forall c :: 0 <= c < |cols| ==> n <= |cols[c]|
    requires 0 <= row < n
    ensures Tuple(Separate(cols, n), row) == Tuple(Interleaved(Interleave(cols, n), |cols|, n), row)
  {
    forall col | 0 <= col < |cols|
      ensures Value(Separate(cols, n), row, col) == Value(Interleaved(Interleave(cols, n), |cols|, n), row, col)
    {
      ValueAgrees(cols, n, row, col);
    }
  }

  /** The two layouts expose the same coordinates through the same accessor:
      reading separate columns and reading them interleaved gives equal tuples. */
  lemma LayoutsAgree(cols: seq<seq<int>>, n: int)
    requires 1 <= |cols| <= MAX_VALUES && 0 <= n
    requires forall col :: 0 <= col < |cols| ==> n <= |cols[col]|
    ensures Tuples(Separate(cols, n)) == Tuples(Interleaved(Interleave(cols, n), |cols|, n))
  {
    forall row | 0 <= row < n
      ensures Tuple(Separate(cols, n), row) == Tuple(Interleaved(Interleave(cols, n), |cols|, n), row)
    {
      TupleAgrees(cols, n, row);
    }
  }

  // -----------------------------------------------------------------------
  // Writable coordinate views

  /** GeoArrowWritableCoordView: the same addressing over growable columns,
      with a size (coordinates written) and a capacity (coordinates that fit). */
  datatype WritableCoordView = WritableCoordView(
    values: seq<seq<int>>, sizeCoords: int, capacityCoords: int, nValues: int, coordsStride: int)

  /** Size never exceeds capacity, and every column has room for capacity
      coordinates. */
  predicate WritableValid(w: WritableCoordView)
  {
    && |w.values| == MAX_VALUES
    && 1 <= w.nValues <= MAX_VALUES
    && 1 <= w.coordsStride
    && 0 <= w.sizeCoords <= w.capacityCoords
    && forall col :: 0 <= col < w.nValues ==> w.capacityCoords * w.coordsStride <= |w.values[col]|
  }

  function WrittenValue(w: WritableCoordView, row: int, col: int): int
    requires WritableValid(w) && 0 <= row < w.sizeCoords && 0 <= col < w.nValues
  {
    MulStrict(row, w.capacityCoords, w.coordsStride);
    w.values[col][row * w.coordsStride]
  }

  /** The coordinates written so far, in order. */
  function Written(w: WritableCoordView): seq<seq<int>>
    requires WritableValid(w)
  {
    seq(w.sizeCoords, row requires 0 <= row < w.sizeCoords =>
      seq(w.nValues, col requires 0 <= col < w.nValues => WrittenValue(w, row, col)))
  }

  function Max(a: int, b: int): int { if a < b then b else a }

  /** Widens every used column to hold newCapacity coordinates, padding
      with zeros. */
  function Widen(w: WritableCoordView, newCapacity: int): (r: WritableCoordView)
    requires WritableValid(w) && w.capacityCoords <= newCapacity
    ensures WritableValid(r) && r.capacityCoords == newCapacity
    ensures r.sizeCoords == w.sizeCoords && r.nValues == w.nValues && r.coordsStride == w.coordsStride
  {
    var grow := (newCapacity - w.capacityCoords) * w.coordsStride;
    MulMonotone(w.capacityCoords, newCapacity, w.coordsStride);
    assert newCapacity * w.coordsStride == w.capacityCoords * w.coordsStride + grow;
    w.(values := seq(MAX_VALUES, col requires 0 <= col < MAX_VALUES =>
         if col < w.nValues then w.values[col] + seq(grow, _ => 0) else w.values[col]),
       capacityCoords := newCapacity)
  }

  /** Widening leaves each written coordinate as it was. */
  lemma WidenKeeps(w: WritableCoordView, newCapacity: int, row: int)
    requires WritableValid(w) && w.capacityCoords <= newCapacity && 0 <= row < w.sizeCoords
    ensures Written(Widen(w, newCapacity))[row] == Written(w)[row]
  {
    var r := Widen(w, newCapacity);
    MulStrict(row, w.capacityCoords, w.coordsStride);
    forall col | 0 <= col < w.nValues
      ensures WrittenValue(r, row, col) == WrittenValue(w, row, col)
    {
      assert r.values[col] == w.values[col] + seq((newCapacity - w.capacityCoords) * w.coordsStride, _ => 0);
    }
  }

  /** Grows the capacity to newCapacity; what was written is untouched. */
  function Grow(w: WritableCoordView, newCapacity: int): (r: WritableCoordView)
    requires WritableValid(w) && w.capacityCoords <= newCapacity
    ensures WritableValid(r) && r.capacityCoords == newCapacity
    ensures r.sizeCoords == w.sizeCoords && r.nValues == w.nValues && r.coordsStride == w.coordsStride
    ensures Written(r) == Written(w)
  {
    var r := Widen(w, newCapacity);
    forall row | 0 <= row < w.sizeCoords
      ensures Written(r)[row] == Written(w)[row]
    {
      WidenKeeps(w, newCapacity, row);
    }
    r
  }

  /** Makes room for additional more coordinates: keeps what was written,
      never shrinks, and when it grows it at least doubles the capacity. */
  function Reserve(w: WritableCoordView, additional: int): (r: WritableCoordView)
    requires WritableValid(w)
    ensures WritableValid(r)
    ensures r.sizeCoords == w.sizeCoords && r.nValues == w.nValues && r.coordsStride == w.coordsStride
    ensures r.capacityCoords >= r.sizeCoords + additional
    ensures r.capacityCoords >= w.capacityCoords
    ensures r.capacityCoords > w.capacityCoords ==> r.capacityCoords >= 2 * w.capacityCoords
    ensures Written(r) == Written(w)
  {
    if additional <= w.capacityCoords - w.sizeCoords then w
    else Grow(w, Max(2 * w.capacityCoords, w.sizeCoords + additional))
  }

  /** Writes t as coordinate number size of a view that has room for it. */
  function Store(g: WritableCoordView, t: seq<int>): (r: WritableCoordView)
    requires WritableValid(g) && g.sizeCoords < g.capacityCoords && |t| == g.nValues
    ensures WritableValid(r)
    ensures r.sizeCoords == g.sizeCoords + 1 && r.capacityCoords == g.capacityCoords
    ensures r.nValues == g.nValues && r.coordsStride == g.coordsStride
  {
    var at := g.sizeCoords * g.coordsStride;
    MulStrict(g.sizeCoords, g.capacityCoords, g.coordsStride);
    g.(values := seq(MAX_VALUES, col requires 0 <= col < MAX_VALUES =>
          if col < g.nValues then g.values[col][at := t[col]] else g.values[col]),
       sizeCoords := g.sizeCoords + 1)
  }

  lemma StoreKeeps(g: WritableCoordView, t: seq<int>, row: int)
    requires WritableValid(g) && g.sizeCoords < g.capacityCoords && |t| == g.nValues
    requires 0 <= row < g.sizeCoords
    ensures Written(Store(g, t))[row] == Written(g)[row]
  {
    MulStrict(row, g.sizeCoords, g.coordsStride);
    MulStrict(row, g.capacityCoords, g.coordsStride);
  }

  lemma StoreWrites(g: WritableCoordView, t: seq<int>)
    requires WritableValid(g) && g.sizeCoords < g.capacityCoords && |t| == g.nValues
    ensures Written(Store(g, t))[g.sizeCoords] == t
  {
    MulStrict(g.sizeCoords, g.capacityCoords, g.coordsStride);
  }

  /** Appends one coordinate: afterwards the written coordinates are the old
      ones followed by the new tuple, and size is still within capacity. */
  function Append(w: WritableCoordView, t: seq<int>): (r: WritableCoordView)
    requires WritableValid(w) && |t| == w.nValues
    ensures WritableValid(r)
    ensures r.sizeCoords == w.sizeCoords + 1 && r.capacityCoords >= w.capacityCoords
    ensures Written(r) == Written(w) + [t]
  {
    var g := Reserve(w, 1);
    var r := Store(g, t);
    forall row | 0 <= row < g.sizeCoords
      ensures Written(r)[row] == Written(g)[row]
    {
      StoreKeeps(g, t, row);
    }
    StoreWrites(g, t);
    r
  }
}
