/** The buffer and array views of geoarrow_type.h: growable byte buffers
    that pair a size with a capacity, the read-only decomposition of a
    geometry array into a validity bitmap, up to three levels of offsets and
    a coordinate view, and the writable view a builder fills. */
module ArrayViews {
  import opened Wrappers
  import opened GeoArrowTypes
  import CoordViews

  /** GeoArrowArrayView holds at most this many offset levels... */
  const MAX_OFFSETS: int := 3
  /** ...and GeoArrowWritableArrayView at most this many buffers. */
  const MAX_BUFFERS: int := 8

  // -----------------------------------------------------------------------
  // Buffer views

  /** GeoArrowBufferView: borrowed bytes; size_bytes is their number. */
  datatype BufferView = BufferView(data: seq<bv8>)

  /** GeoArrowWritableBufferView: an allocation of capacity_bytes bytes of
      which the first size_bytes are in use. */
  datatype WritableBufferView = WritableBufferView(data: seq<bv8>, sizeBytes: int, capacityBytes: int)

  predicate BufferValid(b: WritableBufferView)
  {
    0 <= b.sizeBytes <= b.capacityBytes == |b.data|
  }

  /** The bytes written so far. */
  function Bytes(b: WritableBufferView): seq<bv8>
    requires BufferValid(b)
  {
    b.data[..b.sizeBytes]
  }

  /** Makes room for additional more bytes: keeps what was written, never
      shrinks, and when it grows it at least doubles the capacity. */
  function ReserveBytes(b: WritableBufferView, additional: int): (r: WritableBufferView)
    requires BufferValid(b)
    ensures BufferValid(r)
    ensures r.sizeBytes == b.sizeBytes && Bytes(r) == Bytes(b)
    ensures r.capacityBytes >= r.sizeBytes + additional
    ensures r.capacityBytes >= b.capacityBytes
    ensures r.capacityBytes > b.capacityBytes ==> r.capacityBytes >= 2 * b.capacityBytes
  {
    if additional <= b.capacityBytes - b.sizeBytes then b
    else
      var capacity := CoordViews.Max(2 * b.capacityBytes, b.sizeBytes + additional);
      var r := b.(data := b.data + seq(capacity - b.capacityBytes, _ => 0), capacityBytes := capacity);
      assert Bytes(r) == Bytes(b);
      r
  }

  /** Appends bytes: what was written is followed by them, and the size
      stays within the capacity. */
  function AppendBytes(b: WritableBufferView, bytes: seq<bv8>): (r: WritableBufferView)
    requires BufferValid(b)
    ensures BufferValid(r)
    ensures Bytes(r) == Bytes(b) + bytes
    ensures r.capacityBytes >= b.capacityBytes
  {
    var g := ReserveBytes(b, |bytes|);
    var at := g.sizeBytes;
    var r := g.(data := g.data[..at] + bytes + g.data[at + |bytes|..], sizeBytes := at + |bytes|);
    assert Bytes(r) == g.data[..at] + bytes;
    r
  }

  // -----------------------------------------------------------------------
  // Array views

  /** The parts of GeoArrowSchemaView an array view is read with. */
  datatype SchemaView = SchemaView(
    geoType: GeoArrowType, geometryType: GeometryType, dimensions: Dimensions, coordType: CoordType)

  /** The schema names a structured type whose kind and dimensions it also
      records. */
  predicate SchemaValid(sv: SchemaView)
  {
    TypeParts(sv.geoType) == Some((sv.geometryType, sv.dimensions))
  }

  /** The number of offset levels a kind's array nests above its
      coordinates: one per list (a linestring is a list of coordinates, a
      polygon a list of rings, a multi-geometry a list of its parts). */
  function OffsetLevels(g: GeometryType): (n: int)
  {
    match g
    case Point => 0
    case LineString => 1
    case Polygon => 2
    case MultiPoint => 1
    case MultiLineString => 2
    case MultiPolygon => 3
    case _ => 0
  }

  /** No structured kind needs more offset levels than an array view has. */
  lemma OffsetLevelsBound(g: GeometryType)
    ensures 0 <= OffsetLevels(g) <= MAX_OFFSETS
    ensures OffsetLevels(g) == MAX_OFFSETS <==> g == MultiPolygon
  {
  }

  /** A multi-geometry nests one list above its part, and a polygon one
      above a linestring (its ring). */
  lemma MultiAddsLevel()
    ensures OffsetLevels(MultiPoint) == OffsetLevels(Point) + 1
    ensures OffsetLevels(MultiLineString) == OffsetLevels(LineString) + 1
    ensures OffsetLevels(MultiPolygon) == OffsetLevels(Polygon) + 1
    ensures OffsetLevels(Polygon) == OffsetLevels(LineString) + 1
  {
  }

  /** GeoArrowArrayView: length features, an optional validity bitmap,
      n_offsets offset buffers each with its last offset, and the
      coordinates. */
  datatype ArrayView = ArrayView(
    schema: SchemaView,
    length: int,
    validity: Option<seq<bool>>,
    nOffsets: int,
    offsets: seq<seq<int>>,
    lastOffset: seq<int>,
    coords: CoordViews.CoordView)

  /** The number of elements at level k: features at level 0, coordinates
      below the last offset level. */
  function Count(av: ArrayView, k: int): int
    requires 0 <= k <= av.nOffsets && |av.offsets| >= av.nOffsets
  {
    if k == 0 then av.length
    else if k == av.nOffsets then av.coords.nCoords
    else |av.offsets[k]| - 1
  }

  predicate Monotone(s: seq<int>)
  {
    forall i, j :: 0 <= i <= j < |s| ==> s[i] <= s[j]
  }

  /** The offset levels fit the kind; level k has one offset more than it
      has elements, starts at or after 0, never decreases, and ends (its
      last offset) at the number of elements of the level below. */
  predicate ArrayValid(av: ArrayView)
  {
    && SchemaValid(av.schema)
    && CoordViews.Valid(av.coords)
    && av.length >= 0
    && (av.validity.Some? ==> |av.validity.value| == av.length)
    && av.nOffsets == OffsetLevels(av.schema.geometryType)
    && |av.offsets| == MAX_OFFSETS && |av.lastOffset| == MAX_OFFSETS
    && (av.nOffsets == 0 ==> av.length == av.coords.nCoords)
    && forall k :: 0 <= k < av.nOffsets ==>
         && |av.offsets[k]| >= 1
         && |av.offsets[k]| == Count(av, k) + 1
         && 0 <= av.offsets[k][0]
         && Monotone(av.offsets[k])
         && av.lastOffset[k] == av.offsets[k][|av.offsets[k]| - 1]
         && av.lastOffset[k] == Count(av, k + 1)
  }

  lemma OffsetsBounded(av: ArrayView, k: int, i: int)
    requires ArrayValid(av) && 0 <= k < av.nOffsets && 0 <= i <= Count(av, k)
    ensures 0 <= av.offsets[k][i] <= Count(av, k + 1)
  {
    var s := av.offsets[k];
    assert s[0] <= s[i] <= s[|s| - 1];
  }

  /** Element i of level k located among the coordinates: follow the
      offsets down to the coordinate level. Index Count(av, k) (one past
      the last element) is allowed, so that element i spans
      [Locate(k, i), Locate(k, i + 1)). */
  function Locate(av: ArrayView, k: int, i: int): (j: int)
    requires ArrayValid(av) && 0 <= k <= av.nOffsets && 0 <= i <= Count(av, k)
    ensures 0 <= j <= av.coords.nCoords
    decreases av.nOffsets - k
  {
    if k == av.nOffsets then i
    else
      OffsetsBounded(av, k, i);
      Locate(av, k + 1, av.offsets[k][i])
  }

  /** Later elements start no earlier. */
  lemma {:induction false} LocateMonotone(av: ArrayView, k: int, i: int, j: int)
    requires ArrayValid(av) && 0 <= k <= av.nOffsets && 0 <= i <= j <= Count(av, k)
    ensures Locate(av, k, i) <= Locate(av, k, j)
    decreases av.nOffsets - k
  {
    if k < av.nOffsets {
      OffsetsBounded(av, k, i);
      OffsetsBounded(av, k, j);
      assert av.offsets[k][i] <= av.offsets[k][j];
      LocateMonotone(av, k + 1, av.offsets[k][i], av.offsets[k][j]);
    }
  }

  /** The coordinates of feature i: a run of the coordinate view, in
      bounds. */
  function FeatureCoords(av: ArrayView, i: int): (run: (int, int))
    requires ArrayValid(av) && 0 <= i < av.length
    ensures 0 <= run.0 <= run.1 <= av.coords.nCoords
  {
    LocateMonotone(av, 0, i, i + 1);
    (Locate(av, 0, i), Locate(av, 0, i + 1))
  }

  /** The runs of features come in feature order and never overlap. */
  lemma FeaturesInOrder(av: ArrayView, i: int, j: int)
    requires ArrayValid(av) && 0 <= i < j < av.length
    ensures FeatureCoords(av, i).1 <= FeatureCoords(av, j).0
  {
    LocateMonotone(av, 0, i + 1, j);
  }

  // -----------------------------------------------------------------------
  // Writable array views and builders

  /** GeoArrowWritableArrayView: n_buffers buffers in use out of eight, and
      a writable coordinate view. */
  datatype WritableArrayView = WritableArrayView(
    schema: SchemaView,
    length: int,
    nBuffers: int,
    buffers: seq<WritableBufferView>,
    coords: CoordViews.WritableCoordView)

  predicate WritableArrayValid(v: WritableArrayView)
  {
    && v.length >= 0
    && 0 <= v.nBuffers <= MAX_BUFFERS
    && |v.buffers| == MAX_BUFFERS
    && (forall i :: 0 <= i < MAX_BUFFERS ==> BufferValid(v.buffers[i]))
    && CoordViews.WritableValid(v.coords)
  }

  /** Appends bytes to buffer i, one of those in use; every other buffer
      and the coordinates are left as they were. */
  function AppendToBuffer(v: WritableArrayView, i: int, bytes: seq<bv8>): (r: WritableArrayView)
    requires WritableArrayValid(v) && 0 <= i < v.nBuffers
    ensures WritableArrayValid(r)
    ensures Bytes(r.buffers[i]) == Bytes(v.buffers[i]) + bytes
    ensures forall j :: 0 <= j < MAX_BUFFERS && j != i ==> r.buffers[j] == v.buffers[j]
    ensures r.nBuffers == v.nBuffers && r.length == v.length && r.coords == v.coords
  {
    v.(buffers := v.buffers[i := AppendBytes(v.buffers[i], bytes)])
  }

  /** Appends one coordinate to the writable coordinate view; the buffers
      are left as they were. */
  function AppendCoord(v: WritableArrayView, t: seq<int>): (r: WritableArrayView)
    requires WritableArrayValid(v) && |t| == v.coords.nValues
    ensures WritableArrayValid(r)
    ensures CoordViews.Written(r.coords) == CoordViews.Written(v.coords) + [t]
    ensures r.buffers == v.buffers && r.nBuffers == v.nBuffers && r.length == v.length
  {
    v.(coords := CoordViews.Append(v.coords, t))
  }

  /** GeoArrowBuilder: a writable view (its private state is not modelled). */
  datatype Builder = Builder(view: WritableArrayView)
}
