# geoarrow-c: the WKT writer contract and the type catalog

This project models two parts of geoarrow-c.

The first is the WKT writer seen as a consumer of the push-style visitor protocol. A session receives the
visitor callbacks `feat_start`, `null_feat`, `geom_start(kind, dims)`, `ring_start`, `coords`,
`ring_end`, `geom_end` and `feat_end`. `GeoArrowWKTWriterFinish` then turns what it received into a
string column. That column has one entry per feature, a null count, and a validity bitmap that is
present only when some entry is null. Each entry is Well-known Text as defined in clause 7 of OGC
Simple Feature Access Part 1 (OGC 06-103r4). An entry is the keyword, then an optional ` Z`, ` M` or
` ZM`, then either ` EMPTY` or a parenthesised list of coordinates. The writer's C implementation is
not part of this model. Its contract is the one fixed by `src/geoarrow/wkt_writer_test.cc`:

- `Visitor` states the call order a consumer accepts and the event stream a producer emits for a
  sequence of features.
- `WktText` states what the text of a feature is.
- `WktWriter` gives the writer's state and one step per callback. It proves that playing the events
  of any well-formed sequence of features, then finishing, yields exactly their texts.
- `WktWriterObject` is the writer as a class. It has one method per callback, and each method is
  proved to follow the step function. Formatting a coordinate view is a loop.
- `WktWriterSessions` replays each test of `wkt_writer_test.cc` as a sequence of method calls on one
  writer object. It proves that every call returns `GEOARROW_OK` and that the finished column holds the
  asserted entries.
- `WktWriterScenarios` states the same tests on the step function. It also covers the call orders the
  writer refuses.

The second part is the type catalog and the views declared in `src/geoarrow/geoarrow_type.h`:

- `GeoArrowTypes` holds the closed enums and their numeric codes. It maps (geometry kind, dimensions)
  one-to-one onto the 24 structured `GeoArrowType` values and back.
- `CoordViews` holds the strided coordinate view `GEOARROW_COORD_VIEW_VALUE`, and the writable
  coordinate view with its size and capacity.
- `ArrayViews` holds the buffer views, the array view with at most three offset levels, the writable
  array view with at most eight buffers, and the builder.

`geom_start` accepts any `GeoArrowDimensions`. Unknown dimensions print with no tag, as XY does, which is what the test helper `WKTEmpty` prints for them.

Coordinates are integers, printed in decimal. This stands in for the shortest round-trip formatting
of doubles, and the tests only use small integral values.

## Model

| member | source | states |
|---|---|---|
| GeoArrowTypes.GeometryTypeCodeRoundTrip | src/geoarrow/geoarrow_type.h:163-172 | the eight geometry kinds have codes 0..7; decoding a code gives the kind back, and exactly the codes 0..7 decode |
| GeoArrowTypes.DimensionsCodeRoundTrip | src/geoarrow/geoarrow_type.h:174-180 | dimensions have codes 0..4 and decode back; exactly 0..4 decode |
| GeoArrowTypes.CoordTypeCodeRoundTrip | src/geoarrow/geoarrow_type.h:182-186 | coordinate layouts have codes 0..2 and decode back; exactly 0..2 decode |
| GeoArrowTypes.TypeCodeRoundTrip | src/geoarrow/geoarrow_type.h:128-161 | every GeoArrowType decodes back from its enum position |
| GeoArrowTypes.TypeFromCodeInverse | src/geoarrow/geoarrow_type.h:128-161 | exactly the codes 0..26 name a GeoArrowType, and encoding the decoded type gives the code back |
| GeoArrowTypes.TypeFromCodeParts | src/geoarrow/geoarrow_type.h:134-161 | code c in 3..26 is the structured type of kind (c-3)%6+1 and dimensions (c-3)/6+1: four blocks of six kinds in kind order |
| GeoArrowTypes.MakeTypeFails | src/geoarrow/geoarrow_type.h:163-180 | building a structured type fails exactly for GEOMETRY, GEOMETRYCOLLECTION or unknown dimensions |
| GeoArrowTypes.MakeTypeNamesPair | src/geoarrow/geoarrow_type.h:134-161 | the type built from (kind, dims) has exactly that kind and those dimensions |
| GeoArrowTypes.MakeTypeInvertsParts | src/geoarrow/geoarrow_type.h:128-180 | building from (kind, dims) gives t if and only if t decomposes into (kind, dims) |
| GeoArrowTypes.MakeTypeInjective | src/geoarrow/geoarrow_type.h:134-161 | distinct (kind, dims) pairs give distinct structured types |
| GeoArrowTypes.StructuredTypeCode | src/geoarrow/geoarrow_type.h:134-161 | a structured type's code is 3 + 6*(dims-1) + (kind-1) |
| GeoArrowTypes.TypePartsFails | src/geoarrow/geoarrow_type.h:128-133 | exactly UNINITIALIZED, WKB and LARGE_WKB have no (kind, dims) pair |
| GeoArrowTypes.SlotsLayout | src/geoarrow/geoarrow_type.h:213-218 | a coordinate has 2 to 4 values: X, Y, then Z if present, then M if present |
| CoordViews.Separate | src/geoarrow/geoarrow_type.h:213-218 | per-column buffers with stride 1 make a valid view of n coordinates with one value per column |
| CoordViews.Interleaved | src/geoarrow/geoarrow_type.h:213-218 | one buffer with stride n_values makes a valid view of n coordinates |
| CoordViews.TuplesShape | src/geoarrow/geoarrow_type.h:213-229 | reading a view gives n_coords tuples of n_values values each |
| CoordViews.SeparateValue | src/geoarrow/geoarrow_type.h:228-229 | with stride 1, value (row, col) is values[col][row] |
| CoordViews.InterleavedValue | src/geoarrow/geoarrow_type.h:228-229 | with stride k, value (row, col) is buf[row*k + col] |
| CoordViews.LayoutsAgree | src/geoarrow/geoarrow_type.h:213-229 | the separate view of some columns and the interleaved view of their interleaving read the same tuples |
| CoordViews.Reserve | src/geoarrow/geoarrow_type.h:220-226 | reserving keeps the coordinates written so far, keeps size <= capacity, makes room for the requested coordinates and never shrinks; it at least doubles when it grows (the model's own growth policy) |
| CoordViews.StoreKeeps | src/geoarrow/geoarrow_type.h:220-229 | storing a coordinate leaves earlier coordinates unchanged |
| CoordViews.StoreWrites | src/geoarrow/geoarrow_type.h:220-229 | the stored coordinate reads back at index size_coords |
| CoordViews.Append | src/geoarrow/geoarrow_type.h:220-226 | appending adds exactly one coordinate at the end and keeps size <= capacity |
| ArrayViews.ReserveBytes | src/geoarrow/geoarrow_type.h:112-122 | reserving bytes keeps the written bytes, keeps size <= capacity and makes room for the request; it at least doubles when it grows (the model's own growth policy) |
| ArrayViews.AppendBytes | src/geoarrow/geoarrow_type.h:112-122 | appending bytes makes the written bytes the old ones followed by the new ones |
| ArrayViews.OffsetLevelsBound | src/geoarrow/geoarrow_type.h:231-239 | no kind needs more than the three offset levels an array view has; only MultiPolygon needs three |
| ArrayViews.MultiAddsLevel | src/geoarrow/geoarrow_type.h:231-239 | a multi-geometry nests one level above its part, and a polygon one level above a linestring |
| ArrayViews.OffsetsBounded | src/geoarrow/geoarrow_type.h:231-239 | every offset of level k lies between 0 and the length of level k+1 |
| ArrayViews.Locate | src/geoarrow/geoarrow_type.h:231-239 | following the offsets of a valid view from any level lands inside the coordinates |
| ArrayViews.LocateMonotone | src/geoarrow/geoarrow_type.h:231-239 | later elements start no earlier among the coordinates |
| ArrayViews.FeatureCoords | src/geoarrow/geoarrow_type.h:231-239 | each feature owns a run of coordinates inside the coordinate view |
| ArrayViews.FeaturesInOrder | src/geoarrow/geoarrow_type.h:231-239 | the coordinate runs of features follow feature order and never overlap |
| ArrayViews.AppendToBuffer | src/geoarrow/geoarrow_type.h:241-247 | appending to one of the (at most eight) buffers extends that buffer and leaves the others and the coordinates unchanged |
| ArrayViews.AppendCoord | src/geoarrow/geoarrow_type.h:241-247 | appending a coordinate extends the writable coordinates by it and leaves every buffer unchanged |
| Visitor.ViewIsBatch | src/geoarrow/geoarrow_type.h:254-266 | the coordinates a coords callback receives are n_coords tuples of one common width between 1 and 4 |
| Visitor.Advance | src/geoarrow/geoarrow_type.h:254-266 | the model's call order for the ten callbacks: feat_end is accepted only after null_feat or a whole geometry, and it closes the feature |
| Visitor.RunProtocolAppend | src/geoarrow/geoarrow_type.h:254-266 | checking a concatenation of calls checks the first part, then the second from where the first left off |
| Visitor.GeomEventsAccepted | src/geoarrow/wkt_writer_test.cc:114-132 | the calls for any well-formed geometry are accepted, and end with a complete geometry |
| Visitor.FeatureEventsAccepted | src/geoarrow/wkt_writer_test.cc:45-47 | the calls for any well-formed feature, null or not, are accepted and return to between features |
| Visitor.StreamWellFormed | src/geoarrow/wkt_writer_test.cc:71-79 | the calls for any sequence of well-formed features are accepted and end between features |
| Visitor.AcceptedProgress | src/geoarrow/geoarrow_type.h:254-266 | any call sequence accepted from between features is, with hints dropped, the calls of some well-formed features followed by the calls of one unfinished feature |
| Visitor.AcceptedFeatures | src/geoarrow/geoarrow_type.h:254-266 | an accepted call sequence that ends between features is, with hints dropped, exactly the calls of some well-formed features |
| Visitor.RunProtocolWithoutHints | src/geoarrow/geoarrow_type.h:255-256 | the reserve hints are accepted anywhere and change nothing: dropping them does not change what the call order makes of a sequence |
| Visitor.WellFormedStreamIff | src/geoarrow/geoarrow_type.h:254-266 | a call sequence is a well-formed session if and only if, with hints dropped, it is the calls of some well-formed features |
| Visitor.StreamEventsSnoc | src/geoarrow/wkt_writer_test.cc:71-79 | the calls for features f1..fn then f are those for f1..fn followed by those for f |
| WktText.EmptyGeomText | src/geoarrow/wkt_writer_test.cc:8-31 | an empty geometry prints as keyword, dimension suffix and " EMPTY", and an empty feature's entry is not the null entry |
| WktEmit.EmitClosed | src/geoarrow/wkt_writer_test.cc:292 | writing " (" or ", " before each part and ")" after the last gives the parts joined by ", " in parentheses |
| WktEmit.JoinEmit | src/geoarrow/wkt_writer_test.cc:292 | joining parts with ", " is the first part followed by the separator-led rest |
| WktWriter.Step | src/geoarrow/geoarrow_type.h:254-266 | a callback succeeds exactly when the model's call order allows it; otherwise it fails with the model's code EINVAL; a success moves the protocol state as the call order says |
| WktWriter.Run | src/geoarrow/geoarrow_type.h:254-266 | a sequence of callbacks succeeds exactly when the call order accepts all of it |
| WktWriter.StepConsistent | src/geoarrow/wkt_writer_test.cc:45-47 | every accepted callback keeps the text, offsets and validity consistent, and only appends to the text and the offsets |
| WktWriter.FinishState | src/geoarrow/wkt_writer_test.cc:50-52 | finishing fails with EINVAL inside a feature; otherwise it returns a valid column holding the text, one entry per finished feature, and resets the writer |
| WktWriter.CoordsRun | src/geoarrow/wkt_writer_test.cc:254-257 | coords calls print their tuples in call order |
| WktWriter.RingsRun | src/geoarrow/wkt_writer_test.cc:324-331 | each ring prints as its own parenthesised coordinate list |
| WktWriter.GeomRun | src/geoarrow/wkt_writer_test.cc:114-132 | the calls for a well-formed geometry append exactly its WKT text |
| WktWriter.FeatureRun | src/geoarrow/wkt_writer_test.cc:45-47 | the calls for a well-formed feature seal exactly one entry: its text, or a null |
| WktWriter.CountNullsValidity | src/geoarrow/wkt_writer_test.cc:52 | the number of false validity bits is the number of null features |
| WktWriter.RepresentsSealed | src/geoarrow/wkt_writer_test.cc:71-79 | sealing one more feature adds exactly its entry and keeps all earlier ones |
| WktWriter.StreamRun | src/geoarrow/wkt_writer_test.cc:71-79 | the calls for any well-formed features are accepted, and the writer then holds exactly their entries |
| WktWriter.FinishEntry | src/geoarrow/wkt_writer_test.cc:92-93 | after finishing, entry i is the text of feature i, or null |
| WktWriter.FinishRepresents | src/geoarrow/wkt_writer_test.cc:82-93 | finishing gives length = number of features, null_count = number of null features, no validity buffer when none is null, every entry, and a reset writer |
| WktWriter.RunWithoutHints | src/geoarrow/geoarrow_type.h:255-256 | the reserve hints leave the writer as it is: a session with its hints dropped ends in the same result |
| WktWriter.AcceptedColumn | src/geoarrow/wkt_writer_test.cc:134-158 | whatever calls a fresh writer accepts and then finishes, the column is that of some well-formed features: their count, their null count, each entry their WKT or null, and a reset writer |
| WktWriter.WriterColumn | src/geoarrow/wkt_writer_test.cc:134-158 | for any well-formed features, playing their calls and finishing gives the column of their texts |
| WktWriterObject.FormatTuple | src/geoarrow/wkt_writer_test.cc:225-234 | a tuple prints as its values in slot order, separated by single spaces |
| WktWriterObject.FormatCoords | src/geoarrow/geoarrow_type.h:228-229 | formatting a coordinate view reads each coordinate through the strided accessor and prints them in order, each after its separator |
| WktWriterObject.CoordsAccepted | src/geoarrow/geoarrow_type.h:263 | a coords call inside a point, linestring or ring appends the view's formatted coordinates |
| WktWriterObject.CoordsRefused | src/geoarrow/geoarrow_type.h:263 | a coords call anywhere else fails with EINVAL (the model's own call-order rule) |
| WktWriterObject.Writer.constructor | src/geoarrow/wkt_writer_test.cc:42-43 | a new writer holds nothing and is between features |
| WktWriterObject.Writer.ReserveCoord | src/geoarrow/geoarrow_type.h:255 | the hint returns OK and changes nothing |
| WktWriterObject.Writer.ReserveFeat | src/geoarrow/geoarrow_type.h:256 | the hint returns OK and changes nothing |
| WktWriterObject.Writer.FeatStart | src/geoarrow/geoarrow_type.h:258 | returns OK and moves the state as the step does when allowed; otherwise returns EINVAL and changes nothing |
| WktWriterObject.Writer.NullFeat | src/geoarrow/geoarrow_type.h:259 | as FeatStart, for null_feat |
| WktWriterObject.Writer.GeomStart | src/geoarrow/geoarrow_type.h:260-261 | as FeatStart, for geom_start |
| WktWriterObject.Writer.RingStart | src/geoarrow/geoarrow_type.h:262 | as FeatStart, for ring_start |
| WktWriterObject.Writer.Coords | src/geoarrow/geoarrow_type.h:263 | as FeatStart, for coords; the text is produced by the formatting loop |
| WktWriterObject.Writer.RingEnd | src/geoarrow/geoarrow_type.h:264 | as FeatStart, for ring_end |
| WktWriterObject.Writer.GeomEnd | src/geoarrow/geoarrow_type.h:265 | as FeatStart, for geom_end |
| WktWriterObject.Writer.FeatEnd | src/geoarrow/geoarrow_type.h:266 | as FeatStart, for feat_end |
| WktWriterObject.Writer.Finish | src/geoarrow/wkt_writer_test.cc:50 | returns OK with the finished column and a reset writer between features; returns EINVAL and no column inside a feature |
| WktWriterSessions.Consume | src/geoarrow/geoarrow_type.h:98-100 | while calls known to succeed are being played, each callback returns GEOARROW_OK (0) and the rest still succeeds |
| WktWriterSessions.HoldingRepresents | src/geoarrow/wkt_writer_test.cc:71-79 | the state after playing any features holds exactly their entries |
| WktWriterSessions.Drain | src/geoarrow/wkt_writer_test.cc:134-138 | finishing a writer that played features returns GEOARROW_OK and gives their count as length, their null count, no validity buffer when none is null, and each entry |
| WktWriterSessions.OneNullSession | src/geoarrow/wkt_writer_test.cc:39-58 | feat_start, null_feat, feat_end and Finish all return OK (four statuses), and the column has length 1, null_count 1 and a null entry 0 |
| WktWriterSessions.OneValidOneNullSession | src/geoarrow/wkt_writer_test.cc:65-93 | all eight calls return OK; an empty point then a null give length 2, null_count 1, entry 0 "POINT EMPTY" and entry 1 null |
| WktWriterSessions.EmptySession | src/geoarrow/wkt_writer_test.cc:106-172 | for every kind, all seventeen calls return OK, and empty geometries in XY, XYZ, XYM and XYZM give 4 entries, null_count 0, no validity buffer and the WKTEmpty strings |
| WktWriterSessions.PointSession | src/geoarrow/wkt_writer_test.cc:174-234 | all twenty-one calls return OK, and the four points give "POINT (1 2)", "POINT Z (1 2 3)", "POINT M (1 2 4)", "POINT ZM (1 2 3 4)" |
| WktWriterSessions.LineStringSession | src/geoarrow/wkt_writer_test.cc:241-304 | all twenty-one calls return OK, and the four linestrings give the four asserted LINESTRING texts |
| WktWriterSessions.PolygonSession | src/geoarrow/wkt_writer_test.cc:311-343 | all eight calls return OK, and a polygon with one ring gives "POLYGON ((1 2, 2 3, 3 4, 1 2))" |
| WktWriterScenarios.FinishedStream | src/geoarrow/wkt_writer_test.cc:134-158 | finishing the calls of any well-formed features gives their count, their null count and their texts |
| WktWriterScenarios.OneNull | src/geoarrow/wkt_writer_test.cc:45-58 | feat_start, null_feat, feat_end give length 1, null_count 1 and a null entry 0 |
| WktWriterScenarios.OneValidOneNull | src/geoarrow/wkt_writer_test.cc:71-93 | an empty point then a null give length 2, null_count 1, "POINT EMPTY" then null |
| WktWriterScenarios.NoNulls | src/geoarrow/wkt_writer_test.cc:136-138 | features that are all geometries have no nulls |
| WktWriterScenarios.Empty | src/geoarrow/wkt_writer_test.cc:114-158 | four empty geometries finish into 4 entries, null_count 0, no validity buffer and the WKTEmpty strings |
| WktWriterScenarios.UnknownDimensions | src/geoarrow/wkt_writer_test.cc:13-26 | an empty geometry with unknown dimensions is accepted and prints with no dimension tag, as WKTEmpty's default case does |
| WktWriterScenarios.PointXYM | src/geoarrow/wkt_writer_test.cc:201-231 | three values given as X, Y, M print in that order: "POINT M (1 2 4)" |
| WktWriterScenarios.PointScenario | src/geoarrow/wkt_writer_test.cc:187-234 | the four point features finish into the four asserted POINT texts |
| WktWriterScenarios.LineStringScenario | src/geoarrow/wkt_writer_test.cc:254-304 | the four linestring features finish into the four asserted LINESTRING texts |
| WktWriterScenarios.PolygonText | src/geoarrow/wkt_writer_test.cc:343 | a ring adds one level of parentheses: "POLYGON ((1 2, 2 3, 3 4, 1 2))" |
| WktWriterScenarios.PolygonScenario | src/geoarrow/wkt_writer_test.cc:324-343 | the polygon's calls finish into length 1, null_count 0 and the asserted text |
| WktWriterScenarios.RingEndWithoutRing | src/geoarrow/geoarrow_type.h:262-264 | ring_end with no open ring fails with EINVAL (the model's own call-order rule) |
| WktWriterScenarios.CoordsOutsideRing | src/geoarrow/geoarrow_type.h:262-263 | coords directly inside a polygon, outside a ring, fails with EINVAL (the model's own call-order rule) |
| WktWriterScenarios.RingOutsidePolygon | src/geoarrow/geoarrow_type.h:262 | ring_start inside anything but a polygon fails with EINVAL (the model's own call-order rule) |
| WktWriterScenarios.FeatureNotOpen | src/geoarrow/geoarrow_type.h:258-266 | feat_end with no open feature fails, and finishing inside an open feature fails (the model's own call-order rule) |

## Left out

- The writer's C source (`GeoArrowWKTWriterInit`, `InitVisitor`, `Finish`, `Reset`) is not part of this model. The text of accepted sessions is modelled from the contract its tests fix. Its text emission writes the keyword and suffix, then " (" before the first child, ", " before later children, and ")" or " EMPTY" to close.
- Visitor.Advance, WktWriter.Step, WktWriter.Run, WktWriter.FinishState, WktWriterObject.CoordsRefused, WktWriterObject.Writer.Finish, WktWriterScenarios.RingEndWithoutRing, WktWriterScenarios.CoordsOutsideRing, WktWriterScenarios.RingOutsidePolygon and WktWriterScenarios.FeatureNotOpen: which calls are refused, and the code `EINVAL` (22) they return, are this model's own design. The header declares only the callbacks' signatures and `GEOARROW_OK`. The tests assert only sessions that succeed. Refused are: `ring_end` with no open ring, `coords` outside a point, linestring or ring, `ring_start` outside a polygon, `feat_end` with no complete feature, `Finish` inside a feature, and a `geom_start` nested in a geometry. The refusals follow the visitor's nesting rules (feature, geometry, ring).
- CoordViews.Reserve and ArrayViews.ReserveBytes: the growth to at least twice the old capacity is this model's own policy. The header declares only the size and capacity fields (`src/geoarrow/geoarrow_type.h:112-122`, `220-226`).
- Init/Reset lifetimes are left out, because they only concern allocation. `WktWriterObject.Writer.Finish` returns a writer that is already reset.
- WktWriterObject.Writer.ReserveCoord and WktWriterObject.Writer.ReserveFeat accept their hint and ignore it, because allocation has no observable effect on the text.
- Arrow C data and stream structs, their release callbacks and `private_data`: a foreign ABI about memory ownership. The finished column is a value (text, offsets, optional validity, null count).
- Reading the finished column through nanoarrow's array view: a foreign library. Entries are read directly with `WktWriter.Entry` and `WktWriter.IsNull`.
- Double formatting: coordinates are integers, printed in decimal. The tests print only small integral values.
- Integer widths (`int32_t` offsets, `int64_t` lengths): integers are unbounded, and no overflow is modelled.
- Multi-geometries and collections with content: no test fixes their output. A `geom_start` inside a geometry is refused with EINVAL, so no such content is printed. An empty geometry of any kind, GEOMETRYCOLLECTION included, prints as the tests assert.
- A feature with `feat_start` then `feat_end` and nothing in between is refused, because the model requires exactly one null or one geometry per feature.
- Coords callback signature: the header declares `coords(v, const GeoArrowCoordView*)`, while the test passes `(double**, n_coords, n_dims)`. The model follows the header. The test's call is rendered as a separate-layout view over the first n_dims columns.
- Edge type, CRS type, the metadata view, the schema view's extension name and metadata, and the 1024-byte error buffer: declared but without any logic.
- Schema parsing and the binding of an array view to Arrow buffers: the array view is modelled as already decomposed, with its validity as booleans and its offsets as sequences.
- Buffers and views are values: the model does not capture aliasing between views of one allocation or in-place reallocation. `GeoArrowBuilder`'s `private_data` is not modelled.
- Offset levels are counted per list nesting: one for LineString and MultiPoint, two for Polygon and MultiLineString, three for MultiPolygon. This fills the three slots that `GeoArrowArrayView` declares (`n_offsets`, `offsets[3]` and `last_offset[3]` at `src/geoarrow/geoarrow_type.h:234-236`).
