/**
 The binary COPY format: a header, one tuple per row, a trailer. A tuple is a column count
 followed by one length-prefixed field per column, -1 standing for NULL.
 */
module BinaryCopy {
  import opened Wrappers
  import opened Bytes
  import opened Sequences
  import opened Framing
  import CopyIn

  /** PGCOPY\n\377\r\n\0 */
  const MAGIC: seq<byte> := [80, 71, 67, 79, 80, 89, 10, 255, 13, 10, 0]

  const HEADER_LEN := |MAGIC| + 4 + 4

  const CHUNK := 4096

  const HEADER: seq<byte> := MAGIC + BE32(0) + BE32(0)

  /** The column count of the trailer, -1. */
  const TRAILER: seq<byte> := [255, 255]

  /** A field's bytes, or NULL. */
  type Cell = Option<seq<byte>>

  // ---------------------------------------------------------------------------
  // Encoding
  // ---------------------------------------------------------------------------

  /** What serializing a value does: a serializer that fails may have written something. */
  datatype Value = Null | Bytes(bytes: seq<byte>) | Fails(partial: seq<byte>)

  datatype WriteError = ToSqlError(index: nat) | EncodeError | Closed

  /** The bytes appended for the values, and the error that stopped it. */
  datatype Encoded = Encoded(bytes: seq<byte>, error: Option<WriteError>)

  function Before(bytes: seq<byte>, e: Encoded): Encoded { e.(bytes := bytes + e.bytes) }

  function EncodeFrom(values: seq<Value>, index: nat): Encoded {
    if values == [] then Encoded([], None)
    else
      var rest := EncodeFrom(values[1..], index + 1);
      match values[0]
      case Null => Before(BE32(-1), rest)
      case Fails(partial) => Encoded(BE32(0) + partial, Some(ToSqlError(index)))
      case Bytes(bytes) =>
        if |bytes| > I32_MAX then Encoded(BE32(0) + bytes, Some(EncodeError))
        else Before(BE32(|bytes|) + bytes, rest)
  }

  function Count(n: nat): seq<byte> { BE16(Residue16(n)) }

  function EncodeRow(values: seq<Value>): Encoded { Before(Count(|values|), EncodeFrom(values, 0)) }

  // ---------------------------------------------------------------------------
  // The writer
  // ---------------------------------------------------------------------------

  /** What is buffered, and the chunks handed over, as long as the sink accepts them. */
  datatype Writer = Writer(buf: seq<byte>, sent: seq<seq<byte>>)

  const FRESH := Writer(HEADER, [])

  function Send(w: Writer): Writer { Writer([], w.sent + [w.buf]) }

  function WriteRow(w: Writer, values: seq<Value>): (Writer, Option<WriteError>) {
    var row := EncodeRow(values);
    var w' := w.(buf := w.buf + row.bytes);
    if row.error.Some? then (w', row.error)
    else (if |w'.buf| > CHUNK then Send(w') else w', None)
  }

  function Finish(w: Writer): Writer { Send(w.(buf := w.buf + TRAILER)) }

  /** Everything written, whether already sent or not. */
  function Total(w: Writer): seq<byte> { Concat(w.sent) + w.buf }

  // ---------------------------------------------------------------------------
  // The specification of the format
  // ---------------------------------------------------------------------------

  function Field(c: Cell): seq<byte> {
    if c.None? || |c.value| > I32_MAX then BE32(-1) else BE32(|c.value|) + c.value
  }

  function Fields(cells: seq<Cell>): seq<byte> {
    if cells == [] then [] else Field(cells[0]) + Fields(cells[1..])
  }

  function Tuple(cells: seq<Cell>): seq<byte> { Count(|cells|) + Fields(cells) }

  function Tuples(rows: seq<seq<Cell>>): seq<byte> {
    if rows == [] then [] else Tuples(Front(rows)) + Tuple(Last(rows))
  }

  predicate Transmittable(c: Cell) { c.Some? ==> |c.value| <= I32_MAX }

  ghost predicate AllTransmittable(cells: seq<Cell>) { forall i :: 0 <= i < |cells| ==> Transmittable(cells[i]) }

  /** The values that serialize without error, as cells. */
  function Cells(values: seq<Value>): (cells: seq<Cell>)
    ensures |cells| == |values|
  {
    if values == [] then []
    else [if values[0].Bytes? then Some(values[0].bytes) else None] + Cells(values[1..])
  }

  predicate Encodable(v: Value) { v.Null? || (v.Bytes? && |v.bytes| <= I32_MAX) }

  ghost predicate AllEncodable(values: seq<Value>) { forall i :: 0 <= i < |values| ==> Encodable(values[i]) }

  /** Encoding succeeds exactly when every value does, and then yields the fields in order. */
  lemma {:induction false} EncodeMeaning(values: seq<Value>, index: nat)
    ensures EncodeFrom(values, index).error.None? <==> AllEncodable(values)
    ensures AllEncodable(values) ==> EncodeFrom(values, index).bytes == Fields(Cells(values))
    ensures AllEncodable(values) ==> AllTransmittable(Cells(values))
    decreases |values|
  {
    if values != [] {
      EncodeMeaning(values[1..], index + 1);
      AllEncodableCons(values);
      assert Cells(values)[1..] == Cells(values[1..]);
    }
  }

  lemma AllEncodableCons(values: seq<Value>)
    requires values != []
    ensures AllEncodable(values) <==> Encodable(values[0]) && AllEncodable(values[1..])
  {
    if Encodable(values[0]) && AllEncodable(values[1..]) {
      forall i | 0 <= i < |values| ensures Encodable(values[i]) {
        assert i > 0 ==> values[i] == values[1..][i - 1];
      }
    }
  }

  /** The error is that of the first value that fails: the serializer's, with its position, or a value too long. */
  lemma EncodeErrorExactly(values: seq<Value>, k: nat)
    requires k < |values| && AllEncodable(values[..k]) && !Encodable(values[k])
    ensures EncodeRow(values).error == Some(if values[k].Fails? then ToSqlError(k) else EncodeError)
  {
    EncodeErrorFrom(values, k, 0);
  }

  lemma {:induction false} EncodeErrorFrom(values: seq<Value>, k: nat, i: nat)
    requires k < |values| && AllEncodable(values[..k]) && !Encodable(values[k])
    ensures EncodeFrom(values, i).error == Some(if values[k].Fails? then ToSqlError(i + k) else EncodeError)
    decreases k
  {
    if k > 0 {
      AllEncodableCons(values[..k]);
      assert values[1..][..k - 1] == values[..k][1..];
      EncodeErrorFrom(values[1..], k - 1, i + 1);
    }
  }

  // ---------------------------------------------------------------------------
  // The writer's bytes
  // ---------------------------------------------------------------------------

  lemma SendKeepsTotal(w: Writer)
    ensures Total(Send(w)) == Total(w)
  {
    ConcatAppend(w.sent, [w.buf]);
    ConcatCons(w.buf, []);
    AppendEmpty(w.buf);
    AppendEmpty(Concat(w.sent) + w.buf);
  }

  /**
   While the sink accepts data, writing a row adds exactly its tuple to the stream when
   every value can be encoded, and damages the stream otherwise: an error is returned but
   a part of the row stays behind.
   */
  lemma WriteAddsTuple(w: Writer, values: seq<Value>)
    ensures var (w', error) := WriteRow(w, values);
            && (error.None? <==> AllEncodable(values))
            && (error.None? ==> Total(w') == Total(w) + Tuple(Cells(values)))
            && (error.Some? ==> Total(w) < Total(w'))
  {
    EncodeMeaning(values, 0);
    var row := EncodeRow(values);
    SendKeepsTotal(w.(buf := w.buf + row.bytes));
    AppendAssoc(Concat(w.sent), w.buf, row.bytes);
  }

  /** The state after trying to write the rows, the sink accepting everything. */
  function WriteAll(rows: seq<seq<Value>>): Writer {
    if rows == [] then FRESH else WriteRow(WriteAll(Front(rows)), Last(rows)).0
  }

  function AllCells(rows: seq<seq<Value>>): (cells: seq<seq<Cell>>)
    ensures |cells| == |rows|
    ensures forall i :: 0 <= i < |rows| ==> cells[i] == Cells(rows[i])
  {
    seq(|rows|, i requires 0 <= i < |rows| => Cells(rows[i]))
  }

  ghost predicate RowsEncodable(rows: seq<seq<Value>>) {
    forall i :: 0 <= i < |rows| ==> AllEncodable(rows[i])
  }

  lemma {:induction false} WriteAllTotal(rows: seq<seq<Value>>)
    requires RowsEncodable(rows)
    ensures Total(WriteAll(rows)) == HEADER + Tuples(AllCells(rows))
  {
    if rows == [] {
      AppendEmpty(HEADER);
    } else {
      WriteAllTotal(Front(rows));
      WriteAddsTuple(WriteAll(Front(rows)), Last(rows));
      assert Front(AllCells(rows)) == AllCells(Front(rows));
      AppendAssoc(HEADER, Tuples(AllCells(Front(rows))), Tuple(Cells(Last(rows))));
    }
  }

  /**
   Across all flushes the chunks handed to the sink are the header, the tuples in order
   and the trailer, and nothing is left in the buffer.
   */
  lemma WrittenFile(rows: seq<seq<Value>>)
    requires RowsEncodable(rows)
    ensures var w := Finish(WriteAll(rows));
            && w.buf == []
            && Concat(w.sent) == HEADER + Tuples(AllCells(rows)) + TRAILER
  {
    var w := WriteAll(rows);
    WriteAllTotal(rows);
    SendKeepsTotal(w.(buf := w.buf + TRAILER));
    AppendAssoc(Concat(w.sent), w.buf, TRAILER);
    AppendEmpty(Concat(Finish(w).sent));
  }

  // ---------------------------------------------------------------------------
  // The reader
  // ---------------------------------------------------------------------------

  datatype Range = Range(start: nat, end: nat)

  /** The fields of a tuple as ranges of the chunk, and where they end. */
  datatype Row = Row(ranges: seq<Option<Range>>, end: nat)

  datatype ChunkResult = RowRead(ranges: seq<Option<Range>>) | Finished | Malformed

  function FieldLength(chunk: seq<byte>, pos: nat): i32
    requires pos + 4 <= |chunk|
  {
    FromBE32(chunk[pos..pos + 4])
  }

  /** A negative length other than -1 is larger than any buffer once it is unsigned. */
  function ReadFields(chunk: seq<byte>, pos: nat, n: nat): Option<Row>
    requires pos <= |chunk|
    decreases n
  {
    if n == 0 then Some(Row([], pos))
    else if |chunk| - pos < 4 then None
    else
      var len := FieldLength(chunk, pos);
      if len == -1 then Cons(None, ReadFields(chunk, pos + 4, n - 1))
      else if len < 0 || |chunk| - pos - 4 < len then None
      else Cons(Some(Range(pos + 4, pos + 4 + len)), ReadFields(chunk, pos + 4 + len, n - 1))
  }

  function Cons(r: Option<Range>, rest: Option<Row>): Option<Row> {
    if rest.None? then None else Some(Row([r] + rest.value.ranges, rest.value.end))
  }

  function HasOids(flags: nat): bool { flags / 0x1_0000 % 2 == 1 }

  /** Where the first tuple starts and whether tuples have OIDs; the header may be extended. */
  function ReadHeader(chunk: seq<byte>): Option<(nat, bool)> {
    if |chunk| < HEADER_LEN || chunk[..|MAGIC|] != MAGIC then None
    else
      var extension := FromBE32U(chunk[|MAGIC| + 4..HEADER_LEN]);
      if |chunk| - HEADER_LEN < extension then None
      else Some((HEADER_LEN + extension, HasOids(FromBE32U(chunk[|MAGIC|..|MAGIC| + 4]))))
  }

  /** The 16-bit count goes up by one when there are OIDs. */
  function ColumnCount(count: int, hasOids: bool): int {
    if hasOids then Signed16(Residue16(count + 1)) else count
  }

  function ReadTuple(chunk: seq<byte>, pos: nat, hasOids: bool, columns: nat): ChunkResult
    requires pos <= |chunk|
  {
    if |chunk| - pos < 2 then Malformed
    else
      var count := Signed16(FromBE16(chunk[pos..pos + 2]));
      if count == -1 then Finished
      else if ColumnCount(count, hasOids) != columns then Malformed
      else
        match ReadFields(chunk, pos + 2, columns)
        case None => Malformed
        case Some(row) => RowRead(row.ranges)
  }

  /** `header` is what an earlier chunk's header said. */
  function ReadChunk(header: Option<bool>, chunk: seq<byte>, columns: nat): (Option<bool>, ChunkResult) {
    match header
    case Some(hasOids) => (header, ReadTuple(chunk, 0, hasOids, columns))
    case None =>
      match ReadHeader(chunk)
      case None => (None, Malformed)
      case Some((pos, hasOids)) => (Some(hasOids), ReadTuple(chunk, pos, hasOids, columns))
  }

  predicate Inside(chunk: seq<byte>, r: Range) { r.start <= r.end <= |chunk| }

  function Slice(chunk: seq<byte>, r: Option<Range>): Cell {
    match r
    case None => None
    case Some(r) => if Inside(chunk, r) then Some(chunk[r.start..r.end]) else None
  }

  function Slices(chunk: seq<byte>, ranges: seq<Option<Range>>): (cells: seq<Cell>)
    ensures |cells| == |ranges|
  {
    if ranges == [] then [] else [Slice(chunk, ranges[0])] + Slices(chunk, ranges[1..])
  }

  // ---------------------------------------------------------------------------
  // Any input
  // ---------------------------------------------------------------------------

  /** Every range starts four bytes after the end of the one before and is inside. */
  ghost predicate Tiled(chunk: seq<byte>, pos: nat, ranges: seq<Option<Range>>, end: nat)
    decreases |ranges|
  {
    if ranges == [] then pos == end
    else match ranges[0]
      case None => Tiled(chunk, pos + 4, ranges[1..], end)
      case Some(r) => r.start == pos + 4 && Inside(chunk, r) && Tiled(chunk, r.end, ranges[1..], end)
  }

  /** The fields read are exactly those whose encoding stands there. */
  ghost predicate ReadsExactly(chunk: seq<byte>, pos: nat, n: nat, row: Row) {
    && |row.ranges| == n && pos <= row.end <= |chunk|
    && Tiled(chunk, pos, row.ranges, row.end)
    && AllTransmittable(Slices(chunk, row.ranges))
    && chunk[pos..row.end] == Fields(Slices(chunk, row.ranges))
  }

  lemma ReadsOneMore(chunk: seq<byte>, pos: nat, r: Option<Range>, next: nat, n: nat, rest: Row)
    requires pos + 4 <= next <= |chunk| && ReadsExactly(chunk, next, n, rest)
    requires r.Some? ==> r.value == Range(pos + 4, next)
    requires r.None? ==> next == pos + 4
    requires Transmittable(Slice(chunk, r)) && chunk[pos..next] == Field(Slice(chunk, r))
    ensures ReadsExactly(chunk, pos, n + 1, Row([r] + rest.ranges, rest.end))
  {
    var ranges := [r] + rest.ranges;
    assert ranges[1..] == rest.ranges;
    assert Slices(chunk, ranges)[1..] == Slices(chunk, rest.ranges);
    assert chunk[pos..rest.end] == chunk[pos..next] + chunk[next..rest.end];
  }

  lemma NullField(chunk: seq<byte>, pos: nat)
    requires pos + 4 <= |chunk| && FieldLength(chunk, pos) == -1
    ensures chunk[pos..pos + 4] == Field(None)
  {
    RoundTrip32Back(chunk[pos..pos + 4]);
  }

  lemma ValueField(chunk: seq<byte>, pos: nat, len: nat)
    requires pos + 4 + len <= |chunk| && FieldLength(chunk, pos) == len
    ensures chunk[pos..pos + 4 + len] == Field(Some(chunk[pos + 4..pos + 4 + len]))
  {
    RoundTrip32Back(chunk[pos..pos + 4]);
    assert chunk[pos..pos + 4 + len] == chunk[pos..pos + 4] + chunk[pos + 4..pos + 4 + len];
  }

  lemma {:induction false} ReadFieldsStand(chunk: seq<byte>, pos: nat, n: nat)
    requires pos <= |chunk|
    ensures var row := ReadFields(chunk, pos, n); row.Some? ==> ReadsExactly(chunk, pos, n, row.value)
    decreases n
  {
    if n > 0 && ReadFields(chunk, pos, n).Some? {
      var len := FieldLength(chunk, pos);
      if len == -1 {
        ReadFieldsStand(chunk, pos + 4, n - 1);
        NullField(chunk, pos);
        ReadsOneMore(chunk, pos, None, pos + 4, n - 1, ReadFields(chunk, pos + 4, n - 1).value);
      } else {
        var next := pos + 4 + len;
        ReadFieldsStand(chunk, next, n - 1);
        ValueField(chunk, pos, len);
        ReadsOneMore(chunk, pos, Some(Range(pos + 4, next)), next, n - 1, ReadFields(chunk, next, n - 1).value);
      }
    }
  }

  lemma {:induction false} TiledInOrder(chunk: seq<byte>, pos: nat, ranges: seq<Option<Range>>, end: nat, i: nat, j: nat)
    requires Tiled(chunk, pos, ranges, end)
    requires i <= j < |ranges| && ranges[i].Some? && ranges[j].Some?
    ensures Inside(chunk, ranges[i].value) && pos + 4 <= ranges[i].value.start
    ensures i < j ==> ranges[i].value.end + 4 <= ranges[j].value.start
    decreases |ranges|
  {
    var next := if ranges[0].None? then pos + 4 else ranges[0].value.end;
    if i > 0 {
      TiledInOrder(chunk, next, ranges[1..], end, i - 1, j - 1);
    } else if j > 0 {
      TiledInOrder(chunk, next, ranges[1..], end, j - 1, j - 1);
    }
  }

  /**
   For any chunk whatsoever, a row that is read has one range per column; the ranges lie
   inside the chunk, in order and apart.
   */
  lemma RangesAreSound(header: Option<bool>, chunk: seq<byte>, columns: nat, i: nat, j: nat)
    requires ReadChunk(header, chunk, columns).1.RowRead?
    ensures var ranges := ReadChunk(header, chunk, columns).1.ranges;
            && |ranges| == columns
            && (i < columns && ranges[i].Some? ==> Inside(chunk, ranges[i].value))
            && (i < j < columns && ranges[i].Some? && ranges[j].Some? ==> ranges[i].value.end < ranges[j].value.start)
  {
    var start := if header.Some? then 0 else ReadHeader(chunk).value.0;
    ReadFieldsStand(chunk, start + 2, columns);
    var row := ReadFields(chunk, start + 2, columns).value;
    if i < columns && row.ranges[i].Some? {
      TiledInOrder(chunk, start + 2, row.ranges, row.end, i, i);
      if i < j < columns && row.ranges[j].Some? {
        TiledInOrder(chunk, start + 2, row.ranges, row.end, i, j);
      }
    }
  }

  // ---------------------------------------------------------------------------
  // Round trip
  // ---------------------------------------------------------------------------

  ghost predicate At(chunk: seq<byte>, pos: nat, bytes: seq<byte>) {
    pos + |bytes| <= |chunk| && chunk[pos..pos + |bytes|] == bytes
  }

  lemma AtSplit(chunk: seq<byte>, pos: nat, a: seq<byte>, b: seq<byte>)
    requires At(chunk, pos, a + b)
    ensures At(chunk, pos, a) && At(chunk, pos + |a|, b)
  {
    var all := chunk[pos..pos + |a + b|];
    assert all[..|a|] == a && all[|a|..] == b;
  }

  lemma FieldAt(chunk: seq<byte>, pos: nat, c: Cell)
    requires At(chunk, pos, Field(c)) && Transmittable(c)
    ensures FieldLength(chunk, pos) == if c.None? then -1 else |c.value|
    ensures c.Some? ==> At(chunk, pos + 4, c.value)
  {
    if c.None? {
      RoundTrip32(-1);
    } else {
      RoundTrip32(|c.value|);
      AtSplit(chunk, pos, BE32(|c.value|), c.value);
    }
  }

  /** The row is what reading `n` fields at `pos` gives. */
  ghost predicate ReadAs(chunk: seq<byte>, pos: nat, n: nat, cells: seq<Cell>, end: nat) {
    && pos <= |chunk| && ReadFields(chunk, pos, n).Some?
    && Slices(chunk, ReadFields(chunk, pos, n).value.ranges) == cells
    && ReadFields(chunk, pos, n).value.end == end
  }

  lemma FieldStep(chunk: seq<byte>, pos: nat, c: Cell, next: nat, n: nat, rest: seq<Cell>, end: nat)
    requires At(chunk, pos, Field(c)) && Transmittable(c) && next == pos + |Field(c)|
    requires n > 0 && ReadAs(chunk, next, n - 1, rest, end)
    ensures ReadAs(chunk, pos, n, [c] + rest, end)
  {
    FieldAt(chunk, pos, c);
    ConsSlices(chunk, if c.None? then None else Some(Range(pos + 4, next)), ReadFields(chunk, next, n - 1).value);
  }

  lemma {:induction false} FieldsAt(chunk: seq<byte>, pos: nat, cells: seq<Cell>, n: nat, end: nat)
    requires At(chunk, pos, Fields(cells)) && AllTransmittable(cells)
    requires n == |cells| && end == pos + |Fields(cells)|
    ensures ReadAs(chunk, pos, n, cells, end)
    decreases n
  {
    if n > 0 {
      var c, rest, next := cells[0], cells[1..], pos + |Field(cells[0])|;
      FirstFieldAt(chunk, pos, cells, c, rest);
      FieldsAt(chunk, next, rest, n - 1, end);
      FieldStep(chunk, pos, c, next, n, rest, end);
    }
  }

  lemma FirstFieldAt(chunk: seq<byte>, pos: nat, cells: seq<Cell>, c: Cell, rest: seq<Cell>)
    requires cells != [] && c == cells[0] && rest == cells[1..]
    requires At(chunk, pos, Fields(cells)) && AllTransmittable(cells)
    ensures At(chunk, pos, Field(c)) && At(chunk, pos + |Field(c)|, Fields(rest))
    ensures Transmittable(c) && AllTransmittable(rest)
    ensures [c] + rest == cells && |Fields(cells)| == |Field(c)| + |Fields(rest)|
  {
    AtSplit(chunk, pos, Field(c), Fields(rest));
  }

  /** The encoding of `n` fields stands at the position. */
  ghost predicate FieldsStandAt(chunk: seq<byte>, pos: nat, n: nat, cells: seq<Cell>) {
    |cells| == n && AllTransmittable(cells) && At(chunk, pos, Fields(cells))
  }

  /** For any bytes: fields are read if and only if an encoding of so many fields stands there, and then its fields. */
  lemma FieldsReadExactly(chunk: seq<byte>, pos: nat, n: nat)
    requires pos <= |chunk|
    ensures ReadFields(chunk, pos, n).Some? <==> exists cells :: FieldsStandAt(chunk, pos, n, cells)
    ensures forall cells :: FieldsStandAt(chunk, pos, n, cells) ==> ReadAs(chunk, pos, n, cells, pos + |Fields(cells)|)
  {
    if ReadFields(chunk, pos, n).Some? {
      ReadFieldsStand(chunk, pos, n);
      assert FieldsStandAt(chunk, pos, n, Slices(chunk, ReadFields(chunk, pos, n).value.ranges));
    }
    forall cells | FieldsStandAt(chunk, pos, n, cells) ensures ReadAs(chunk, pos, n, cells, pos + |Fields(cells)|) {
      FieldsAt(chunk, pos, cells, n, pos + |Fields(cells)|);
    }
  }

  lemma ConsSlices(chunk: seq<byte>, r: Option<Range>, rest: Row)
    ensures Slices(chunk, [r] + rest.ranges) == [Slice(chunk, r)] + Slices(chunk, rest.ranges)
  {
    assert ([r] + rest.ranges)[1..] == rest.ranges;
  }

  /** The tuple that stands at `pos` is read back. */
  ghost predicate ReadBack(chunk: seq<byte>, r: ChunkResult, cells: seq<Cell>) {
    r.RowRead? && Slices(chunk, r.ranges) == cells
  }

  lemma CountAt(chunk: seq<byte>, pos: nat, n: nat)
    requires At(chunk, pos, Count(n))
    ensures n <= 0x7FFF ==> Signed16(FromBE16(chunk[pos..pos + 2])) == n
    ensures n > 0x7FFF ==> Signed16(FromBE16(chunk[pos..pos + 2])) != n
  {
    RoundTrip16(Residue16(n));
    if n <= 0x7FFF {
      RoundTripSigned16(n);
    }
  }

  /** A tuple is read back exactly when its column count fits 16 bits. */
  lemma TupleReadBackExactly(chunk: seq<byte>, pos: nat, cells: seq<Cell>)
    requires pos <= |chunk| && At(chunk, pos, Tuple(cells)) && AllTransmittable(cells)
    ensures ReadBack(chunk, ReadTuple(chunk, pos, false, |cells|), cells) <==> |cells| <= 0x7FFF
  {
    AtSplit(chunk, pos, Count(|cells|), Fields(cells));
    CountAt(chunk, pos, |cells|);
    FieldsAt(chunk, pos + 2, cells, |cells|, pos + |Tuple(cells)|);
  }

  lemma HeaderReadBack(chunk: seq<byte>)
    requires At(chunk, 0, HEADER)
    ensures ReadHeader(chunk) == Some((HEADER_LEN, false))
  {
    AtSplit(chunk, 0, MAGIC + BE32(0), BE32(0));
    AtSplit(chunk, 0, MAGIC, BE32(0));
    assert chunk[..|MAGIC|] == chunk[0..|MAGIC|];
    RoundTrip32(0);
  }

  /** The chunks of a COPY OUT: one tuple each, then the trailer, the header in front. */
  function ChunkOf(rows: seq<seq<Cell>>, i: nat): seq<byte>
    requires i <= |rows|
  {
    (if i == 0 then HEADER else []) + (if i < |rows| then Tuple(rows[i]) else TRAILER)
  }

  function HeaderBefore(i: nat): Option<bool> { if i == 0 then None else Some(false) }

  lemma ChunkParts(rows: seq<seq<Cell>>, i: nat)
    requires i <= |rows|
    ensures var start := if i == 0 then HEADER_LEN else 0;
            && At(ChunkOf(rows, i), start, if i < |rows| then Tuple(rows[i]) else TRAILER)
            && (i == 0 ==> ReadHeader(ChunkOf(rows, i)) == Some((HEADER_LEN, false)))
            && start <= |ChunkOf(rows, i)|
  {
    var chunk := ChunkOf(rows, i);
    assert At(chunk, 0, chunk);
    AtSplit(chunk, 0, if i == 0 then HEADER else [], if i < |rows| then Tuple(rows[i]) else TRAILER);
    if i == 0 {
      HeaderReadBack(chunk);
    }
  }

  /**
   Fed back one tuple per chunk with the header in front of the first, the reader returns
   every row's fields, NULLs included, exactly when their number fits 16 bits, and then
   stops at the trailer.
   */
  lemma RowsReadBack(rows: seq<seq<Cell>>, i: nat)
    requires i < |rows| && AllTransmittable(rows[i])
    ensures var (header, r) := ReadChunk(HeaderBefore(i), ChunkOf(rows, i), |rows[i]|);
            && header == HeaderBefore(i + 1)
            && (ReadBack(ChunkOf(rows, i), r, rows[i]) <==> |rows[i]| <= 0x7FFF)
  {
    ChunkParts(rows, i);
    TupleReadBackExactly(ChunkOf(rows, i), if i == 0 then HEADER_LEN else 0, rows[i]);
  }

  lemma TrailerEnds(rows: seq<seq<Cell>>, columns: nat)
    ensures ReadChunk(HeaderBefore(|rows|), ChunkOf(rows, |rows|), columns) == (Some(false), Finished)
  {
    ChunkParts(rows, |rows|);
  }

  ghost predicate Uniform(rows: seq<seq<Cell>>, columns: nat) {
    forall i :: 0 <= i < |rows| ==> |rows[i]| == columns && AllTransmittable(rows[i])
  }

  /** What the stream yields from these chunks up to its end; none when it fails or does not end. */
  function ReadAll(header: Option<bool>, chunks: seq<seq<byte>>, columns: nat): Option<seq<seq<Cell>>>
    decreases |chunks|
  {
    if chunks == [] then None
    else
      var (next, r) := ReadChunk(header, chunks[0], columns);
      match r
      case Malformed => None
      case Finished => Some([])
      case RowRead(ranges) =>
        match ReadAll(next, chunks[1..], columns)
        case None => None
        case Some(rest) => Some([Slices(chunks[0], ranges)] + rest)
  }

  function ChunksFrom(rows: seq<seq<Cell>>, i: nat): (chunks: seq<seq<byte>>)
    requires i <= |rows|
    ensures |chunks| == |rows| - i + 1
    decreases |rows| - i
  {
    [ChunkOf(rows, i)] + if i == |rows| then [] else ChunksFrom(rows, i + 1)
  }

  lemma ChunkStep(header: Option<bool>, next: Option<bool>, chunk: seq<byte>, more: seq<seq<byte>>,
                  columns: nat, row: seq<Cell>, rest: seq<seq<Cell>>)
    requires ReadChunk(header, chunk, columns).0 == next && ReadBack(chunk, ReadChunk(header, chunk, columns).1, row)
    requires ReadAll(next, more, columns) == Some(rest)
    ensures ReadAll(header, [chunk] + more, columns) == Some([row] + rest)
  {
    assert ([chunk] + more)[1..] == more;
  }

  lemma ChunkReadBack(rows: seq<seq<Cell>>, columns: nat, i: nat, more: seq<seq<byte>>, rest: seq<seq<Cell>>)
    requires i < |rows| && |rows[i]| == columns <= 0x7FFF && AllTransmittable(rows[i])
    requires ReadAll(HeaderBefore(i + 1), more, columns) == Some(rest)
    ensures ReadAll(HeaderBefore(i), [ChunkOf(rows, i)] + more, columns) == Some([rows[i]] + rest)
  {
    RowsReadBack(rows, i);
    ChunkStep(HeaderBefore(i), HeaderBefore(i + 1), ChunkOf(rows, i), more, columns, rows[i], rest);
  }

  lemma TrailerReadBack(rows: seq<seq<Cell>>, columns: nat)
    ensures ReadAll(HeaderBefore(|rows|), [ChunkOf(rows, |rows|)] + [], columns) == Some([])
  {
    TrailerEnds(rows, columns);
  }

  /** From the `i`-th chunk on, the rows from the `i`-th on. */
  ghost predicate RestIsRead(rows: seq<seq<Cell>>, columns: nat, i: nat)
    requires i <= |rows|
  {
    ReadAll(HeaderBefore(i), ChunksFrom(rows, i), columns) == Some(rows[i..])
  }

  lemma {:induction false} RestReadBack(rows: seq<seq<Cell>>, columns: nat, i: nat)
    requires Uniform(rows, columns) && columns <= 0x7FFF && i <= |rows|
    ensures RestIsRead(rows, columns, i)
    decreases |rows| - i
  {
    if i == |rows| {
      RestEnd(rows, columns);
    } else {
      RestReadBack(rows, columns, i + 1);
      RestStep(rows, columns, i);
    }
  }

  lemma RestEnd(rows: seq<seq<Cell>>, columns: nat)
    ensures RestIsRead(rows, columns, |rows|)
  {
    TrailerReadBack(rows, columns);
    assert rows[|rows|..] == [];
    assert ChunksFrom(rows, |rows|) == [ChunkOf(rows, |rows|)] + [];
  }

  lemma RestStep(rows: seq<seq<Cell>>, columns: nat, i: nat)
    requires Uniform(rows, columns) && columns <= 0x7FFF && i < |rows|
    requires RestIsRead(rows, columns, i + 1)
    ensures RestIsRead(rows, columns, i)
  {
    ChunkReadBack(rows, columns, i, ChunksFrom(rows, i + 1), rows[i + 1..]);
    RestSplits(rows, i, rows[i..], rows[i + 1..]);
  }

  lemma RestSplits(rows: seq<seq<Cell>>, i: nat, rest: seq<seq<Cell>>, tail: seq<seq<Cell>>)
    requires i < |rows| && rest == rows[i..] && tail == rows[i + 1..]
    ensures rest == [rows[i]] + tail
  {}

  /** Fed the chunks of a COPY OUT, the stream yields all rows and then ends. */
  lemma StreamRoundTrip(rows: seq<seq<Cell>>, columns: nat)
    requires Uniform(rows, columns) && columns <= 0x7FFF
    ensures ReadAll(None, ChunksFrom(rows, 0), columns) == Some(rows)
  {
    RestReadBack(rows, columns, 0);
    assert rows[0..] == rows;
  }

  // ---------------------------------------------------------------------------
  // Headers that say more
  // ---------------------------------------------------------------------------

  /** The flags of a header: bit 16 announces an OID in front of each tuple's fields. */
  predicate AnnouncesOids(flags: u32) { flags % 0x2_0000 >= 0x1_0000 }

  /** The magic bytes, the flags, and an extension behind its length. */
  function HeaderWith(flags: u32, extension: seq<byte>): seq<byte>
    requires |extension| < 0x1_0000_0000
  {
    MAGIC + (BEU32(flags) + (BEU32(|extension|) + extension))
  }

  lemma HeaderParts(magic: seq<byte>, flags: seq<byte>, length: seq<byte>, behind: seq<byte>, chunk: seq<byte>)
    requires |flags| == 4 && |length| == 4 && chunk == magic + (flags + (length + behind))
    ensures var n := |magic|;
            && |chunk| == n + 8 + |behind| && chunk[..n] == magic
            && chunk[n..n + 4] == flags && chunk[n + 4..n + 8] == length && chunk[n + 8..] == behind
  {}

  lemma HeaderReads(chunk: seq<byte>, flags: u32, n: u32, f: seq<byte>, l: seq<byte>)
    requires |chunk| >= HEADER_LEN + n && chunk[..|MAGIC|] == MAGIC && |f| == 4 && |l| == 4
    requires chunk[|MAGIC|..|MAGIC| + 4] == f && chunk[|MAGIC| + 4..HEADER_LEN] == l
    requires FromBE32U(f) == flags && FromBE32U(l) == n
    ensures ReadHeader(chunk) == Some((HEADER_LEN + n, AnnouncesOids(flags)))
  {
    BitSixteen(flags);
  }

  lemma BitSixteen(flags: u32)
    ensures HasOids(flags) <==> AnnouncesOids(flags)
  {}

  lemma HeaderAssoc(magic: seq<byte>, f: seq<byte>, l: seq<byte>, extension: seq<byte>, rest: seq<byte>)
    ensures magic + (f + (l + extension)) + rest == magic + (f + (l + (extension + rest)))
  {
    AppendAssoc(l, extension, rest);
    AppendAssoc(f, l + extension, rest);
    AppendAssoc(magic, f + (l + extension), rest);
  }

  /** Any flags and any extension are read; tuples begin behind the extension. */
  lemma AnyHeaderIsRead(chunk: seq<byte>, flags: u32, extension: seq<byte>, rest: seq<byte>)
    requires |extension| < 0x1_0000_0000 && chunk == HeaderWith(flags, extension) + rest
    ensures ReadHeader(chunk) == Some((HEADER_LEN + |extension|, AnnouncesOids(flags)))
  {
    var f, l := BEU32(flags), BEU32(|extension|);
    HeaderAssoc(MAGIC, f, l, extension, rest);
    HeaderParts(MAGIC, f, l, extension + rest, chunk);
    RoundTripU32(flags);
    RoundTripU32(|extension|);
    HeaderReads(chunk, flags, |extension|, f, l);
  }

  lemma UnsignedStands(s: seq<byte>)
    requires |s| == 4
    ensures BEU32(FromBE32U(s)) == s
  {
    Digits256(s[0], s[1], s[2], s[3]);
  }

  lemma HeaderStands(chunk: seq<byte>, magic: seq<byte>, f: seq<byte>, l: seq<byte>, extension: seq<byte>, rest: seq<byte>)
    requires |f| == 4 && |l| == 4 && |magic| + 8 + |extension| <= |chunk|
    requires chunk[..|magic|] == magic && chunk[|magic|..|magic| + 4] == f && chunk[|magic| + 4..|magic| + 8] == l
    requires extension == chunk[|magic| + 8..|magic| + 8 + |extension|] && rest == chunk[|magic| + 8 + |extension|..]
    ensures chunk == magic + (f + (l + extension)) + rest
  {}

  lemma ReadHeaderStands(chunk: seq<byte>, pos: nat, oids: bool) returns (flags: u32, extension: seq<byte>, rest: seq<byte>)
    requires ReadHeader(chunk) == Some((pos, oids))
    ensures StandsAs(chunk, pos, oids, flags, extension, rest)
  {
    var f, l := chunk[|MAGIC|..|MAGIC| + 4], chunk[|MAGIC| + 4..HEADER_LEN];
    flags, extension, rest := FromBE32U(f), chunk[HEADER_LEN..pos], chunk[pos..];
    UnsignedStands(f);
    UnsignedStands(l);
    HeaderReads(chunk, flags, FromBE32U(l), f, l);
    HeaderStands(chunk, MAGIC, f, l, extension, rest);
  }

  /** A chunk is taken to begin with a header if and only if one stands there. */
  lemma HeaderExactly(chunk: seq<byte>, pos: nat, oids: bool)
    ensures ReadHeader(chunk) == Some((pos, oids)) <==>
              exists flags: u32, extension: seq<byte>, rest: seq<byte> :: StandsAs(chunk, pos, oids, flags, extension, rest)
  {
    if ReadHeader(chunk) == Some((pos, oids)) {
      var flags, extension, rest := ReadHeaderStands(chunk, pos, oids);
    }
    forall flags: u32, extension: seq<byte>, rest: seq<byte> | StandsAs(chunk, pos, oids, flags, extension, rest)
      ensures ReadHeader(chunk) == Some((pos, oids))
    {
      AnyHeaderIsRead(chunk, flags, extension, rest);
    }
  }

  predicate StandsAs(chunk: seq<byte>, pos: nat, oids: bool, flags: u32, extension: seq<byte>, rest: seq<byte>) {
    && |extension| < 0x1_0000_0000 && chunk == HeaderWith(flags, extension) + rest
    && pos == HEADER_LEN + |extension| && oids == AnnouncesOids(flags)
  }

  /** The count and the fields of a tuple stand here; an announced OID is a field but is not counted. */
  ghost predicate TupleStands(chunk: seq<byte>, pos: nat, oids: bool, columns: nat, cells: seq<Cell>) {
    && (if oids then 0 < columns else true) && columns <= 0x7FFF
    && At(chunk, pos, Count(if oids then columns - 1 else columns))
    && FieldsStandAt(chunk, pos + 2, columns, cells)
  }

  lemma WordStands(chunk: seq<byte>, pos: nat, n: nat)
    requires pos + 2 <= |chunk| && n <= 0x7FFF
    ensures At(chunk, pos, Count(n)) <==> Signed16(FromBE16(chunk[pos..pos + 2])) == n
  {
    var s := chunk[pos..pos + 2];
    assert BE16(FromBE16(s)) == s;
    RoundTrip16(n);
  }

  lemma CountStands(chunk: seq<byte>, pos: nat, oids: bool, columns: nat)
    requires pos + 2 <= |chunk|
    ensures var count := Signed16(FromBE16(chunk[pos..pos + 2]));
            count != -1 && ColumnCount(count, oids) == columns <==>
            (oids ==> 0 < columns) && columns <= 0x7FFF && At(chunk, pos, Count(if oids then columns - 1 else columns))
  {
    if (oids ==> 0 < columns) && columns <= 0x7FFF {
      WordStands(chunk, pos, if oids then columns - 1 else columns);
    }
  }

  /** On any bytes: a tuple is read exactly where one of so many columns stands, and then as its fields; -1 ends. */
  lemma TupleExactly(chunk: seq<byte>, pos: nat, oids: bool, columns: nat)
    requires pos <= |chunk|
    ensures ReadTuple(chunk, pos, oids, columns).RowRead? <==> exists cells :: TupleStands(chunk, pos, oids, columns, cells)
    ensures forall cells :: TupleStands(chunk, pos, oids, columns, cells) ==>
              ReadBack(chunk, ReadTuple(chunk, pos, oids, columns), cells)
    ensures ReadTuple(chunk, pos, oids, columns).Finished? <==> At(chunk, pos, TRAILER)
  {
    if pos + 2 <= |chunk| {
      CountStands(chunk, pos, oids, columns);
      FieldsReadExactly(chunk, pos + 2, columns);
      var s := chunk[pos..pos + 2];
      assert Signed16(FromBE16(s)) == -1 <==> s == TRAILER;
    }
    if ReadTuple(chunk, pos, oids, columns).RowRead? {
      var cells :| FieldsStandAt(chunk, pos + 2, columns, cells);
      assert TupleStands(chunk, pos, oids, columns, cells);
    }
  }

  // ---------------------------------------------------------------------------
  // The whole file, as the server reads it
  // ---------------------------------------------------------------------------

  /** All rows up to the trailer, which must come last. */
  function ReadTuples(file: seq<byte>, pos: nat, columns: nat): Option<seq<seq<Cell>>>
    requires pos <= |file|
    decreases |file| - pos
  {
    if |file| - pos < 2 then None
    else
      var count := Signed16(FromBE16(file[pos..pos + 2]));
      if count == -1 then if pos + 2 == |file| then Some([]) else None
      else if count != columns then None
      else
        match ReadFields(file, pos + 2, columns)
        case None => None
        case Some(row) =>
          if row.end <= pos || row.end > |file| then None
          else match ReadTuples(file, row.end, columns)
            case None => None
            case Some(rest) => Some([Slices(file, row.ranges)] + rest)
  }

  function ReadFile(file: seq<byte>, columns: nat): Option<seq<seq<Cell>>> {
    match ReadHeader(file)
    case None => None
    case Some((pos, hasOids)) => if hasOids then None else ReadTuples(file, pos, columns)
  }

  /** The rows one after the other, first row first. */
  function TuplesFront(rows: seq<seq<Cell>>): seq<byte> {
    if rows == [] then [] else Tuple(rows[0]) + TuplesFront(rows[1..])
  }

  lemma {:induction false} TuplesFrontPush(rows: seq<seq<Cell>>, row: seq<Cell>)
    ensures TuplesFront(rows + [row]) == TuplesFront(rows) + Tuple(row)
  {
    if rows == [] {
      assert ([] + [row])[1..] == [];
      AppendEmpty(Tuple(row));
    } else {
      assert (rows + [row])[1..] == rows[1..] + [row];
      TuplesFrontPush(rows[1..], row);
      AppendAssoc(Tuple(rows[0]), TuplesFront(rows[1..]), Tuple(row));
    }
  }

  lemma {:induction false} TuplesAreFront(rows: seq<seq<Cell>>)
    ensures Tuples(rows) == TuplesFront(rows)
  {
    if rows != [] {
      var front, last := Front(rows), Last(rows);
      assert rows == front + [last];
      TuplesAreFront(front);
      TuplesFrontPush(front, last);
    }
  }

  lemma TrailerAt(file: seq<byte>, pos: nat, columns: nat)
    requires At(file, pos, TRAILER) && pos + 2 == |file|
    ensures ReadTuples(file, pos, columns) == Some([])
  {}

  lemma TupleStep(file: seq<byte>, pos: nat, cells: seq<Cell>, n: nat, end: nat, rest: seq<seq<Cell>>)
    requires At(file, pos, Tuple(cells)) && AllTransmittable(cells)
    requires n == |cells| <= 0x7FFF && end == pos + |Tuple(cells)|
    ensures end <= |file| && (ReadTuples(file, end, n) == Some(rest) ==> ReadTuples(file, pos, n) == Some([cells] + rest))
  {
    AtSplit(file, pos, Count(n), Fields(cells));
    CountAt(file, pos, n);
    FieldsAt(file, pos + 2, cells, n, end);
    if ReadTuples(file, end, n) == Some(rest) {
      TupleRead(file, pos, n, cells, end, rest);
    }
  }

  lemma TupleRead(file: seq<byte>, pos: nat, n: nat, cells: seq<Cell>, end: nat, rest: seq<seq<Cell>>)
    requires pos + 2 <= end <= |file| && n <= 0x7FFF
    requires Signed16(FromBE16(file[pos..pos + 2])) == n && ReadAs(file, pos + 2, n, cells, end)
    requires ReadTuples(file, end, n) == Some(rest)
    ensures ReadTuples(file, pos, n) == Some([cells] + rest)
  {}

  lemma FirstTupleAt(file: seq<byte>, pos: nat, rows: seq<seq<Cell>>, row: seq<Cell>, more: seq<seq<Cell>>, end: nat)
    requires rows != [] && row == rows[0] && more == rows[1..] && end == pos + |Tuple(row)|
    requires At(file, pos, TuplesFront(rows) + TRAILER)
    ensures At(file, pos, Tuple(row)) && At(file, end, TuplesFront(more) + TRAILER)
    ensures |TuplesFront(rows)| == |Tuple(row)| + |TuplesFront(more)| && [row] + more == rows
  {
    AppendAssoc(Tuple(row), TuplesFront(more), TRAILER);
    AtSplit(file, pos, Tuple(row), TuplesFront(more) + TRAILER);
  }

  lemma {:induction false} TuplesReadBack(file: seq<byte>, pos: nat, rows: seq<seq<Cell>>, columns: nat)
    requires Uniform(rows, columns) && columns <= 0x7FFF
    requires At(file, pos, TuplesFront(rows) + TRAILER) && pos + |TuplesFront(rows)| + 2 == |file|
    ensures ReadTuples(file, pos, columns) == Some(rows)
    decreases |rows|
  {
    if rows == [] {
      AppendEmpty(TRAILER);
      TrailerAt(file, pos, columns);
    } else {
      var row, more, end := rows[0], rows[1..], pos + |Tuple(rows[0])|;
      FirstTupleAt(file, pos, rows, row, more, end);
      TuplesReadBack(file, end, more, columns);
      TupleStep(file, pos, row, columns, end, more);
    }
  }

  lemma FileReadBack(file: seq<byte>, cells: seq<seq<Cell>>, columns: nat)
    requires Uniform(cells, columns) && columns <= 0x7FFF
    requires file == HEADER + Tuples(cells) + TRAILER
    ensures ReadFile(file, columns) == Some(cells)
  {
    TuplesAreFront(cells);
    AppendAssoc(HEADER, TuplesFront(cells), TRAILER);
    assert At(file, 0, HEADER + (TuplesFront(cells) + TRAILER));
    AtSplit(file, 0, HEADER, TuplesFront(cells) + TRAILER);
    HeaderReadBack(file);
    TuplesReadBack(file, HEADER_LEN, cells, columns);
  }

  ghost predicate HaveColumns(rows: seq<seq<Value>>, columns: nat) {
    forall i :: 0 <= i < |rows| ==> |rows[i]| == columns
  }

  lemma CellsAreUniform(rows: seq<seq<Value>>, columns: nat)
    requires RowsEncodable(rows) && HaveColumns(rows, columns)
    ensures Uniform(AllCells(rows), columns)
  {
    forall i | 0 <= i < |rows| ensures AllTransmittable(AllCells(rows)[i]) {
      EncodeMeaning(rows[i], 0);
    }
  }

  /** What the writer sends, in however many flushes, is read back as the rows written. */
  lemma FileRoundTrip(rows: seq<seq<Value>>, columns: nat)
    requires RowsEncodable(rows) && columns <= 0x7FFF && HaveColumns(rows, columns)
    ensures ReadFile(FileAfter(WriteAll(rows)), columns) == Some(AllCells(rows))
  {
    WrittenFile(rows);
    CellsAreUniform(rows, columns);
    FileReadBack(FileAfter(WriteAll(rows)), AllCells(rows), columns);
  }

  // ---------------------------------------------------------------------------
  // Rows that fail
  // ---------------------------------------------------------------------------

  /** What has been sent once the copy is finished. */
  function FileAfter(w: Writer): seq<byte> { Concat(Finish(w).sent) }

  /** The rows whose writing was reported to have succeeded. */
  function Reported(rows: seq<seq<Value>>): seq<seq<Cell>> {
    if rows == [] then []
    else Reported(Front(rows)) + if EncodeRow(Last(rows)).error.None? then [Cells(Last(rows))] else []
  }

  function Encodings(rows: seq<seq<Value>>): seq<byte> {
    if rows == [] then [] else Encodings(Front(rows)) + EncodeRow(Last(rows)).bytes
  }

  lemma RowIsTuple(values: seq<Value>)
    ensures EncodeRow(values).error.None? <==> AllEncodable(values)
    ensures AllEncodable(values) ==> EncodeRow(values).bytes == Tuple(Cells(values)) && AllTransmittable(Cells(values))
    ensures |EncodeRow(values).bytes| >= 2
  {
    EncodeMeaning(values, 0);
  }

  lemma WriteAddsBytes(w: Writer, values: seq<Value>)
    ensures Total(WriteRow(w, values).0) == Total(w) + EncodeRow(values).bytes
  {
    SendKeepsTotal(w.(buf := w.buf + EncodeRow(values).bytes));
    AppendAssoc(Concat(w.sent), w.buf, EncodeRow(values).bytes);
  }

  lemma {:induction false} TotalIsEncodings(rows: seq<seq<Value>>)
    ensures Total(WriteAll(rows)) == HEADER + Encodings(rows)
  {
    if rows == [] {
      AppendEmpty(HEADER);
    } else {
      TotalIsEncodings(Front(rows));
      WriteAddsBytes(WriteAll(Front(rows)), Last(rows));
      AppendAssoc(HEADER, Encodings(Front(rows)), EncodeRow(Last(rows)).bytes);
    }
  }

  lemma FileIsTotal(w: Writer)
    ensures FileAfter(w) == Total(w) + TRAILER
  {
    SendKeepsTotal(w.(buf := w.buf + TRAILER));
    AppendAssoc(Concat(w.sent), w.buf, TRAILER);
    AppendEmpty(FileAfter(w));
  }

  lemma TuplesPush(rows: seq<seq<Cell>>, row: seq<Cell>)
    ensures Tuples(rows + [row]) == Tuples(rows) + Tuple(row)
  {
    assert Front(rows + [row]) == rows;
  }

  /** All rows encode: nothing else is written. Some row does not: what it leaves makes the file longer. */
  lemma {:induction false} EncodingsOfReported(rows: seq<seq<Value>>)
    ensures RowsEncodable(rows) ==> Encodings(rows) == Tuples(Reported(rows))
    ensures !RowsEncodable(rows) ==> |Encodings(rows)| > |Tuples(Reported(rows))|
  {
    if rows != [] {
      var front, last := Front(rows), Last(rows);
      EncodingsOfReported(front);
      RowIsTuple(last);
      EncodableRowsPush(rows);
      if AllEncodable(last) {
        TuplesPush(Reported(front), Cells(last));
      } else {
        AppendEmpty(Reported(front));
      }
    }
  }

  lemma EncodableRowsPush(rows: seq<seq<Value>>)
    requires rows != []
    ensures RowsEncodable(rows) <==> RowsEncodable(Front(rows)) && AllEncodable(Last(rows))
  {}

  /**
   While the sink accepts everything, the file is the header, the tuples of exactly the rows
   reported to be written, and the trailer, if and only if no row failed.
   */
  lemma FileIsReportedExactly(rows: seq<seq<Value>>)
    ensures FileAfter(WriteAll(rows)) == HEADER + Tuples(Reported(rows)) + TRAILER <==> RowsEncodable(rows)
  {
    TotalIsEncodings(rows);
    EncodingsOfReported(rows);
    FileIsTotal(WriteAll(rows));
  }

  // the same for what the server reads

  lemma CountStandsAt(file: seq<byte>, pos: nat, n: nat)
    requires pos + 2 <= |file| && Signed16(FromBE16(file[pos..pos + 2])) == n
    ensures At(file, pos, Count(n)) && n <= 0x7FFF
  {
    var s := file[pos..pos + 2];
    assert FromBE16(s) == n && BE16(n) == s;
  }

  lemma AtJoin(file: seq<byte>, pos: nat, a: seq<byte>, b: seq<byte>)
    requires At(file, pos, a) && At(file, pos + |a|, b)
    ensures At(file, pos, a + b)
  {
    assert file[pos..pos + |a + b|] == file[pos..pos + |a|] + file[pos + |a|..pos + |a| + |b|];
  }

  lemma TrailerStandsAt(file: seq<byte>, pos: nat)
    requires pos + 2 == |file| && Signed16(FromBE16(file[pos..pos + 2])) == -1
    ensures At(file, pos, TRAILER)
  {
    assert file[pos..pos + 2] == TRAILER;
  }

  lemma TupleStandsAt(file: seq<byte>, pos: nat, n: nat, row: Row, cells: seq<Cell>)
    requires pos + 2 <= |file| && Signed16(FromBE16(file[pos..pos + 2])) == n
    requires ReadFields(file, pos + 2, n) == Some(row) && cells == Slices(file, row.ranges)
    ensures At(file, pos, Tuple(cells)) && row.end == pos + |Tuple(cells)| && |cells| == n
  {
    CountStandsAt(file, pos, n);
    ReadFieldsStand(file, pos + 2, n);
    AtJoin(file, pos, Count(n), Fields(cells));
  }

  lemma ReadTuplesStep(file: seq<byte>, pos: nat, columns: nat, rows: seq<seq<Cell>>)
    requires pos <= |file| && ReadTuples(file, pos, columns) == Some(rows)
    ensures pos + 2 <= |file|
    ensures Signed16(FromBE16(file[pos..pos + 2])) == -1 ==> pos + 2 == |file| && rows == []
    ensures Signed16(FromBE16(file[pos..pos + 2])) != -1 ==>
              var row := ReadFields(file, pos + 2, columns);
              Signed16(FromBE16(file[pos..pos + 2])) == columns && row.Some? && rows != [] &&
              rows[0] == Slices(file, row.value.ranges) &&
              row.value.end <= |file| && ReadTuples(file, row.value.end, columns) == Some(rows[1..])
  {}

  lemma {:induction false} ReadTuplesStand(file: seq<byte>, pos: nat, columns: nat, rows: seq<seq<Cell>>)
    requires pos <= |file| && ReadTuples(file, pos, columns) == Some(rows)
    ensures At(file, pos, TuplesFront(rows) + TRAILER) && pos + |TuplesFront(rows)| + 2 == |file|
    decreases |rows|
  {
    ReadTuplesStep(file, pos, columns, rows);
    if Signed16(FromBE16(file[pos..pos + 2])) == -1 {
      TrailerStandsAt(file, pos);
      AppendEmpty(TRAILER);
    } else {
      var row := ReadFields(file, pos + 2, columns).value;
      TupleStandsAt(file, pos, columns, row, rows[0]);
      ReadTuplesStand(file, row.end, columns, rows[1..]);
      TuplesStandPush(file, pos, row.end, rows, Tuple(rows[0]), TuplesFront(rows[1..]));
    }
  }

  lemma TuplesFrontCons(rows: seq<seq<Cell>>, first: seq<byte>, more: seq<byte>)
    requires rows != [] && first == Tuple(rows[0]) && more == TuplesFront(rows[1..])
    ensures TuplesFront(rows) == first + more && TuplesFront(rows) + TRAILER == first + (more + TRAILER)
  {
    AppendAssoc(first, more, TRAILER);
  }

  lemma TuplesStandPush(file: seq<byte>, pos: nat, end: nat, rows: seq<seq<Cell>>, first: seq<byte>, more: seq<byte>)
    requires rows != [] && first == Tuple(rows[0]) && more == TuplesFront(rows[1..])
    requires At(file, pos, first) && end == pos + |first|
    requires At(file, end, more + TRAILER) && end + |more| + 2 == |file|
    ensures At(file, pos, TuplesFront(rows) + TRAILER) && pos + |TuplesFront(rows)| + 2 == |file|
  {
    AtJoin(file, pos, first, more + TRAILER);
    TuplesFrontCons(rows, first, more);
  }

  lemma ReadFileStands(file: seq<byte>, columns: nat, rows: seq<seq<Cell>>)
    requires At(file, 0, HEADER) && ReadFile(file, columns) == Some(rows)
    ensures file == HEADER + Tuples(rows) + TRAILER
  {
    HeaderReadBack(file);
    ReadTuplesStand(file, HEADER_LEN, columns, rows);
    TuplesAreFront(rows);
    AtJoin(file, 0, HEADER, TuplesFront(rows) + TRAILER);
    AppendAssoc(HEADER, TuplesFront(rows), TRAILER);
    assert file[0..|file|] == file;
  }

  lemma {:induction false} ReportedOfEncodable(rows: seq<seq<Value>>)
    requires RowsEncodable(rows)
    ensures Reported(rows) == AllCells(rows)
  {
    if rows != [] {
      EncodableRowsPush(rows);
      ReportedOfEncodable(Front(rows));
      RowIsTuple(Last(rows));
      assert AllCells(rows) == AllCells(Front(rows)) + [Cells(Last(rows))];
    }
  }

  /** The server reads exactly the rows reported to be written if and only if no row failed. */
  lemma TransferIsReportedExactly(rows: seq<seq<Value>>, columns: nat)
    requires columns <= 0x7FFF && HaveColumns(rows, columns)
    ensures ReadFile(FileAfter(WriteAll(rows)), columns) == Some(Reported(rows)) <==> RowsEncodable(rows)
  {
    var file := FileAfter(WriteAll(rows));
    FileIsReportedExactly(rows);
    if RowsEncodable(rows) {
      ReportedOfEncodable(rows);
      FileRoundTrip(rows, columns);
    } else if ReadFile(file, columns) == Some(Reported(rows)) {
      FileStartsWithHeader(rows);
      ReadFileStands(file, columns, Reported(rows));
    }
  }

  lemma FileStartsWithHeader(rows: seq<seq<Value>>)
    ensures At(FileAfter(WriteAll(rows)), 0, HEADER)
  {
    TotalIsEncodings(rows);
    FileIsTotal(WriteAll(rows));
    AppendAssoc(HEADER, Encodings(rows), TRAILER);
  }

  // what is read instead

  lemma EncodingsPush(rows: seq<seq<Value>>, front: seq<seq<Value>>, last: seq<Value>)
    requires rows == front + [last]
    ensures Encodings(rows) == Encodings(front) + EncodeRow(last).bytes
  {
    assert Front(rows) == front;
  }

  lemma {:induction false} EncodingsAppend(xs: seq<seq<Value>>, ys: seq<seq<Value>>, both: seq<seq<Value>>)
    requires both == xs + ys
    ensures Encodings(both) == Encodings(xs) + Encodings(ys)
    decreases |ys|
  {
    if ys == [] {
      AppendEmpty(xs);
      AppendEmpty(Encodings(xs));
    } else {
      var front, last := Front(ys), Last(ys);
      EncodingsAppend(xs, front, xs + front);
      EncodingsPush(ys, front, last);
      EncodingsPush(both, xs + front, last);
      AppendAssoc(Encodings(xs), Encodings(front), EncodeRow(last).bytes);
    }
  }

  /** A last value that fails without writing anything leaves what an empty value leaves. */
  lemma {:induction false} FailureLooksEmpty(front: seq<Value>, i: nat)
    requires AllEncodable(front)
    ensures EncodeFrom(front + [Fails([])], i).bytes == EncodeFrom(front + [Bytes([])], i).bytes
    ensures EncodeFrom(front + [Fails([])], i).error == Some(ToSqlError(i + |front|))
    decreases |front|
  {
    var bad, good := front + [Fails([])], front + [Bytes([])];
    if front == [] {
      AppendEmpty(BE32(0));
      assert good[1..] == [];
    } else {
      AllEncodableCons(front);
      assert bad[1..] == front[1..] + [Fails([])] && good[1..] == front[1..] + [Bytes([])];
      FailureLooksEmpty(front[1..], i + 1);
    }
  }

  lemma {:induction false} CellsAppend(front: seq<Value>, v: Value)
    ensures Cells(front + [v]) == Cells(front) + Cells([v])
  {
    if front == [] {
      AppendEmpty([v]);
      AppendEmpty(Cells([v]));
    } else {
      assert (front + [v])[1..] == front[1..] + [v];
      CellsAppend(front[1..], v);
    }
  }

  lemma EncodableRowsAppend(a: seq<seq<Value>>, b: seq<seq<Value>>)
    requires RowsEncodable(a) && RowsEncodable(b)
    ensures RowsEncodable(a + b)
  {}

  /** `bad` ends in a value that fails without writing anything, `good` has an empty one there. */
  ghost predicate Emptied(bad: seq<Value>, good: seq<Value>) {
    exists front: seq<Value> ::
      AllEncodable(front) && bad == front + [Fails([])] && good == front + [Bytes([])]
  }

  lemma SplitEncodings(before: seq<seq<Value>>, row: seq<Value>, after: seq<seq<Value>>)
    ensures Encodings(before + [row] + after) == Encodings(before) + EncodeRow(row).bytes + Encodings(after)
  {
    EncodingsPush(before + [row], before, row);
    EncodingsAppend(before + [row], after, before + [row] + after);
  }

  lemma SameFile(bad: seq<seq<Value>>, good: seq<seq<Value>>)
    requires Encodings(bad) == Encodings(good)
    ensures FileAfter(WriteAll(bad)) == FileAfter(WriteAll(good))
  {
    TotalIsEncodings(bad);
    TotalIsEncodings(good);
    FileIsTotal(WriteAll(bad));
    FileIsTotal(WriteAll(good));
  }

  /** A row leaving the bytes of another is read as the other. */
  lemma ReadAsTwin(before: seq<seq<Value>>, bad: seq<Value>, good: seq<Value>, after: seq<seq<Value>>, columns: nat)
    requires EncodeRow(bad).bytes == EncodeRow(good).bytes
    requires RowsEncodable(before + [good] + after)
    requires columns <= 0x7FFF && HaveColumns(before + [good] + after, columns)
    ensures ReadFile(FileAfter(WriteAll(before + [bad] + after)), columns) ==
            Some(AllCells(before) + [Cells(good)] + AllCells(after))
  {
    var bads, goods := before + [bad] + after, before + [good] + after;
    SplitEncodings(before, bad, after);
    SplitEncodings(before, good, after);
    SameFile(bads, goods);
    FileRoundTrip(goods, columns);
    SplitCells(before, good, after);
  }

  lemma SplitCells(before: seq<seq<Value>>, row: seq<Value>, after: seq<seq<Value>>)
    ensures AllCells(before + [row] + after) == AllCells(before) + [Cells(row)] + AllCells(after)
  {}

  lemma EmptiedIsTwin(bad: seq<Value>, good: seq<Value>)
    requires Emptied(bad, good)
    ensures EncodeRow(bad).bytes == EncodeRow(good).bytes
    ensures EncodeRow(bad).error == Some(ToSqlError(|bad| - 1))
    ensures AllEncodable(good) && Cells(good) == Cells(good[..|bad| - 1]) + [Some([])]
  {
    var front: seq<Value> :| AllEncodable(front) && bad == front + [Fails([])] && good == front + [Bytes([])];
    FailureLooksEmpty(front, 0);
    CellsAppend(front, Bytes([]));
    assert good[..|bad| - 1] == front;
    assert Cells([Bytes([])]) == [Some([])];
  }

  /**
   Whatever is written before and after it, a row whose last value fails without writing
   anything is transferred like a row with an empty value in its place.
   */
  lemma FailedRowLeaksIn(before: seq<seq<Value>>, bad: seq<Value>, good: seq<Value>, after: seq<seq<Value>>, columns: nat)
    requires Emptied(bad, good) && RowsEncodable(before) && RowsEncodable(after)
    requires columns <= 0x7FFF && HaveColumns(before + [good] + after, columns)
    ensures EncodeRow(bad).error == Some(ToSqlError(|bad| - 1))
    ensures ReadFile(FileAfter(WriteAll(before + [bad] + after)), columns) ==
            Some(AllCells(before) + [Cells(good)] + AllCells(after))
  {
    EmptiedIsTwin(bad, good);
    EncodableRowsAppend(before, [good]);
    EncodableRowsAppend(before + [good], after);
    ReadAsTwin(before, bad, good, after, columns);
  }

  // ---------------------------------------------------------------------------
  // The writer on a sink
  // ---------------------------------------------------------------------------

  /** Hands a chunk to the sink and waits until the channel has taken it. */
  function HandOver(s: CopyIn.Sink, chunk: seq<byte>): (CopyIn.Sink, Option<WriteError>) {
    if !CopyIn.Connected(s.channel) then (s, Some(Closed))
    else
      var (s1, r) := CopyIn.StartSend(s, chunk);
      match r
      case TooLong => (s1, Some(EncodeError))
      case Disconnected => (s1, Some(Closed))
      case Accepted =>
        var (s2, f) := CopyIn.Flush(s1, true, true);
        (s2, if f.Ready? then None else Some(Closed))
  }

  /** The buffer and the sink after a call, and its error. */
  function WriteRowTo(buf: seq<byte>, s: CopyIn.Sink, values: seq<Value>): (seq<byte>, CopyIn.Sink, Option<WriteError>) {
    var row := EncodeRow(values);
    var chunk := buf + row.bytes;
    if row.error.Some? then (chunk, s, row.error)
    else if |chunk| <= CHUNK then (chunk, s, None)
    else
      var (s', error) := HandOver(s, chunk);
      ([], s', error)
  }

  /** The sending part of finishing. */
  function FinishTo(buf: seq<byte>, s: CopyIn.Sink): (CopyIn.Sink, bool) {
    var (s1, error) := HandOver(s, buf + TRAILER);
    if error.Some? then (s1, false)
    else
      var (s2, r) := CopyIn.Finish(s1, true, true, true);
      (s2, r.Ready?)
  }

  /** A sink with nothing in it takes a large chunk if and only if it is connected and the length fits 32 bits. */
  lemma HandOverExactly(s: CopyIn.Sink, chunk: seq<byte>)
    requires s.buf == [] && |chunk| > CHUNK
    ensures HandOver(s, chunk).1.None? <==> CopyIn.Connected(s.channel) && |chunk| + 4 <= I32_MAX
    ensures HandOver(s, chunk).1 == Some(Closed) <==> !CopyIn.Connected(s.channel)
    ensures HandOver(s, chunk).1 == Some(EncodeError) <==> CopyIn.Connected(s.channel) && |chunk| + 4 > I32_MAX
    ensures HandOver(s, chunk).0 == if HandOver(s, chunk).1.None? then CopyIn.Push(s, CopyIn.CopyData(chunk)) else s
  {
    AppendEmpty(chunk);
  }

  /** As long as the sink takes the chunks, the writer does what is said above. */
  lemma TakenRow(w: Writer, s: CopyIn.Sink, values: seq<Value>)
    requires s.buf == [] && CopyIn.Connected(s.channel) && CopyIn.LengthFits(w.buf + EncodeRow(values).bytes)
    ensures var (buf, s', error) := WriteRowTo(w.buf, s, values);
            var (w', error') := WriteRow(w, values);
            && buf == w'.buf && error == error'
            && s' == (if w'.sent == w.sent then s else CopyIn.Push(s, CopyIn.CopyData(Last(w'.sent))))
  {
    var chunk := w.buf + EncodeRow(values).bytes;
    if |chunk| > CHUNK {
      HandOverExactly(s, chunk);
    }
  }

  // ---------------------------------------------------------------------------
  // The objects
  // ---------------------------------------------------------------------------

  class BinaryCopyInWriter {
    const columns: nat
    const buf: BytesMut
    const sink: CopyIn.CopyInSink

    constructor (columns: nat, sink: CopyIn.CopyInSink)
      ensures this.columns == columns && this.sink == sink && buf.bytes == HEADER && fresh(buf)
    {
      this.columns, this.sink := columns, sink;
      buf := new BytesMut();
      new;
      AppendEmpty(MAGIC);
      buf.Extend(MAGIC);
      buf.Extend(BE32(0));
      buf.Extend(BE32(0));
    }

    /** Appends what the value's serializer appends. */
    method ToSqlChecked(v: Value) returns (r: Option<IsNull>)
      modifies buf
      ensures buf.bytes == old(buf.bytes) + (match v case Null => [] case Bytes(b) => b case Fails(p) => p)
      ensures r == match v case Null => Some(IsNull.Yes) case Bytes(_) => Some(IsNull.No) case Fails(_) => None
    {
      match v
      case Null => r := Some(IsNull.Yes);
      case Bytes(bytes) =>
        buf.Extend(bytes);
        r := Some(IsNull.No);
      case Fails(partial) =>
        buf.Extend(partial);
        r := None;
    }

    /** One value: a slot for the length, the value, then the length into the slot. */
    method WriteValue(v: Value, index: nat) returns (error: Option<WriteError>)
      modifies buf
      ensures var e := EncodeFrom([v], index);
              buf.bytes == old(buf.bytes) + e.bytes && error == e.error
    {
      ghost var before := buf.bytes;
      EncodeAlone(v, index);
      var idx := |buf.bytes|;
      buf.Extend(BE32(0));
      var isNull := ToSqlChecked(v);
      if isNull.None? {
        AppendAssoc(before, BE32(0), v.partial);
        return Some(ToSqlError(index));
      }
      var len: int := -1;
      if isNull.value.No? {
        len := |buf.bytes| - idx - 4;
        if len > I32_MAX {
          AppendAssoc(before, BE32(0), v.bytes);
          return Some(EncodeError);
        }
      }
      SlotFilled(buf.bytes, before, BE32(0), BE32(len), if v.Bytes? then v.bytes else []);
      buf.Patch32(idx, len);
      return None;
    }

    method SendBuffer() returns (error: Option<WriteError>)
      modifies buf, sink, sink.sender
      ensures buf.bytes == [] && (sink.View(), error) == HandOver(old(sink.View()), old(buf.bytes))
    {
      var chunk := buf.Split();
      if !(sink.sender.open && sink.sender.alive) {
        return Some(Closed);
      }
      var sent := sink.StartSendItem(chunk);
      match sent {
        case TooLong => return Some(EncodeError);
        case Disconnected => return Some(Closed);
        case Accepted =>
      }
      var flushed := sink.PollFlush(true, true);
      return if flushed.Ready? then None else Some(Closed);
    }

    method WriteRaw(values: seq<Value>) returns (error: Option<WriteError>)
      requires |values| == columns
      modifies buf, sink, sink.sender
      ensures (buf.bytes, sink.View(), error) == WriteRowTo(old(buf.bytes), old(sink.View()), values)
    {
      ghost var before := buf.bytes;
      buf.Extend(Count(columns));
      ghost var start := buf.bytes;
      var i := 0;
      assert values[0..] == values;
      while i < |values|
        invariant i <= |values| && sink.View() == old(sink.View())
        invariant buf.bytes + EncodeFrom(values[i..], i).bytes == start + EncodeFrom(values, 0).bytes
        invariant EncodeFrom(values[i..], i).error == EncodeFrom(values, 0).error
      {
        ghost var soFar := buf.bytes;
        EncodeStep(soFar, values, i);
        error := WriteValue(values[i], i);
        if error.Some? {
          AppendAssoc(before, Count(columns), EncodeFrom(values, 0).bytes);
          return;
        }
        i := i + 1;
      }
      AppendAssoc(before, Count(columns), EncodeFrom(values, 0).bytes);
      AppendEmpty(buf.bytes);
      if |buf.bytes| > CHUNK {
        error := SendBuffer();
      } else {
        error := None;
      }
    }

    /** Waits until everything is sent; `reply` is the server's answer then. */
    method FinishCopy(reply: CopyIn.Reply) returns (r: CopyIn.FinishResult)
      modifies buf, sink, sink.sender
      ensures var f := FinishTo(old(buf.bytes), old(sink.View()));
              && buf.bytes == [] && sink.View() == f.0
              && r == if f.1 then CopyIn.FinishedWith(CopyIn.Ready, reply) else CopyIn.FinishFailed
    {
      buf.Extend(TRAILER);
      var error := SendBuffer();
      if error.Some? {
        return CopyIn.FinishFailed;
      }
      r := sink.PollFinish(true, true, true, reply);
    }
  }

  lemma EncodeAlone(v: Value, i: nat)
    ensures EncodeFrom([v], i) ==
            match v
            case Null => Encoded(BE32(-1) + [], None)
            case Fails(partial) => Encoded(BE32(0) + partial, Some(ToSqlError(i)))
            case Bytes(bytes) =>
              if |bytes| > I32_MAX then Encoded(BE32(0) + bytes, Some(EncodeError))
              else Encoded(BE32(|bytes|) + bytes, None)
  {
    assert [v][1..] == [];
    AppendEmpty(BE32(-1));
    if Encodable(v) {
      EncodeOne(v, i);
    }
  }

  lemma SlotFilled(all: seq<byte>, before: seq<byte>, slot: seq<byte>, filled: seq<byte>, value: seq<byte>)
    requires all == before + slot + value
    ensures all[..|before|] + filled + all[|before| + |slot|..] == before + (filled + value)
  {}

  lemma EncodeOne(v: Value, i: nat)
    requires Encodable(v)
    ensures EncodeFrom([v], i) == Encoded(if v.Null? then BE32(-1) else BE32(|v.bytes|) + v.bytes, None)
  {
    assert [v][1..] == [];
    AppendEmpty(if v.Null? then BE32(-1) else BE32(|v.bytes|) + v.bytes);
  }

  lemma EncodeCons(values: seq<Value>, v: Value, rest: seq<Value>, i: nat)
    requires values != [] && v == values[0] && rest == values[1..]
    ensures if Encodable(v) then
              EncodeFrom(values, i) == Before(EncodeFrom([v], i).bytes, EncodeFrom(rest, i + 1)) && EncodeFrom([v], i).error.None?
            else EncodeFrom(values, i) == EncodeFrom([v], i) && EncodeFrom([v], i).error.Some?
  {
    if Encodable(v) {
      EncodeOne(v, i);
    }
  }

  /** Encoding a value and then the rest is encoding from there on. */
  lemma EncodeStep(soFar: seq<byte>, values: seq<Value>, i: nat)
    requires i < |values|
    ensures var e, here, rest := EncodeFrom([values[i]], i), EncodeFrom(values[i..], i), EncodeFrom(values[i + 1..], i + 1);
            if e.error.Some? then here == e
            else here.error == rest.error && soFar + here.bytes == soFar + e.bytes + rest.bytes
  {
    var e, rest := EncodeFrom([values[i]], i), EncodeFrom(values[i + 1..], i + 1);
    EncodeCons(values[i..], values[i], values[i + 1..], i);
    AppendAssoc(soFar, e.bytes, rest.bytes);
  }

  datatype GetError = NoSuchColumn | WrongType

  class BinaryCopyOutStream {
    const columns: nat
    var header: Option<bool>

    constructor (columns: nat)
      ensures this.columns == columns && header == None
    {
      this.columns, header := columns, None;
    }

    method PollNext(chunk: seq<byte>) returns (r: ChunkResult)
      modifies `header
      ensures (header, r) == ReadChunk(old(header), chunk, columns)
    {
      var pos: nat := 0;
      if header.None? {
        var start := TakeHeader(chunk);
        if start.None? {
          return Malformed;
        }
        pos := start.value;
      }
      r := TakeTuple(chunk, pos, header.value);
    }

    /** The position behind the header, which is remembered. */
    method TakeHeader(chunk: seq<byte>) returns (start: Option<nat>)
      requires header.None?
      modifies `header
      ensures match ReadHeader(chunk)
              case None => start == None && header == None
              case Some((pos, hasOids)) => start == Some(pos) && header == Some(hasOids)
    {
      if |chunk| < HEADER_LEN {
        return None;
      }
      if chunk[..|MAGIC|] != MAGIC {
        return None;
      }
      var pos := |MAGIC|;
      var flags := FromBE32U(chunk[pos..pos + 4]);
      pos := pos + 4;
      var extension := FromBE32U(chunk[pos..pos + 4]);
      pos := pos + 4;
      if |chunk| - pos < extension {
        return None;
      }
      header := Some(HasOids(flags));
      return Some(pos + extension);
    }

    method TakeTuple(chunk: seq<byte>, start: nat, hasOids: bool) returns (r: ChunkResult)
      requires start <= |chunk|
      ensures r == ReadTuple(chunk, start, hasOids, columns)
    {
      if |chunk| - start < 2 {
        return Malformed;
      }
      var len := Signed16(FromBE16(chunk[start..start + 2]));
      if len == -1 {
        return Finished;
      }
      if hasOids {
        len := Signed16(Residue16(len + 1));
      }
      if len != columns {
        return Malformed;
      }
      var ranges := ReadRanges(chunk, start + 2);
      return if ranges.None? then Malformed else RowRead(ranges.value);
    }

    method ReadRanges(chunk: seq<byte>, start: nat) returns (r: Option<seq<Option<Range>>>)
      requires start <= |chunk|
      ensures var row := ReadFields(chunk, start, columns);
              r == if row.None? then None else Some(row.value.ranges)
    {
      var ranges: seq<Option<Range>> := [];
      var pos: nat := start;
      AfterNothing(ReadFields(chunk, start, columns));
      var i := 0;
      while i < columns
        invariant i <= columns && pos <= |chunk|
        invariant After(ranges, ReadFields(chunk, pos, columns - i)) == ReadFields(chunk, start, columns)
      {
        if |chunk| - pos < 4 {
          return None;
        }
        var len := FromBE32(chunk[pos..pos + 4]);
        if len == -1 {
          AfterStep(ranges, None, ReadFields(chunk, pos + 4, columns - i - 1));
          ranges := ranges + [None];
          pos := pos + 4;
        } else {
          // as an unsigned number a negative length exceeds every buffer
          if len < 0 || |chunk| - pos - 4 < len {
            return None;
          }
          AfterStep(ranges, Some(Range(pos + 4, pos + 4 + len)), ReadFields(chunk, pos + 4 + len, columns - i - 1));
          ranges := ranges + [Some(Range(pos + 4, pos + 4 + len))];
          pos := pos + 4 + len;
        }
        i := i + 1;
      }
      AppendEmpty(ranges);
      return Some(ranges);
    }

    /** The field of a row the stream has read. */
    method TryGet(chunk: seq<byte>, ranges: seq<Option<Range>>, idx: nat, accepts: bool) returns (r: Result<Cell, GetError>)
      requires |ranges| == columns && forall i :: 0 <= i < |ranges| && ranges[i].Some? ==> Inside(chunk, ranges[i].value)
      ensures r == if idx >= columns then Err(NoSuchColumn)
                   else if !accepts then Err(WrongType) else Ok(Slices(chunk, ranges)[idx])
    {
      if idx >= columns {
        return Err(NoSuchColumn);
      }
      if !accepts {
        return Err(WrongType);
      }
      SlicesAt(chunk, ranges, idx);
      match ranges[idx]
      case None => return Ok(None);
      case Some(range) => return Ok(Some(chunk[range.start..range.end]));
    }
  }

  /** `ranges` in front of what is still to be read. */
  function After(ranges: seq<Option<Range>>, rest: Option<Row>): Option<Row> {
    if rest.None? then None else Some(Row(ranges + rest.value.ranges, rest.value.end))
  }

  lemma AfterNothing(rest: Option<Row>)
    ensures After([], rest) == rest
  {
    if rest.Some? {
      AppendEmpty(rest.value.ranges);
    }
  }

  lemma AfterStep(ranges: seq<Option<Range>>, r: Option<Range>, rest: Option<Row>)
    ensures After(ranges, Cons(r, rest)) == After(ranges + [r], rest)
  {
    if rest.Some? {
      AppendAssoc(ranges, [r], rest.value.ranges);
    }
  }

  lemma {:induction false} SlicesAt(chunk: seq<byte>, ranges: seq<Option<Range>>, idx: nat)
    requires idx < |ranges|
    ensures Slices(chunk, ranges)[idx] == Slice(chunk, ranges[idx])
  {
    if idx > 0 {
      SlicesAt(chunk, ranges[1..], idx - 1);
    }
  }
}
