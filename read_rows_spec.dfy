/** The reassembler of `decode_read_rows_response` as a pure state machine:
    one transition per chunk, a fold over the chunks of a batch, and the
    drive over the stream of batches with the per-batch deadline check. */
module ReadRowsSpec {
  import opened BigtableTypes

  /** The seven mutable locals of the decoder: the rows emitted so far, the
      open row (key and closed cells) and the pending cell. A cell is pending
      exactly when `cellName` is present. */
  datatype State = State(
    rows: seq<Row>,
    rowKey: Option<RowKey>,
    rowData: seq<RowCell>,
    cellFamilyName: Option<string>,
    cellName: Option<Bytes>,
    cellTimestamp: int64,
    cellValue: Bytes)

  /** The state at the start of a decode call. */
  function Init(): State {
    State([], None, [], None, None, 0, [])
  }

  /** The pending cell as it is closed: an absent family name becomes "". */
  function PendingCell(s: State): RowCell
    requires s.cellName.Some?
  {
    RowCell(s.cellFamilyName.GetOr(""), s.cellName.value, s.cellValue, s.cellTimestamp)
  }

  /** Closing the pending cell: it is pushed onto the open row, the family
      name is taken, the qualifier cleared and the value buffer emptied. */
  function CloseCell(s: State): State
    requires s.cellName.Some?
  {
    s.(rowData := s.rowData + [PendingCell(s)], cellFamilyName := None, cellName := None, cellValue := [])
  }

  /** A non-empty row key on the chunk replaces the open row's key. */
  function TakeRowKey(s: State, c: Chunk): State {
    if |c.rowKey| > 0 then s.(rowKey := Some(c.rowKey)) else s
  }

  /** A qualifier on the chunk starts a new cell, closing a pending one first. */
  function StartCell(s: State, c: Chunk): State {
    match c.qualifier
    case None => s
    case Some(q) =>
      var t := if s.cellName.Some? then CloseCell(s) else s;
      t.(cellName := Some(q), cellFamilyName := c.familyName, cellTimestamp := c.timestampMicros)
  }

  /** Everything a chunk does before its row status is looked at: row key,
      cell start, then its value bytes appended to the buffer. */
  function Absorb(s: State, c: Chunk): (r: State)
    ensures r.rows == s.rows
    ensures r.cellName == if c.qualifier.Some? then c.qualifier else s.cellName
  {
    var t := StartCell(TakeRowKey(s, c), c);
    t.(cellValue := t.cellValue + c.value)
  }

  /** The row-status marker: nothing, commit the open row, or reset it. */
  function ApplyStatus(s: State, status: Option<RowStatus>): (r: State)
    ensures s.rows <= r.rows && |r.rows| <= |s.rows| + 1
    ensures status.Some? ==> r.rowKey.None?
    ensures status.None? || status.value.ResetRow? ==> r.rows == s.rows
  {
    match status
    case None => s
    case Some(CommitRow(_)) =>
      var t := if s.cellName.Some? then CloseCell(s) else s;
      (match t.rowKey
       case Some(k) => t.(rows := t.rows + [(k, t.rowData)], rowKey := None, rowData := [])
       case None => t)
    case Some(ResetRow(_)) =>
      s.(rowKey := None, rowData := [])
  }

  /** One iteration of the chunk loop. Rows are only ever appended, at most
      one per chunk. */
  function Step(s: State, c: Chunk): (r: State)
    ensures s.rows <= r.rows && |r.rows| <= |s.rows| + 1
  {
    ApplyStatus(Absorb(s, c), c.rowStatus)
  }

  /** The chunk loop over one batch (or any chunk sequence). */
  function Fold(s: State, cs: seq<Chunk>): (r: State)
    ensures s.rows <= r.rows
    decreases |cs|
  {
    if cs == [] then s else Fold(Step(s, cs[0]), cs[1..])
  }

  /** The deadline check made once per received batch. */
  predicate Late(timeout: Option<Duration>, elapsed: Duration) {
    timeout.Some? && elapsed.nanos > timeout.value.nanos
  }

  /** The message loop from state `s`: a failed read or a late batch ends the
      call with an error and no rows; the end of the stream returns the rows
      emitted so far and drops whatever row or cell is still open. */
  function Drive(timeout: Option<Duration>, s: State, stream: seq<Incoming>): (r: Result<seq<Row>, Error>)
    ensures r.Ok? ==> s.rows <= r.value
    ensures r.Err? && r.error.TimeoutError? ==> timeout.Some? && r.error.secs == timeout.value.AsSecs()
    decreases |stream|
  {
    if stream == [] then Ok(s.rows)
    else
      match stream[0]
      case StreamError(status) => Err(TransportError(status))
      case Batch(elapsed, chunks) =>
        if Late(timeout, elapsed) then Err(TimeoutError(timeout.value.AsSecs()))
        else Drive(timeout, Fold(s, chunks), stream[1..])
  }

  /** The whole decode call. */
  function Decode(timeout: Option<Duration>, stream: seq<Incoming>): (r: Result<seq<Row>, Error>)
    ensures r.Err? && r.error.TimeoutError? ==> timeout.Some? && r.error.secs == timeout.value.AsSecs()
    ensures stream == [] ==> r == Ok([])
  {
    Drive(timeout, Init(), stream)
  }
}
