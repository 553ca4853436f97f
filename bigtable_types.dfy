/** Plain values exchanged by the row reassembler: the chunk fields it reads,
    the cells and rows it produces, the clock reading and the error type. */
module BigtableTypes {

  datatype Option<+T> = None | Some(value: T) {
    /** The wrapped value, or `default` when there is none (`unwrap_or`). */
    function GetOr(default: T): T {
      match this
      case Some(v) => v
      case None => default
    }
  }

  datatype Result<+R, +E> = Ok(value: R) | Err(error: E)

  newtype byte = x: int | 0 <= x < 0x100

  /** `Vec<u8>` */
  type Bytes = seq<byte>

  /** `i64`, the width of a cell timestamp */
  newtype int64 = x: int | -0x8000_0000_0000_0000 <= x < 0x8000_0000_0000_0000

  type RowKey = Bytes

  /** One completed cell of a row. */
  datatype RowCell = RowCell(familyName: string, qualifier: Bytes, value: Bytes, timestampMicros: int64)

  /** A completed row: its key and its cells in arrival order. */
  type Row = (RowKey, seq<RowCell>)

  /** The row-status marker a chunk may carry; the flag it wraps is never read. */
  datatype RowStatus = CommitRow(flag: bool) | ResetRow(flag: bool)

  /** The fields of a `CellChunk` that the reassembler reads. An empty `rowKey`
      means "no row key on this chunk". */
  datatype Chunk = Chunk(
    rowKey: RowKey,
    familyName: Option<string>,
    qualifier: Option<Bytes>,
    timestampMicros: int64,
    value: Bytes,
    rowStatus: Option<RowStatus>)

  /** A span of wall-clock time, counted in nanoseconds. */
  datatype Duration = Duration(nanos: nat) {
    /** Whole seconds, truncating the fraction (`Duration::as_secs`). */
    function AsSecs(): nat {
      nanos / 1_000_000_000
    }
  }

  /** The status a failed stream read reports; it is passed on untouched. */
  datatype Status = Status(code: int, message: string)

  datatype Error =
    | TimeoutError(secs: nat)
    | TransportError(status: Status)

  /** One outcome of pulling the next message off the response stream:
      a batch of chunks together with the time elapsed since the call
      started when it was received, or a failed read. The end of the
      stream is the end of the sequence of these. */
  datatype Incoming =
    | Batch(elapsed: Duration, chunks: seq<Chunk>)
    | StreamError(status: Status)
}
