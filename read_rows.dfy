/** `decode_read_rows_response` in its own imperative form: seven mutable
    locals, a loop over the messages of the stream and, inside it, a loop
    over the chunks of each message. */
module ReadRows {
  import opened BigtableTypes
  import opened ReadRowsSpec

  method DecodeReadRowsResponse(timeout: Option<Duration>, stream: seq<Incoming>)
    returns (r: Result<seq<Row>, Error>)
    ensures r == Decode(timeout, stream)
  {
    var rows: seq<Row> := [];
    var rowKey: Option<RowKey> := None;
    var rowData: seq<RowCell> := [];
    var cellFamilyName: Option<string> := None;
    var cellName: Option<Bytes> := None;
    var cellTimestamp: int64 := 0;
    var cellValue: Bytes := [];

    var m := 0;
    while m < |stream|
      invariant m <= |stream|
      invariant Drive(timeout, State(rows, rowKey, rowData, cellFamilyName, cellName, cellTimestamp, cellValue), stream[m..])
             == Decode(timeout, stream)
    {
      assert stream[m..][0] == stream[m] && stream[m..][1..] == stream[m + 1..];
      match stream[m]
      case StreamError(status) =>
        return Err(TransportError(status));
      case Batch(elapsed, chunks) =>
        if timeout.Some? && elapsed.nanos > timeout.value.nanos {
          return Err(TimeoutError(timeout.value.AsSecs()));
        }
        ghost var start := State(rows, rowKey, rowData, cellFamilyName, cellName, cellTimestamp, cellValue);
        for i := 0 to |chunks|
          invariant Fold(State(rows, rowKey, rowData, cellFamilyName, cellName, cellTimestamp, cellValue), chunks[i..])
                 == Fold(start, chunks)
        {
          ghost var before := State(rows, rowKey, rowData, cellFamilyName, cellName, cellTimestamp, cellValue);
          var chunk := chunks[i];

          // Starting a new row?
          if |chunk.rowKey| > 0 {
            rowKey := Some(chunk.rowKey);
          }

          // Starting a new cell? Close the pending one first.
          match chunk.qualifier {
            case None =>
            case Some(q) =>
              if cellName.Some? {
                var rowCell := RowCell(cellFamilyName.GetOr(""), cellName.value, cellValue, cellTimestamp);
                cellFamilyName := None;
                rowData := rowData + [rowCell];
                cellValue := [];
              }
              cellName := Some(q);
              cellFamilyName := chunk.familyName;
              cellTimestamp := chunk.timestampMicros;
          }
          cellValue := cellValue + chunk.value;

          // End of a row?
          match chunk.rowStatus {
            case None =>
            case Some(CommitRow(_)) =>
              if cellName.Some? {
                var name := cellName.value;
                cellName := None;
                var rowCell := RowCell(cellFamilyName.GetOr(""), name, cellValue, cellTimestamp);
                cellFamilyName := None;
                rowData := rowData + [rowCell];
                cellValue := [];
              }
              // else: a commit with no pending cell only raises a warning
              if rowKey.Some? {
                var key := rowKey.value;
                rowKey := None;
                rows := rows + [(key, rowData)];
                rowData := [];
              }
            case Some(ResetRow(_)) =>
              rowKey := None;
              rowData := [];
          }

          assert State(rows, rowKey, rowData, cellFamilyName, cellName, cellTimestamp, cellValue)
              == Step(before, chunk);
          assert chunks[i..][1..] == chunks[i + 1..];
        }
        assert chunks[|chunks|..] == [];
        m := m + 1;
    }
    r := Ok(rows);
  }
}
