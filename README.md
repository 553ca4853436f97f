# Bigtable `ReadRows` chunk reassembler

This project models `decode_read_rows_response` from `bigtable_rs`. That function
consumes the response stream of the Cloud Bigtable v2 `ReadRows` call and puts
rows back together from their `CellChunk` fragments. Each chunk may carry:

- a row key;
- a qualifier, which starts a new cell, with the cell's family name and timestamp;
- a fragment of the cell's value;
- a row status: none, `CommitRow` or `ResetRow`.

The decoder keeps seven mutable locals: the committed `rows`, the open row
(`row_key`, `row_data`) and the pending cell (`cell_family_name`, `cell_name`,
`cell_timestamp`, `cell_value`). It returns the committed rows when the stream
ends. It returns an error on a failed read, or when a batch arrives after the
deadline.

Files:

- `bigtable_types.dfy` (module `BigtableTypes`): chunks, cells, rows,
  `Duration`, the error type, and the items pulled off the stream. An
  `Incoming` item is a batch stamped with the time elapsed since the call
  started, or a failed read. The end of the sequence is the end of the stream.
- `read_rows_spec.dfy` (module `ReadRowsSpec`): the decoder as a pure state
  machine. `State` holds the seven locals. `Step` processes one chunk, `Fold`
  processes a batch and `Drive`/`Decode` process the stream with its
  per-batch deadline check.
- `read_rows.dfy` (module `ReadRows`): `DecodeReadRowsResponse`, the
  imperative decoder. It keeps the source's seven locals, its message loop and
  its chunk loop, and it is proved equal to `Decode`.
- `read_rows_properties.dfy` (module `ReadRowsProperties`): what the decoder
  promises, proved about `Step`, `Fold` and `Drive`.
- `reset_row_finding.dfy` (module `ResetRowFinding`): the reset leak listed
  under Findings, and the corrected transition.

Behaviours of the code that the model keeps on purpose:

- A commit with no row key does not clear the row's closed cells. They become
  the first cells of the next row committed without an intervening reset.
- A reset leaves the pending cell and the value buffer alone.
- Value bytes that arrive while no cell is pending stay in the buffer. They
  become a prefix of the next cell's value.
- Closing a cell takes its family name. A new cell whose chunk has no family
  name gets "" rather than the previous cell's family.

The comment at `read_rows.rs:89-90` says a reset should drop every previous
chunk of the row. The code at lines 91-92 clears only the row key and the
closed cells, so a pending cell survives the reset. The model follows the
code; "## Findings" records the consequence.

A decode call is a function of its chunk stream, deadline and clock readings,
so running it twice on the same input gives the same result.

## Model

| member | source | states |
|---|---|---|
| `ReadRows.DecodeReadRowsResponse` | bigtable_rs/src/bigtable/read_rows.rs:10-98 | The imperative decoder, with its seven locals, message loop and chunk loop, returns exactly `Decode(timeout, stream)`. |
| `ReadRowsSpec.Step` | bigtable_rs/src/bigtable/read_rows.rs:37-94 | Processing one chunk only appends to the emitted rows, and appends at most one row. |
| `ReadRowsSpec.Fold` | bigtable_rs/src/bigtable/read_rows.rs:32-95 | The rows held before a batch remain a prefix of the rows held after it. |
| `ReadRowsSpec.Absorb` | bigtable_rs/src/bigtable/read_rows.rs:37-60 | The part of a chunk's step before its status never emits a row. Afterwards the pending qualifier is the chunk's own, if it has one, and is otherwise unchanged. |
| `ReadRowsSpec.ApplyStatus` | bigtable_rs/src/bigtable/read_rows.rs:63-94 | The row-status step appends at most one row and only ever appends. A commit or reset always leaves no row key open. No status or a reset emits nothing. `CommitRule` and `ResetRule` give the full transitions. |
| `ReadRowsSpec.Drive` | bigtable_rs/src/bigtable/read_rows.rs:26-97 | The message loop: a successful result extends the rows held when it started. A timeout error carries the configured deadline in whole seconds, and only when a deadline is set. `DriveOutcome` characterises the result fully. |
| `ReadRowsSpec.Decode` | bigtable_rs/src/bigtable/read_rows.rs:10-98 | The whole call: a timeout error carries the deadline in whole seconds, and an empty stream gives `Ok([])`. `DecodeOutcome` characterises the result fully. |
| `ReadRowsProperties.SingleChunkRow` | bigtable_rs/src/bigtable/read_rows.rs:38-86 | Take a chunk with key K, qualifier Q, family F, timestamp T, value V and a commit, arriving when no cell is pending, the buffer is empty and the open row holds no closed cells. It appends exactly `(K, [RowCell(F or "", Q, V, T)])` and leaves no row or cell open. |
| `ReadRowsProperties.RowKeyRule` | bigtable_rs/src/bigtable/read_rows.rs:38-40 | A non-empty key on a chunk replaces the open row key. An empty key leaves it unchanged. A commit or reset on the same chunk then clears it. |
| `ReadRowsProperties.QualifierClosesPendingCell` | bigtable_rs/src/bigtable/read_rows.rs:43-60 | A qualifier chunk that arrives while a cell is pending first pushes that cell onto the row, with an absent family becoming "". It then starts its own cell with its own qualifier, family and timestamp. The buffer then holds only this chunk's bytes. |
| `ReadRowsProperties.QualifierWithoutPendingCell` | bigtable_rs/src/bigtable/read_rows.rs:43-60 | A qualifier chunk that arrives with no cell pending pushes no cell. It keeps the buffered bytes, so they become a prefix of the new cell's value. |
| `ReadRowsProperties.ValueAppendedAtEnd` | bigtable_rs/src/bigtable/read_rows.rs:60 | A chunk without a qualifier appends its bytes to the end of the buffer. The bytes are still there after the step unless the chunk commits. |
| `ReadRowsProperties.ContinuationsAppend` | bigtable_rs/src/bigtable/read_rows.rs:60-67 | A run of continuation chunks appends their fragments to the buffer in arrival order. Only the row key can change besides the buffer. |
| `ReadRowsProperties.CommitRule` | bigtable_rs/src/bigtable/read_rows.rs:68-86 | A commit closes a pending cell and sets `cell_name` to None. With no pending cell it closes nothing and keeps the buffer. With a row key set, it appends exactly one row of the closed cells and clears the key and the cells. Without a key, `rows` is unchanged and the closed cells are kept. |
| `ReadRowsProperties.ResetRule` | bigtable_rs/src/bigtable/read_rows.rs:88-93 | A reset clears the row key and the closed cells. It leaves `rows`, the pending qualifier, family, timestamp and value buffer unchanged. |
| `ReadRowsProperties.SplitValueCell` | bigtable_rs/src/bigtable/read_rows.rs:43-86 | Take a state with no cell pending. A cell is split into a qualifier chunk that carries the row key, then continuation chunks (no qualifier, no status), then a commit chunk without a qualifier; the later chunks carry no key. The one emitted row holds the open row's earlier closed cells, then a cell whose family, qualifier and timestamp come from the qualifier chunk. That cell's value is the bytes buffered before the qualifier chunk, followed by every fragment in arrival order. |
| `ReadRowsProperties.MultiCellRow` | bigtable_rs/src/bigtable/read_rows.rs:43-86 | Start from a state with no cell pending, an empty buffer and no closed cells. Cell A (with the row key), then cell B without an explicit close of A, then a commit on B give exactly the row `[A, B]`. Cells keep the order in which their qualifiers arrived. |
| `ReadRowsProperties.ResetDiscardsClosedCells` | bigtable_rs/src/bigtable/read_rows.rs:37-94 | Start from a state with no cell pending and an empty buffer. A reset chunk that carries no key, qualifier or bytes is followed by a full single-chunk row for K2. Only K2's row is emitted, and it holds only K2's cell. |
| `ReadRowsProperties.FoldAppend` | bigtable_rs/src/bigtable/read_rows.rs:26-32 | Processing two chunk runs one after the other is the same as processing their concatenation. Where the batch boundaries fall does not matter. |
| `ReadRowsProperties.StepRows` | bigtable_rs/src/bigtable/read_rows.rs:83-86 | A chunk that does not commit appends no row. A commit chunk that carries a key appends exactly one row, under that key. |
| `ReadRowsProperties.StepRowKeys` | bigtable_rs/src/bigtable/read_rows.rs:38-40 | After one chunk, the open key is the chunk's key or the previous one, cleared by a commit or reset. The chunk appends one row, under that open key, exactly when it commits with a key open; otherwise it appends none. |
| `ReadRowsProperties.RowsFollowCommits` | bigtable_rs/src/bigtable/read_rows.rs:37-94 | For any chunk run and any starting state, the keys of the appended rows are `EmittedKeys` of the run. That reference tracks only the open key and emits it at each commit that finds one open. So there is one row per such commit, in commit order, including rows whose key came on an earlier chunk. |
| `ReadRowsProperties.KeyedCommitsEmitOneRowEach` | bigtable_rs/src/bigtable/read_rows.rs:68-86 | When every commit chunk carries its own key, the emitted keys are exactly the commit chunks' keys, one per commit. |
| `ReadRowsProperties.DriveOutcome` | bigtable_rs/src/bigtable/read_rows.rs:26-97 | The first failed read gives its transport error. Failing that, the first batch past the deadline gives `TimeoutError` with the deadline in whole seconds. Either error returns no rows. If neither happens, the result is the rows of all chunks processed in order, and any row or cell still open is dropped. |
| `ReadRowsProperties.DecodeOutcome` | bigtable_rs/src/bigtable/read_rows.rs:10-98 | The same outcome holds for a whole decode call, which starts from the empty state. |
| `ReadRowsProperties.NoDeadlineNoTimeout` | bigtable_rs/src/bigtable/read_rows.rs:27-31 | Without a deadline, a decode call never returns the timeout error. |
| `ResetRowFinding.ResetLeaksPendingCell` | bigtable_rs/src/bigtable/read_rows.rs:88-93 | As written: a cell pending at a bare reset becomes the first cell of the next committed row. That row differs from what the same chunk gives on a fresh stream. |
| `ResetRowFinding.ResetLeaksIntoNextRow` | bigtable_rs/src/bigtable/read_rows.rs:88-93 | As written, on a concrete three-chunk stream: cell `q1` of row `k1` is reset away, yet it appears inside row `k2`. |
| `ResetRowFinding.StepResetClearsCell` | bigtable_rs/src/bigtable/read_rows.rs:88-93 | Corrected transition: a reset returns to the initial state and keeps only the emitted rows. Every other chunk behaves exactly as in `Step`. |
| `ResetRowFinding.FoldResetClearsCell` | bigtable_rs/src/bigtable/read_rows.rs:32-95 | The corrected chunk loop: the rows held before it stay a prefix of the rows after it. `ResetDiscardsProgress` states the intended reset property about it. |
| `ResetRowFinding.EmittedRowsInert` | bigtable_rs/src/bigtable/read_rows.rs:84 | With the corrected transition, rows already emitted never influence what later chunks emit. |
| `ResetRowFinding.ResetDiscardsProgress` | bigtable_rs/src/bigtable/read_rows.rs:88-93 | Corrected: after a reset, the rest of the stream decodes as a stream that starts there would, after the rows already emitted. |

## Left out

- Async transport: `Streaming::message().await` is replaced by a sequence of `Incoming` items. A failed read is an item that carries an opaque `Status`. The crate's `Error` type is not part of this model; only its timeout and transport cases appear.
- Wall clock: `Instant::now()` is replaced by the elapsed time recorded with each batch. The deadline check keeps the source's shape: once per received batch, before its chunks, with a strict `>`.
- Logging: the `trace!` and `warn!` calls have no effect on the result and are not modelled. A commit with no pending cell only logs.
- `CellChunk` fields the decoder never reads (`labels`, `value_size`) and the protobuf wrapper types of family and qualifier are not modelled.
- `RowStatus` flags: the boolean inside `CommitRow`/`ResetRow` is kept in the datatype but never read, as in the source.
- Timestamps and durations: `i64` is a bounded `newtype`. `Duration` is a count of nanoseconds, and `as_secs` truncates.

## Findings

| source | as written | input that shows it | evidently intended | confidence | as-written member | corrected member |
|---|---|---|---|---|---|---|
| bigtable_rs/src/bigtable/read_rows.rs:88-93 | `ResetRow` clears the row key and the closed cells but keeps the pending cell and its buffered bytes. The next qualifier chunk then closes that cell into the next row. | chunks `(key k1, qualifier q1, value 7)`, a bare reset, then `(key k2, qualifier q2, value 8, commit)` give row `k2` with cells `[q1, q2]` | a reset drops every chunk of the row, so row `k2` holds only `q2` | not executed; high | `ResetRowFinding.ResetLeaksIntoNextRow` | `ResetRowFinding.ResetDiscardsProgress` |

The decoder method keeps the behaviour as written. The corrected transition
`StepResetClearsCell`, and the fold over it, stand beside it with the intended
property proved.
