/** What the reassembler promises, proved about the transition of
    `ReadRowsSpec`. */
module ReadRowsProperties {
  import opened BigtableTypes
  import opened ReadRowsSpec

  /** No pending cell, no closed cells and an empty value buffer: the state
      at the start of a call and after every commit that closed a cell. */
  predicate Idle(s: State) {
    s.cellName.None? && s.rowData == [] && s.cellValue == []
  }

  /** A continuation chunk: value bytes only, no qualifier, no row status. */
  predicate Continuation(c: Chunk) {
    c.qualifier.None? && c.rowStatus.None?
  }

  /** The value fragments of a chunk sequence, concatenated in order. */
  function Values(cs: seq<Chunk>): Bytes {
    if cs == [] then [] else cs[0].value + Values(cs[1..])
  }

  function RowKeys(rows: seq<Row>): seq<RowKey> {
    if rows == [] then [] else [rows[0].0] + RowKeys(rows[1..])
  }

  predicate IsCommit(c: Chunk) {
    c.rowStatus.Some? && c.rowStatus.value.CommitRow?
  }

  /** The row keys carried by the commit chunks, in stream order. */
  function CommittedKeys(cs: seq<Chunk>): seq<RowKey> {
    if cs == [] then []
    else (if IsCommit(cs[0]) then [cs[0].rowKey] else []) + CommittedKeys(cs[1..])
  }

  /** The row key open after a chunk's key is read (before its status). */
  function OpenKey(k: Option<RowKey>, c: Chunk): Option<RowKey> {
    if |c.rowKey| > 0 then Some(c.rowKey) else k
  }

  /** Reference for the keys of the emitted rows, tracking only the open row
      key: a commit emits the open key if there is one; a commit or a reset
      closes it. */
  function EmittedKeys(k: Option<RowKey>, cs: seq<Chunk>): seq<RowKey>
    decreases |cs|
  {
    if cs == [] then []
    else
      var k1 := OpenKey(k, cs[0]);
      (if IsCommit(cs[0]) && k1.Some? then [k1.value] else [])
        + EmittedKeys(if cs[0].rowStatus.Some? then None else k1, cs[1..])
  }

  /** The chunks of the stream's batches, concatenated in order. */
  function AllChunks(stream: seq<Incoming>): seq<Chunk> {
    if stream == [] then []
    else (if stream[0].Batch? then stream[0].chunks else []) + AllChunks(stream[1..])
  }

  /** A stream item at which the message loop stops: a failed read or a batch
      received after the deadline. */
  predicate Stops(timeout: Option<Duration>, item: Incoming) {
    item.StreamError? || Late(timeout, item.elapsed)
  }

  // ---------------------------------------------------------------- one chunk

  /** A single chunk carrying key K, qualifier Q, family F, timestamp T, value V
      and a commit, arriving with no cell in progress, appends exactly the
      row (K, [F, Q, V, T]) and leaves no row or cell open. */
  lemma SingleChunkRow(s: State, k: RowKey, f: Option<string>, q: Bytes, t: int64, v: Bytes, flag: bool)
    requires Idle(s) && |k| > 0
    ensures var r := Step(s, Chunk(k, f, Some(q), t, v, Some(CommitRow(flag))));
      r.rows == s.rows + [(k, [RowCell(f.GetOr(""), q, v, t)])] && Idle(r) && r.rowKey.None?
  {
    var c := Chunk(k, f, Some(q), t, v, Some(CommitRow(flag)));
    var a := Absorb(s, c);
    assert a.cellValue == v && a.rowData == [] && a.rowKey == Some(k);
    assert a.rowData + [PendingCell(a)] == [RowCell(f.GetOr(""), q, v, t)];
  }

  /** The open row's key after a chunk: a non-empty key on the chunk replaces
      it, an empty one leaves it; a commit or a reset then clears it. */
  lemma RowKeyRule(s: State, c: Chunk)
    ensures Absorb(s, c).rowKey == if |c.rowKey| > 0 then Some(c.rowKey) else s.rowKey
    ensures Step(s, c).rowKey == if c.rowStatus.Some? then None else Absorb(s, c).rowKey
  {
  }

  /** A qualifier chunk arriving while a cell is pending closes that cell
      first (an absent family becoming ""), then starts its own cell whose
      buffer holds just this chunk's bytes. */
  lemma QualifierClosesPendingCell(s: State, c: Chunk)
    requires c.qualifier.Some? && s.cellName.Some?
    ensures var a := Absorb(s, c);
      && a.rowData == s.rowData + [RowCell(if s.cellFamilyName.None? then "" else s.cellFamilyName.value,
                                           s.cellName.value, s.cellValue, s.cellTimestamp)]
      && a.cellName == c.qualifier && a.cellFamilyName == c.familyName
      && a.cellTimestamp == c.timestampMicros && a.cellValue == c.value
  {
  }

  /** A qualifier chunk arriving with no cell pending fabricates no cell and
      keeps the bytes already buffered: they become a prefix of the new
      cell's value. */
  lemma QualifierWithoutPendingCell(s: State, c: Chunk)
    requires c.qualifier.Some? && s.cellName.None?
    ensures var a := Absorb(s, c);
      && a.rowData == s.rowData
      && a.cellName == c.qualifier && a.cellFamilyName == c.familyName
      && a.cellTimestamp == c.timestampMicros && a.cellValue == s.cellValue + c.value
  {
  }

  /** Every chunk's bytes land at the end of the buffer, unless the chunk
      itself starts a new cell (which first empties the buffer when it closes
      a pending cell) or commits (which empties it when it closes one). */
  lemma ValueAppendedAtEnd(s: State, c: Chunk)
    requires c.qualifier.None?
    ensures Absorb(s, c).cellValue == s.cellValue + c.value
    ensures !IsCommit(c) ==> Step(s, c).cellValue == s.cellValue + c.value
  {
  }

  /** A run of continuation chunks only appends their fragments, in order, to
      the buffer; apart from the row key nothing else changes. */
  lemma {:induction false} ContinuationsAppend(s: State, cs: seq<Chunk>)
    requires forall i :: 0 <= i < |cs| ==> Continuation(cs[i])
    ensures Fold(s, cs).(rowKey := s.rowKey) == s.(cellValue := s.cellValue + Values(cs))
    decreases |cs|
  {
    if cs != [] {
      var s1 := Step(s, cs[0]);
      assert s1.(rowKey := s.rowKey) == s.(cellValue := s.cellValue + cs[0].value);
      ContinuationsAppend(s1, cs[1..]);
      assert s.cellValue + Values(cs) == s.cellValue + cs[0].value + Values(cs[1..]);
    }
  }

  // ----------------------------------------------------------- row status

  /** A commit closes the pending cell if there is one (and fabricates none
      otherwise); then, if a row key is set, it emits exactly one row holding
      the closed cells and clears key and cells; with no key set it emits
      nothing and keeps the closed cells for the next row. */
  lemma CommitRule(s: State, flag: bool)
    ensures var u := ApplyStatus(s, Some(CommitRow(flag)));
      var cells := if s.cellName.Some? then s.rowData + [PendingCell(s)] else s.rowData;
      && u.cellName.None?
      && (s.cellName.Some? ==> u.cellValue == [] && u.cellFamilyName.None?)
      && (s.cellName.None? ==> u.cellValue == s.cellValue && u.cellFamilyName == s.cellFamilyName)
      && u.cellTimestamp == s.cellTimestamp
      && (s.rowKey.Some? ==> u.rows == s.rows + [(s.rowKey.value, cells)] && u.rowKey.None? && u.rowData == [])
      && (s.rowKey.None? ==> u.rows == s.rows && u.rowKey.None? && u.rowData == cells)
  {
  }

  /** A reset drops the open row's key and closed cells, and nothing else:
      the emitted rows, the pending cell and the value buffer stay. */
  lemma ResetRule(s: State, flag: bool)
    ensures var u := ApplyStatus(s, Some(ResetRow(flag)));
      && u.rowKey.None? && u.rowData == []
      && u.rows == s.rows
      && u.cellName == s.cellName && u.cellFamilyName == s.cellFamilyName
      && u.cellTimestamp == s.cellTimestamp && u.cellValue == s.cellValue
  {
  }

  // ------------------------------------------------------------ whole rows

  /** A cell whose value is split over several chunks: the qualifier chunk
      (with the row key), continuation chunks, and a closing commit chunk.
      The one row emitted ends with a cell whose family, qualifier and
      timestamp come from the qualifier chunk and whose value is every
      fragment since the buffer was last emptied, in arrival order; cells the
      open row already held come first. */
  lemma SplitValueCell(s: State, first: Chunk, mid: seq<Chunk>, last: Chunk, q: Bytes, flag: bool)
    requires s.cellName.None?
    requires |first.rowKey| > 0 && first.qualifier == Some(q) && first.rowStatus.None?
    requires forall i :: 0 <= i < |mid| ==> Continuation(mid[i]) && mid[i].rowKey == []
    requires last.rowKey == [] && last.qualifier.None? && last.rowStatus == Some(CommitRow(flag))
    ensures Fold(s, [first] + mid + [last]).rows
         == s.rows + [(first.rowKey, s.rowData + [RowCell(first.familyName.GetOr(""), q,
                         s.cellValue + first.value + Values(mid) + last.value, first.timestampMicros)])]
  {
    var cs := [first] + mid + [last];
    var s1 := Step(s, first);
    FoldAppend(s1, mid, [last]);
    assert cs[1..] == mid + [last];
    ContinuationsAppend(s1, mid);
    var s2 := Fold(s1, mid);
    assert s2.rowKey == Some(first.rowKey) by {
      KeyUnchangedByKeylessContinuations(s1, mid);
    }
    FoldOne(s2, last);
  }

  /** Cells of a row appear in qualifier arrival order: cell A, then cell B
      (which closes A), then a commit give the row [A, B]. */
  lemma MultiCellRow(s: State, a: Chunk, b: Chunk, qa: Bytes, qb: Bytes, flag: bool)
    requires Idle(s)
    requires |a.rowKey| > 0 && a.qualifier == Some(qa) && a.rowStatus.None?
    requires b.rowKey == [] && b.qualifier == Some(qb) && b.rowStatus == Some(CommitRow(flag))
    ensures Fold(s, [a, b]).rows
         == s.rows + [(a.rowKey, [RowCell(a.familyName.GetOr(""), qa, a.value, a.timestampMicros),
                                   RowCell(b.familyName.GetOr(""), qb, b.value, b.timestampMicros)])]
  {
    FoldTwo(s, a, b);
    var s1 := Step(s, a);
    assert s1.rowKey == Some(a.rowKey) && s1.rowData == [] && s1.cellName == Some(qa);
    assert s1.cellValue == a.value && s1.cellFamilyName == a.familyName && s1.cellTimestamp == a.timestampMicros;
    var b1 := Absorb(s1, b);
    assert b1.rowData == [PendingCell(s1)] && b1.cellValue == b.value && b1.cellName == Some(qb);
    assert b1.rowData + [PendingCell(b1)] == [PendingCell(s1), PendingCell(b1)];
  }

  /** A row whose closed cells were reset away contributes nothing: after a
      reset chunk arriving with no cell pending, a fresh single-chunk row for
      K2 is emitted alone. */
  lemma ResetDiscardsClosedCells(s: State, reset: Chunk, next: Chunk, flag: bool)
    requires s.cellName.None? && s.cellValue == []
    requires reset == Chunk([], None, None, 0, [], Some(ResetRow(flag)))
    requires |next.rowKey| > 0 && next.qualifier.Some? && IsCommit(next)
    ensures Fold(s, [reset, next]).rows
         == s.rows + [(next.rowKey, [RowCell(next.familyName.GetOr(""), next.qualifier.value,
                                               next.value, next.timestampMicros)])]
  {
    FoldTwo(s, reset, next);
    var s1 := Step(s, reset);
    assert s1.rowData == [] && s1.cellName.None? && s1.cellValue == [] && s1.rows == s.rows;
    var a := Absorb(s1, next);
    assert a.cellValue == next.value && a.rowData == [] && a.rowKey == Some(next.rowKey);
    assert a.rowData + [PendingCell(a)] == [PendingCell(a)];
  }

  // ------------------------------------------------------- the chunk fold

  /** Folding a concatenation is folding its parts one after the other, so
      where the batch boundaries fall does not matter. */
  lemma {:induction false} FoldAppend(s: State, a: seq<Chunk>, b: seq<Chunk>)
    ensures Fold(s, a + b) == Fold(Fold(s, a), b)
    decreases |a|
  {
    if a == [] {
      assert a + b == b;
    } else {
      assert (a + b)[0] == a[0] && (a + b)[1..] == a[1..] + b;
      FoldAppend(Step(s, a[0]), a[1..], b);
    }
  }

  lemma {:induction false} KeyUnchangedByKeylessContinuations(s: State, cs: seq<Chunk>)
    requires forall i :: 0 <= i < |cs| ==> Continuation(cs[i]) && cs[i].rowKey == []
    ensures Fold(s, cs).rowKey == s.rowKey
    decreases |cs|
  {
    if cs != [] {
      KeyUnchangedByKeylessContinuations(Step(s, cs[0]), cs[1..]);
    }
  }

  lemma FoldOne(s: State, c: Chunk)
    ensures Fold(s, [c]) == Step(s, c)
  {
    assert [c][1..] == [];
  }

  lemma FoldTwo(s: State, a: Chunk, b: Chunk)
    ensures Fold(s, [a, b]) == Step(Step(s, a), b)
  {
    assert [a, b][1..] == [b];
    FoldOne(Step(s, a), b);
  }

  /** The rows a single chunk appends: none unless it commits; one, under the
      chunk's own key, when it commits carrying a key. */
  lemma StepRows(s: State, c: Chunk)
    requires IsCommit(c) ==> |c.rowKey| > 0
    ensures !IsCommit(c) ==> Step(s, c).rows == s.rows
    ensures IsCommit(c) ==>
      |Step(s, c).rows| == |s.rows| + 1 && Step(s, c).rows[..|s.rows|] == s.rows && Step(s, c).rows[|s.rows|].0 == c.rowKey
  {
    var a := Absorb(s, c);
    assert a.rows == s.rows;
    if IsCommit(c) {
      assert a.rowKey == Some(c.rowKey);
    }
  }

  /** Rows are emitted in the order of their commits: the keys of the rows
      appended by a run of chunks are the keys that the reference
      `EmittedKeys` reads off the chunks, one per commit that finds a row
      key open, in stream order. */
  lemma {:induction false} RowsFollowCommits(s: State, cs: seq<Chunk>)
    ensures RowKeys(Fold(s, cs).rows) == RowKeys(s.rows) + EmittedKeys(s.rowKey, cs)
    ensures |Fold(s, cs).rows| == |s.rows| + |EmittedKeys(s.rowKey, cs)|
    decreases |cs|
  {
    if cs != [] {
      var s1 := Step(s, cs[0]);
      var k1 := OpenKey(s.rowKey, cs[0]);
      var here: seq<RowKey> := if IsCommit(cs[0]) && k1.Some? then [k1.value] else [];
      StepRowKeys(s, cs[0]);
      RowsFollowCommits(s1, cs[1..]);
      assert Fold(s, cs) == Fold(s1, cs[1..]);
      assert EmittedKeys(s.rowKey, cs) == here + EmittedKeys(s1.rowKey, cs[1..]);
      assert RowKeys(s.rows) + here + EmittedKeys(s1.rowKey, cs[1..]) == RowKeys(s.rows) + EmittedKeys(s.rowKey, cs);
    }
  }

  /** One step of the above: the open key a chunk leaves, and the row key it
      emits when it commits with a key open. */
  lemma StepRowKeys(s: State, c: Chunk)
    ensures var k1 := OpenKey(s.rowKey, c);
      && Step(s, c).rowKey == (if c.rowStatus.Some? then None else k1)
      && RowKeys(Step(s, c).rows) == RowKeys(s.rows) + (if IsCommit(c) && k1.Some? then [k1.value] else [])
      && |Step(s, c).rows| == |s.rows| + (if IsCommit(c) && k1.Some? then 1 else 0)
  {
    var a := Absorb(s, c);
    assert a.rows == s.rows && a.rowKey == OpenKey(s.rowKey, c);
    var r := Step(s, c).rows;
    if IsCommit(c) && a.rowKey.Some? {
      assert r == s.rows + [r[|s.rows|]] && r[|s.rows|].0 == a.rowKey.value;
      RowKeysAppend(s.rows, [r[|s.rows|]]);
    } else {
      assert r == s.rows;
    }
  }

  /** When every commit chunk carries its own row key, one row is emitted per
      commit, under that commit's key. */
  lemma {:induction false} KeyedCommitsEmitOneRowEach(k: Option<RowKey>, cs: seq<Chunk>)
    requires forall i :: 0 <= i < |cs| && IsCommit(cs[i]) ==> |cs[i].rowKey| > 0
    ensures EmittedKeys(k, cs) == CommittedKeys(cs)
    decreases |cs|
  {
    if cs != [] {
      var c := cs[0];
      KeyedCommitsEmitOneRowEach(if c.rowStatus.Some? then None else OpenKey(k, c), cs[1..]);
    }
  }

  lemma {:induction false} RowKeysAppend(a: seq<Row>, b: seq<Row>)
    ensures RowKeys(a + b) == RowKeys(a) + RowKeys(b)
    decreases |a|
  {
    if a == [] {
      assert a + b == b;
    } else {
      assert (a + b)[0] == a[0] && (a + b)[1..] == a[1..] + b;
      RowKeysAppend(a[1..], b);
    }
  }

  // ------------------------------------------------------------ the stream

  /** The outcome of a decode call is decided by the first item at which the
      message loop stops, if any: a failed read gives its transport error, a
      late batch gives the timeout error carrying the deadline in whole
      seconds, and both drop every row emitted so far; a stream that runs out
      gives the rows of all its chunks folded in order, whatever the batch
      boundaries, dropping any row or cell still open. */
  lemma {:induction false} DriveOutcome(timeout: Option<Duration>, s: State, stream: seq<Incoming>, k: nat)
    requires k <= |stream|
    requires forall i :: 0 <= i < k ==> !Stops(timeout, stream[i])
    requires k < |stream| ==> Stops(timeout, stream[k])
    ensures Drive(timeout, s, stream)
         == if k == |stream| then Ok(Fold(s, AllChunks(stream)).rows)
            else if stream[k].StreamError? then Err(TransportError(stream[k].status))
            else Err(TimeoutError(timeout.value.AsSecs()))
    decreases |stream|
  {
    if stream != [] && k > 0 {
      var b := stream[0];
      assert !Stops(timeout, b);
      DriveOutcome(timeout, Fold(s, b.chunks), stream[1..], k - 1);
      FoldAppend(s, b.chunks, AllChunks(stream[1..]));
    }
  }

  /** The same for a whole call, from the initial state. */
  lemma DecodeOutcome(timeout: Option<Duration>, stream: seq<Incoming>, k: nat)
    requires k <= |stream|
    requires forall i :: 0 <= i < k ==> !Stops(timeout, stream[i])
    requires k < |stream| ==> Stops(timeout, stream[k])
    ensures Decode(timeout, stream)
         == if k == |stream| then Ok(Fold(Init(), AllChunks(stream)).rows)
            else if stream[k].StreamError? then Err(TransportError(stream[k].status))
            else Err(TimeoutError(timeout.value.AsSecs()))
  {
    DriveOutcome(timeout, Init(), stream, k);
  }

  /** Without a deadline a decode call never times out. */
  lemma {:induction false} NoDeadlineNoTimeout(s: State, stream: seq<Incoming>)
    ensures !(Drive(None, s, stream).Err? && Drive(None, s, stream).error.TimeoutError?)
    decreases |stream|
  {
    if stream != [] && stream[0].Batch? {
      NoDeadlineNoTimeout(Fold(s, stream[0].chunks), stream[1..]);
    }
  }
}
