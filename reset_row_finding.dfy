/** A `ResetRow` that arrives while a cell is pending leaves that cell (its
    qualifier, family, timestamp and buffered bytes) in place; the next
    qualifier chunk then closes it into the NEXT row, so a cell of the
    discarded row reappears under another row's key. This module shows the
    leak on the transition as written and gives the transition in which a
    reset also drops the pending cell, with the property a reset is meant to
    have proved about it. */
module ResetRowFinding {
  import opened BigtableTypes
  import opened ReadRowsSpec
  import opened ReadRowsProperties

  /** A chunk that carries only a reset marker. */
  predicate BareReset(c: Chunk) {
    c.rowKey == [] && c.qualifier.None? && c.value == [] && c.rowStatus.Some? && c.rowStatus.value.ResetRow?
  }

  /** As written: a cell pending at the reset is emitted as the first cell of
      the next committed row, which therefore differs from the row the same
      chunk would give on a fresh stream. */
  lemma ResetLeaksPendingCell(s: State, reset: Chunk, next: Chunk)
    requires s.cellName.Some?
    requires BareReset(reset)
    requires |next.rowKey| > 0 && next.qualifier.Some? && IsCommit(next)
    ensures var cell := RowCell(next.familyName.GetOr(""), next.qualifier.value, next.value, next.timestampMicros);
      && Fold(s, [reset, next]).rows == s.rows + [(next.rowKey, [PendingCell(s), cell])]
      && Fold(Init(), [next]).rows == [(next.rowKey, [cell])]
      && Fold(s, [reset, next]).rows != s.rows + Fold(Init(), [next]).rows
  {
    var cell := RowCell(next.familyName.GetOr(""), next.qualifier.value, next.value, next.timestampMicros);
    FoldTwo(s, reset, next);
    FoldOne(Init(), next);
    var s1 := Step(s, reset);
    assert s1.rowData == [] && s1.cellName == s.cellName && s1.cellValue == s.cellValue && s1.rows == s.rows;
    var a := Absorb(s1, next);
    assert a.rowData == [PendingCell(s)] && a.cellValue == next.value && a.rowKey == Some(next.rowKey);
    assert a.rowData + [PendingCell(a)] == [PendingCell(s), cell];
    var i := Absorb(Init(), next);
    assert i.rowData + [PendingCell(i)] == [cell];
    var leaked := s.rows + [(next.rowKey, [PendingCell(s), cell])];
    assert leaked[|s.rows|].1 != (s.rows + [(next.rowKey, [cell])])[|s.rows|].1;
  }

  /** As written, on a concrete stream: cell "q1" of row "k1" is reset away,
      yet it is emitted inside row "k2". */
  lemma ResetLeaksIntoNextRow()
    ensures Decode(None, [Batch(Duration(0), [
              Chunk([1], Some("cf"), Some([10]), 1, [7], None),
              Chunk([], None, None, 0, [], Some(ResetRow(true))),
              Chunk([2], Some("cf"), Some([20]), 2, [8], Some(CommitRow(true)))])])
         == Ok([([2], [RowCell("cf", [10], [7], 1), RowCell("cf", [20], [8], 2)])])
  {
    var cs := [Chunk([1], Some("cf"), Some([10]), 1, [7], None),
               Chunk([], None, None, 0, [], Some(ResetRow(true))),
               Chunk([2], Some("cf"), Some([20]), 2, [8], Some(CommitRow(true)))];
    var s1 := Step(Init(), cs[0]);
    assert s1 == State([], Some([1]), [], Some("cf"), Some([10]), 1, [7]);
    ResetLeaksPendingCell(s1, cs[1], cs[2]);
    assert cs[1..] == [cs[1], cs[2]];
    assert Fold(Init(), cs) == Fold(s1, [cs[1], cs[2]]);
    assert PendingCell(s1) == RowCell("cf", [10], [7], 1);
    assert Fold(Init(), cs).rows == [([2], [RowCell("cf", [10], [7], 1), RowCell("cf", [20], [8], 2)])];
    DecodeOutcome(None, [Batch(Duration(0), cs)], 1);
    assert AllChunks([Batch(Duration(0), cs)]) == cs;
  }

  /** Corrected transition: a reset also drops the pending cell and its
      buffered bytes; every other chunk behaves as in `Step`. */
  function StepResetClearsCell(s: State, c: Chunk): (r: State)
    ensures c.rowStatus.Some? && c.rowStatus.value.ResetRow? ==> r == Init().(rows := s.rows)
    ensures !(c.rowStatus.Some? && c.rowStatus.value.ResetRow?) ==> r == Step(s, c)
  {
    var r := Step(s, c);
    if c.rowStatus.Some? && c.rowStatus.value.ResetRow? then
      r.(cellFamilyName := None, cellName := None, cellTimestamp := 0, cellValue := [])
    else r
  }

  function FoldResetClearsCell(s: State, cs: seq<Chunk>): (r: State)
    ensures s.rows <= r.rows
    decreases |cs|
  {
    if cs == [] then s else FoldResetClearsCell(StepResetClearsCell(s, cs[0]), cs[1..])
  }

  /** The rows already emitted never influence what a later chunk emits. */
  lemma {:induction false} EmittedRowsInert(s: State, cs: seq<Chunk>)
    ensures FoldResetClearsCell(s, cs).rows == s.rows + FoldResetClearsCell(s.(rows := []), cs).rows
    decreases |cs|
  {
    if cs != [] {
      var t := s.(rows := []);
      var s1 := StepResetClearsCell(s, cs[0]);
      var t1 := StepResetClearsCell(t, cs[0]);
      assert s1 == t1.(rows := s.rows + t1.rows);
      EmittedRowsInert(s1, cs[1..]);
      EmittedRowsInert(t1, cs[1..]);
      assert s1.(rows := []) == t1.(rows := []);
    }
  }

  /** Corrected: after a reset the rest of the stream decodes exactly as a
      stream starting there would, after the rows already emitted; nothing
      of the discarded row survives. */
  lemma ResetDiscardsProgress(s: State, reset: Chunk, cs: seq<Chunk>)
    requires reset.rowStatus.Some? && reset.rowStatus.value.ResetRow?
    ensures FoldResetClearsCell(s, [reset] + cs).rows == s.rows + FoldResetClearsCell(Init(), cs).rows
  {
    assert ([reset] + cs)[0] == reset && ([reset] + cs)[1..] == cs;
    var s1 := StepResetClearsCell(s, reset);
    EmittedRowsInert(s1, cs);
    assert s1.(rows := []) == Init();
  }
}
