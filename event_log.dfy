/**
 * The data file as the tracker sees it: a sequence of CSV rows whose fields
 * are already tokenised into integers (`Some(n)`) or text that `int()`
 * rejects (`None`). `load_data` folds the rows into rounds; `save_round`
 * appends one row.
 */
module EventLog {
  import opened Wrappers
  import opened Registry

  /** One CSV row: its fields, each an integer or a field `int()` rejects. */
  type Row = seq<Option<int>>

  /**
   * The round a row contributes on load, if any: the row needs two integer
   * fields (else `IndexError`/`ValueError`, caught and skipped) naming
   * registered slots (else silently ignored). Fields after the second are ignored.
   */
  function ParseRow(row: Row): Option<Round> {
    if |row| < 2 || row[0].None? || row[1].None? then None
    else if IsSlot(row[0].value) && IsSlot(row[1].value) then Some(Round(row[0].value, row[1].value))
    else None
  }

  /** What one row adds to the history on load: its round, or nothing. */
  function RowRounds(row: Row): seq<Round> {
    match ParseRow(row)
    case Some(r) => [r]
    case None => []
  }

  /** The rounds `load_data` keeps from the rows, in file order. */
  function LoadedRounds(rows: seq<Row>): seq<Round> {
    if rows == [] then [] else RowRounds(rows[0]) + LoadedRounds(rows[1..])
  }

  /** The row `writer.writerow([start, end])` writes. */
  function SavedRow(start: int, end: int): Row {
    [Some(start), Some(end)]
  }

  /** The rows of the file, an absent file being read as empty (appending creates it). */
  function RowsOf(file: Option<seq<Row>>): seq<Row> {
    if file.Some? then file.value else []
  }

  /** Loading is row by row: a bad row is skipped and the rest is still processed, in order. */
  lemma {:induction false} LoadedRoundsAppend(a: seq<Row>, b: seq<Row>)
    ensures LoadedRounds(a + b) == LoadedRounds(a) + LoadedRounds(b)
    decreases |a|
  {
    if a != [] {
      assert (a + b)[0] == a[0];
      assert (a + b)[1..] == a[1..] + b;
      LoadedRoundsAppend(a[1..], b);
      var x := RowRounds(a[0]);
      assert x + LoadedRounds(a[1..]) + LoadedRounds(b) == x + (LoadedRounds(a[1..]) + LoadedRounds(b));
    } else {
      assert a + b == b;
    }
  }

  /** A single row yields its round exactly when both fields parse and are registered ids. */
  lemma LoadedRow(row: Row)
    ensures LoadedRounds([row]) ==
      if |row| >= 2 && row[0].Some? && row[1].Some? && IsSlot(row[0].value) && IsSlot(row[1].value)
      then [Round(row[0].value, row[1].value)] else []
  {
    assert [row][1..] == [];
  }

  /** Every loaded round names registered slots. */
  lemma {:induction false} LoadedRoundsValid(rows: seq<Row>)
    ensures forall i :: 0 <= i < |LoadedRounds(rows)| ==> ValidRound(LoadedRounds(rows)[i])
    decreases |rows|
  {
    if rows != [] {
      LoadedRoundsValid(rows[1..]);
    }
  }

  /**
   * The load filter keeps exactly the rounds of the rows that parse: a round
   * is loaded if and only if some row of the file yields it.
   */
  lemma {:induction false} LoadedRoundsExactly(rows: seq<Row>, r: Round)
    ensures r in LoadedRounds(rows) <==> exists i :: 0 <= i < |rows| && ParseRow(rows[i]) == Some(r)
    decreases |rows|
  {
    if rows != [] {
      LoadedRoundsExactly(rows[1..], r);
      if exists i :: 0 <= i < |rows[1..]| && ParseRow(rows[1..][i]) == Some(r) {
        var i :| 0 <= i < |rows[1..]| && ParseRow(rows[1..][i]) == Some(r);
        assert ParseRow(rows[i + 1]) == Some(r);
      }
      if exists i :: 0 <= i < |rows| && ParseRow(rows[i]) == Some(r) {
        var i :| 0 <= i < |rows| && ParseRow(rows[i]) == Some(r);
        if i > 0 {
          assert ParseRow(rows[1..][i - 1]) == Some(r);
        }
      }
    }
  }

  /** Round trip: a saved round is loaded back, after everything loaded before it. */
  lemma SaveThenLoad(rows: seq<Row>, start: int, end: int)
    requires IsSlot(start) && IsSlot(end)
    ensures LoadedRounds(rows + [SavedRow(start, end)]) == LoadedRounds(rows) + [Round(start, end)]
  {
    LoadedRoundsAppend(rows, [SavedRow(start, end)]);
    LoadedRow(SavedRow(start, end));
  }

}
