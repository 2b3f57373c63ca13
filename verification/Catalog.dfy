/** Running one query: the row loop and its all-or-nothing cap. */
module Catalog {
  import opened Values
  import opened Steps

  /** What the driver yields: whether the query starts, its columns, each fetched row or a decode
      failure, and whether iteration ends without an error. */
  datatype Fetch = Fetched(cells: seq<Cell>) | Undecodable
  datatype Script = Script(starts: bool, cols: seq<string>, fetches: seq<Fetch>, endsClean: bool)

  datatype QueryError = NotStarted | RowCapExceeded | RowDecode | RowIteration
  datatype Answer = Rows(rows: seq<Row>, cols: seq<string>) | Failed(error: QueryError)

  /** The driver decodes one cell per column. */
  predicate WellShaped(script: Script) {
    forall k :: 0 <= k < |script.fetches| && script.fetches[k].Fetched? ==>
      |script.fetches[k].cells| == |script.cols|
  }

  /** The row as a map; of columns with the same name the last one wins. */
  function RowOf(cols: seq<string>, cells: seq<Cell>): Row
    requires |cells| == |cols|
  {
    if cols == [] then map[]
    else RowOf(cols[..|cols| - 1], cells[..|cols| - 1])[cols[|cols| - 1] := cells[|cols| - 1]]
  }

  predicate OverCap(maxRows: int, count: nat) {
    maxRows > 0 && count > maxRows
  }

  /** The answer, given the rows collected from the first i fetches. */
  function AnswerFrom(script: Script, maxRows: int, i: nat, collected: seq<Row>): Answer
    requires WellShaped(script) && i <= |script.fetches|
    decreases |script.fetches| - i
  {
    if i == |script.fetches| then
      if script.endsClean then Rows(collected, script.cols) else Failed(RowIteration)
    else if maxRows > 0 && |collected| >= maxRows then Failed(RowCapExceeded)
    else
      match script.fetches[i]
      case Undecodable => Failed(RowDecode)
      case Fetched(cells) => AnswerFrom(script, maxRows, i + 1, collected + [RowOf(script.cols, cells)])
  }

  function AnswerOf(script: Script, maxRows: int): Answer
    requires WellShaped(script)
  {
    if script.starts then AnswerFrom(script, maxRows, 0, []) else Failed(NotStarted)
  }

  method BuildRow(cols: seq<string>, cells: seq<Cell>) returns (row: Row)
    requires |cells| == |cols|
    ensures row == RowOf(cols, cells)
  {
    row := map[];
    for i := 0 to |cols|
      invariant row == RowOf(cols[..i], cells[..i])
    {
      row := row[cols[i] := cells[i]];
      assert cols[..i + 1][..i] == cols[..i] && cells[..i + 1][..i] == cells[..i];
    }
    assert cols[..|cols|] == cols && cells[..|cols|] == cells;
  }

  method Query(script: Script, maxRows: int) returns (answer: Answer)
    requires WellShaped(script)
    ensures answer == AnswerOf(script, maxRows)
  {
    if !script.starts {
      return Failed(NotStarted);
    }
    var out: seq<Row> := [];
    for i := 0 to |script.fetches|
      invariant AnswerOf(script, maxRows) == AnswerFrom(script, maxRows, i, out)
    {
      if maxRows > 0 && |out| >= maxRows {
        return Failed(RowCapExceeded);
      }
      if script.fetches[i].Undecodable? {
        return Failed(RowDecode);
      }
      var row := BuildRow(script.cols, script.fetches[i].cells);
      out := out + [row];
    }
    if !script.endsClean {
      return Failed(RowIteration);
    }
    return Rows(out, script.cols);
  }

  // ----- all or nothing -----

  ghost predicate AllDecode(script: Script) {
    forall k :: 0 <= k < |script.fetches| ==> script.fetches[k].Fetched?
  }

  lemma {:induction false} AnswerFromRows(script: Script, maxRows: int, i: nat, collected: seq<Row>)
    requires WellShaped(script) && i <= |script.fetches| && |collected| == i
    requires maxRows > 0 ==> i <= maxRows
    ensures AnswerFrom(script, maxRows, i, collected).Rows? <==>
              && (forall k :: i <= k < |script.fetches| ==> script.fetches[k].Fetched?)
              && !OverCap(maxRows, |script.fetches|)
              && script.endsClean
    ensures var a := AnswerFrom(script, maxRows, i, collected);
            a.Rows? ==>
              && a.cols == script.cols
              && |a.rows| == |script.fetches|
              && collected <= a.rows
              && (forall k :: i <= k < |script.fetches| ==> a.rows[k] == RowOf(script.cols, script.fetches[k].cells))
    decreases |script.fetches| - i
  {
    if i < |script.fetches| && !(maxRows > 0 && i >= maxRows) && script.fetches[i].Fetched? {
      var more := collected + [RowOf(script.cols, script.fetches[i].cells)];
      AnswerFromRows(script, maxRows, i + 1, more);
      var a := AnswerFrom(script, maxRows, i + 1, more);
      assert a.Rows? ==> a.rows[i] == more[i];
    }
  }

  /** A query succeeds exactly when nothing fails and the result is within the cap (or there is none);
      it then returns every row, in order. Otherwise it returns no row at all. */
  lemma AllOrNothing(script: Script, maxRows: int)
    requires WellShaped(script)
    ensures var a := AnswerOf(script, maxRows);
            && (a.Rows? <==>
                 script.starts && AllDecode(script) && script.endsClean && !OverCap(maxRows, |script.fetches|))
            && (a.Rows? ==>
                 && a.cols == script.cols
                 && |a.rows| == |script.fetches|
                 && forall k :: 0 <= k < |a.rows| ==> a.rows[k] == RowOf(script.cols, script.fetches[k].cells))
            && (!script.starts ==> a == Failed(NotStarted))
  {
    AnswerFromRows(script, maxRows, 0, []);
  }

  /** The error a too large result ends in does not depend on what lies past the cap. */
  lemma {:induction false} CapCutsOff(script: Script, maxRows: int, i: nat, collected: seq<Row>)
    requires WellShaped(script) && |collected| == i && 0 < maxRows && i <= maxRows < |script.fetches|
    requires forall k :: i <= k < maxRows ==> script.fetches[k].Fetched?
    ensures AnswerFrom(script, maxRows, i, collected) == Failed(RowCapExceeded)
    decreases maxRows - i
  {
    if i < maxRows {
      CapCutsOff(script, maxRows, i + 1, collected + [RowOf(script.cols, script.fetches[i].cells)]);
    }
  }

  /** Which error a failed query ends in: the first thing that goes wrong, where the cap counts as going
      wrong before the row past it is decoded. */
  lemma {:induction false} WhichError(script: Script, maxRows: int, i: nat, collected: seq<Row>, n: nat)
    requires WellShaped(script) && |collected| == i <= n <= |script.fetches| && (maxRows > 0 ==> i <= maxRows)
    requires forall k :: i <= k < n ==> script.fetches[k].Fetched?
    requires maxRows > 0 ==> n <= maxRows
    ensures var a := AnswerFrom(script, maxRows, i, collected);
            && (n == |script.fetches| && !script.endsClean ==> a == Failed(RowIteration))
            && (n < |script.fetches| && maxRows > 0 && n == maxRows ==> a == Failed(RowCapExceeded))
            && (n < |script.fetches| && (maxRows <= 0 || n < maxRows) && script.fetches[n].Undecodable? ==>
                 a == Failed(RowDecode))
    decreases n - i
  {
    if i < n {
      WhichError(script, maxRows, i + 1, collected + [RowOf(script.cols, script.fetches[i].cells)], n);
    }
  }

  /** Reading a row by column name gives the last cell of that name; a missing column is not in it. */
  lemma {:induction false} RowReads(cols: seq<string>, cells: seq<Cell>, name: string)
    requires |cells| == |cols|
    ensures name in RowOf(cols, cells) <==> name in cols
    ensures forall i :: 0 <= i < |cols| && cols[i] == name && (forall j :: i < j < |cols| ==> cols[j] != name) ==>
              Get(RowOf(cols, cells), name) == Some(cells[i])
  {
    if cols != [] {
      var n := |cols| - 1;
      RowReads(cols[..n], cells[..n], name);
      assert cols == cols[..n] + [cols[n]];
      forall i | 0 <= i < |cols| && cols[i] == name && (forall j :: i < j < |cols| ==> cols[j] != name)
        ensures Get(RowOf(cols, cells), name) == Some(cells[i])
      {
        if i < n {
          assert cols[..n][i] == name;
        }
      }
    }
  }

  // ----- the message a cycle makes of it -----

  /** What a cycle sends for a query's answer. */
  function MessageOf(tenant: string, query: string, answer: Answer): Message {
    match answer
    case Rows(rows, cols) => QueryResult(tenant, query, rows, cols, false)
    case Failed(_) => QueryResult(tenant, query, [], [], true)
  }
}
