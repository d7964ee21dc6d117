/**
 * The spam-table extractor: the bounded page-size retry and the mapping of the
 * table's header and body cells to records.
 */
module SpamTable {
  import opened Wrappers
  import opened Text
  import opened Browser

  // ---------------------------------------------------------------------------
  // Page size

  /** Attempts made at switching the table to 100 rows per page. */
  const MaxAttempts: nat := 3

  /** Text the page-size control shows once 100 rows per page is selected. */
  const HundredRows: string := "100"

  /** The answers for attempt k; attempts beyond those listed time out. */
  function TryAt(tries: seq<PageSizeTry>, k: nat): PageSizeTry {
    if k < |tries| then tries[k] else PageSizeTry(None, false, false)
  }

  /** The control already reads "100": nothing to click. */
  predicate AlreadyHundred(t: PageSizeTry) {
    t.dropdown.Some? && Contains(t.dropdown.value, HundredRows)
  }

  /** The control was found showing another size, so it is clicked open. */
  predicate NeedsClick(t: PageSizeTry) {
    t.dropdown.Some? && !Contains(t.dropdown.value, HundredRows)
  }

  /** The attempt ends with 100 rows per page. */
  predicate TrySucceeds(t: PageSizeTry) {
    AlreadyHundred(t) || (NeedsClick(t) && t.optionClicked)
  }

  /** Clicks one attempt makes: the control, then the option when it appeared. */
  function ClicksOf(t: PageSizeTry): nat {
    if NeedsClick(t) then (if t.optionClicked then 2 else 1) else 0
  }

  /** What the retry loop did: whether it succeeded, how many attempts it
      started, and how many page refreshes and clicks it made. */
  datatype PageSizeRun = PageSizeRun(ok: bool, attempts: nat, refreshes: nat, clicks: nat)

  /** The retry loop from attempt `attempt` on, `refreshes` and `clicks` having
      been made before it. A failed attempt 0 or 1 refreshes the page and waits
      for the section; if the section does not come back the extraction ends.
      A failed attempt 2 ends the extraction. */
  function PageSizeFrom(tries: seq<PageSizeTry>, attempt: nat, refreshes: nat, clicks: nat): PageSizeRun
    requires attempt < MaxAttempts
    decreases MaxAttempts - attempt
  {
    var t := TryAt(tries, attempt);
    var clicks' := clicks + ClicksOf(t);
    if TrySucceeds(t) then PageSizeRun(true, attempt + 1, refreshes, clicks')
    else if attempt < MaxAttempts - 1 then
      if t.sectionReappears then PageSizeFrom(tries, attempt + 1, refreshes + 1, clicks')
      else PageSizeRun(false, attempt + 1, refreshes + 1, clicks')
    else PageSizeRun(false, attempt + 1, refreshes, clicks')
  }

  function PageSize(tries: seq<PageSizeTry>): PageSizeRun {
    PageSizeFrom(tries, 0, 0, 0)
  }

  /** One step of the retry loop, in terms of the attempt's outcome. */
  lemma PageSizeFromStep(tries: seq<PageSizeTry>, attempt: nat, refreshes: nat, clicks: nat, ok: bool)
    requires attempt < MaxAttempts && ok == TrySucceeds(TryAt(tries, attempt))
    ensures var t, clicks' := TryAt(tries, attempt), clicks + ClicksOf(TryAt(tries, attempt));
      PageSizeFrom(tries, attempt, refreshes, clicks)
      == if ok then PageSizeRun(true, attempt + 1, refreshes, clicks')
         else if attempt < MaxAttempts - 1 then
           if t.sectionReappears then PageSizeFrom(tries, attempt + 1, refreshes + 1, clicks')
           else PageSizeRun(false, attempt + 1, refreshes + 1, clicks')
         else PageSizeRun(false, attempt + 1, refreshes, clicks')
  {
  }

  /** Clicks made by attempts 0 .. n-1. */
  function ClicksBefore(tries: seq<PageSizeTry>, n: nat): nat {
    if n == 0 then 0 else ClicksBefore(tries, n - 1) + ClicksOf(TryAt(tries, n - 1))
  }

  /** Attempt k succeeds exactly when every earlier attempt failed and the
      section came back after each of their refreshes. */
  ghost predicate ReachesAndSucceeds(tries: seq<PageSizeTry>, k: nat) {
    k < MaxAttempts && TrySucceeds(TryAt(tries, k))
    && forall j :: 0 <= j < k ==> !TrySucceeds(TryAt(tries, j)) && TryAt(tries, j).sectionReappears
  }

  /** Invariant of the retry loop from attempt `a` on. */
  lemma {:induction false} PageSizeFromShape(tries: seq<PageSizeTry>, a: nat)
    requires a < MaxAttempts
    requires forall j :: 0 <= j < a ==> !TrySucceeds(TryAt(tries, j)) && TryAt(tries, j).sectionReappears
    ensures var r := PageSizeFrom(tries, a, a, ClicksBefore(tries, a));
      && a < r.attempts <= MaxAttempts
      && r.clicks == ClicksBefore(tries, r.attempts)
      && (r.ok ==> r.refreshes == r.attempts - 1 && ReachesAndSucceeds(tries, r.attempts - 1))
      && (!r.ok ==> forall j :: 0 <= j < r.attempts ==> !TrySucceeds(TryAt(tries, j)))
      && (!r.ok ==> r.refreshes == (if r.attempts < MaxAttempts then r.attempts else MaxAttempts - 1))
      && (!r.ok && r.attempts < MaxAttempts ==> !TryAt(tries, r.attempts - 1).sectionReappears)
      && (forall j :: 0 <= j < r.attempts - 1 ==> TryAt(tries, j).sectionReappears)
    decreases MaxAttempts - a
  {
    var t := TryAt(tries, a);
    if !TrySucceeds(t) && a < MaxAttempts - 1 && t.sectionReappears {
      PageSizeFromShape(tries, a + 1);
    }
  }

  /** The retry loop makes at most 3 attempts and refreshes only after a
      failed attempt 0 or 1, so at most twice; it succeeds exactly when some
      attempt succeeds after earlier failures whose refreshes brought the
      section back, and then that attempt is its last. */
  lemma PageSizeCharacterization(tries: seq<PageSizeTry>)
    ensures var r := PageSize(tries);
      && 1 <= r.attempts <= MaxAttempts
      && r.refreshes <= MaxAttempts - 1 && r.refreshes <= r.attempts
      && (r.ok ==> r.refreshes == r.attempts - 1 && ReachesAndSucceeds(tries, r.attempts - 1))
      && (!r.ok ==> forall j :: 0 <= j < r.attempts ==> !TrySucceeds(TryAt(tries, j)))
      && (r.ok <==> exists k :: ReachesAndSucceeds(tries, k))
  {
    PageSizeFromShape(tries, 0);
    var r := PageSize(tries);
    if !r.ok {
      forall k: nat | k < MaxAttempts ensures !ReachesAndSucceeds(tries, k) {
        if r.attempts <= k {
          assert !TryAt(tries, r.attempts - 1).sectionReappears;
        }
      }
    }
  }

  /** Three failed attempts whose refreshes all brought the section back:
      the loop gives up after the third, having refreshed twice. */
  lemma ThirdFailureGivesUp(tries: seq<PageSizeTry>)
    requires forall j :: 0 <= j < MaxAttempts ==> !TrySucceeds(TryAt(tries, j))
    requires TryAt(tries, 0).sectionReappears && TryAt(tries, 1).sectionReappears
    ensures PageSize(tries).ok == false
    ensures PageSize(tries).attempts == MaxAttempts && PageSize(tries).refreshes == MaxAttempts - 1
  {
  }

  /** A control that already reads "100" is left alone: the first attempt
      succeeds without a click or refresh. */
  lemma AlreadyHundredNoClick(tries: seq<PageSizeTry>)
    requires AlreadyHundred(TryAt(tries, 0))
    ensures PageSize(tries) == PageSizeRun(true, 1, 0, 0)
  {
  }

  // ---------------------------------------------------------------------------
  // Headers and rows

  const SearchTermHeader: string := "검색어"
  const ReasonHeader: string := "판정사유"
  const UrlHeader: string := "Url"

  /** The columns kept, in DataFrame column order. */
  const DesiredHeaders: seq<string> := [SearchTermHeader, ReasonHeader, UrlHeader]

  /** The non-empty stripped header texts, in order. */
  function HeaderLabels(ths: seq<string>): (r: seq<string>)
    ensures |r| <= |ths|
    ensures forall i :: 0 <= i < |r| ==> r[i] != [] && exists j :: 0 <= j < |ths| && r[i] == Strip(ths[j])
    ensures forall j :: 0 <= j < |ths| && Strip(ths[j]) != [] ==> Strip(ths[j]) in r
    decreases |ths|
  {
    if ths == [] then []
    else
      var n := |ths| - 1;
      var h := Strip(ths[n]);
      assert forall j :: 0 <= j < n ==> ths[..n][j] == ths[j];
      HeaderLabels(ths[..n]) + (if h != [] then [h] else [])
  }

  /** The positions of the header cells whose stripped text is non-empty:
      increasing, and including every such position. */
  function LabelPositions(ths: seq<string>): (idx: seq<nat>)
    ensures forall i :: 0 <= i < |idx| ==> idx[i] < |ths| && Strip(ths[idx[i]]) != []
    ensures forall i, k :: 0 <= i < k < |idx| ==> idx[i] < idx[k]
    ensures forall j :: 0 <= j < |ths| && Strip(ths[j]) != [] ==> j in idx
    decreases |ths|
  {
    if ths == [] then []
    else
      var n := |ths| - 1;
      assert forall j :: 0 <= j < n ==> ths[..n][j] == ths[j];
      LabelPositions(ths[..n]) + (if Strip(ths[n]) != [] then [n] else [])
  }

  /** `labels[i]` is the stripped text of header cell `idx[i]`, for every i. */
  ghost predicate LabelsAt(labels: seq<string>, ths: seq<string>, idx: seq<nat>) {
    |labels| == |idx| && forall i :: 0 <= i < |idx| ==> idx[i] < |ths| && labels[i] == Strip(ths[idx[i]])
  }

  /** The labels are the stripped texts at those positions, one each and in
      position order, so the i-th label names the column of the i-th kept
      header cell. */
  lemma {:induction false} HeaderLabelsInOrder(ths: seq<string>)
    ensures LabelsAt(HeaderLabels(ths), ths, LabelPositions(ths))
    decreases |ths|
  {
    if ths != [] {
      var n := |ths| - 1;
      HeaderLabelsInOrder(ths[..n]);
      LabelsAtSnoc(HeaderLabels(ths[..n]), LabelPositions(ths[..n]), ths);
    }
  }

  /** Extending the header cells by one keeps the earlier labels at their
      positions and adds the new cell's label when it is non-empty. */
  lemma LabelsAtSnoc(labels: seq<string>, idx: seq<nat>, ths: seq<string>)
    requires ths != [] && LabelsAt(labels, ths[..|ths| - 1], idx)
    ensures var n, h := |ths| - 1, Strip(ths[|ths| - 1]);
      LabelsAt(labels + (if h != [] then [h] else []), ths, idx + (if h != [] then [n] else []))
  {
    var n := |ths| - 1;
    forall i | 0 <= i < |idx| ensures ths[..n][idx[i]] == ths[idx[i]] {
    }
  }

  /** The header list the rows are read against: the labels, with "Url"
      appended when the table shows no such header. */
  function Headers(ths: seq<string>): (r: seq<string>)
    ensures UrlHeader in r
    ensures UrlHeader in HeaderLabels(ths) ==> r == HeaderLabels(ths)
    ensures UrlHeader !in HeaderLabels(ths) ==> r == HeaderLabels(ths) + [UrlHeader]
  {
    var labels := HeaderLabels(ths);
    if UrlHeader in labels then labels else labels + [UrlHeader]
  }

  /** One extracted row: column name to value, where a None value is the
      Python None stored for an anchor without `href`. */
  type Record = map<string, Option<string>>

  /** What a cell contributes under `header`: for "Url" the anchor's href
      (outer None: the cell has no anchor, which ends the extraction; inner
      None: the anchor has no href), the cell text otherwise. */
  function CellValue(header: string, cell: Cell): Option<Option<string>> {
    if header == UrlHeader then cell.anchor else Some(Some(cell.text))
  }

  /** The record built from one row's cells, read left to right, each cell
      under the header at its position; None when the row cannot be read. */
  function RowRecord(headers: seq<string>, cells: seq<Cell>): Option<Record>
    decreases |cells|
  {
    if cells == [] then Some(map[])
    else if |cells| > |headers| then None
    else
      var i := |cells| - 1;
      match RowRecord(headers, cells[..i])
      case None => None
      case Some(rec) =>
        if headers[i] !in DesiredHeaders then Some(rec)
        else match CellValue(headers[i], cells[i])
          case None => None
          case Some(v) => Some(rec[headers[i] := v])
  }

  /** The records of all rows, in row order; None when any row cannot be read. */
  function Records(headers: seq<string>, rows: seq<seq<Cell>>): Option<seq<Record>>
    decreases |rows|
  {
    if rows == [] then Some([])
    else
      match Records(headers, rows[..|rows| - 1])
      case None => None
      case Some(recs) =>
        match RowRecord(headers, rows[|rows| - 1])
        case None => None
        case Some(rec) => Some(recs + [rec])
  }

  /** Cell i is the last cell of the row that sits under header `key`. */
  predicate LastUnder(headers: seq<string>, cells: seq<Cell>, key: string, i: int) {
    0 <= i < |cells| && i < |headers| && headers[i] == key
    && forall j :: i < j < |cells| && j < |headers| ==> headers[j] != key
  }

  /** A record has only the kept columns; a kept column is present exactly when
      some cell sits under it, and its value comes from the last such cell: the
      anchor's href for "Url", the cell text otherwise. */
  lemma {:induction false} RowRecordMeaning(headers: seq<string>, cells: seq<Cell>)
    requires RowRecord(headers, cells).Some?
    ensures |cells| <= |headers|
    ensures forall key :: key in RowRecord(headers, cells).value ==> key in DesiredHeaders
    ensures forall key :: key in DesiredHeaders ==>
      (key in RowRecord(headers, cells).value <==> exists i :: 0 <= i < |cells| && headers[i] == key)
    ensures forall key :: key in RowRecord(headers, cells).value ==>
      exists i :: LastUnder(headers, cells, key, i)
        && CellValue(key, cells[i]) == Some(RowRecord(headers, cells).value[key])
    decreases |cells|
  {
    if cells != [] {
      var n := |cells| - 1;
      var init := cells[..n];
      RowRecordMeaning(headers, init);
      assert forall j :: 0 <= j < n ==> cells[j] == init[j];
      var prev := RowRecord(headers, init).value;
      var rec := RowRecord(headers, cells).value;
      forall key | key in DesiredHeaders
        ensures key in rec <==> exists i :: 0 <= i < |cells| && headers[i] == key
      {
        if key in rec && key != headers[n] {
          assert key in prev;
          var i :| 0 <= i < |init| && headers[i] == key;
        }
        if key == headers[n] {
          assert key in rec;
        } else if exists i :: 0 <= i < |cells| && headers[i] == key {
          var i :| 0 <= i < |cells| && headers[i] == key;
          assert i < n;
          assert key in prev;
        }
      }
      forall key | key in rec
        ensures exists i :: LastUnder(headers, cells, key, i) && CellValue(key, cells[i]) == Some(rec[key])
      {
        if key == headers[n] {
          assert LastUnder(headers, cells, key, n);
        } else {
          var i :| LastUnder(headers, init, key, i) && CellValue(key, init[i]) == Some(prev[key]);
          assert LastUnder(headers, cells, key, i);
        }
      }
    }
  }

  /** A row with more cells than headers makes the whole extraction fail. */
  lemma {:induction false} TooManyCellsAborts(headers: seq<string>, rows: seq<seq<Cell>>, j: nat)
    requires j < |rows| && |rows[j]| > |headers|
    ensures Records(headers, rows) == None
    decreases |rows|
  {
    if j < |rows| - 1 {
      assert rows[..|rows| - 1][j] == rows[j];
      TooManyCellsAborts(headers, rows[..|rows| - 1], j);
    }
  }

  /** Extraction yields one record per body row, in row order, each the
      record of its row; it fails exactly when some row cannot be read. */
  lemma {:induction false} RecordsShape(headers: seq<string>, rows: seq<seq<Cell>>)
    ensures Records(headers, rows).Some? ==>
      |Records(headers, rows).value| == |rows|
      && forall j :: 0 <= j < |rows| ==> Some(Records(headers, rows).value[j]) == RowRecord(headers, rows[j])
    ensures Records(headers, rows).None? <==> exists j :: 0 <= j < |rows| && RowRecord(headers, rows[j]).None?
    decreases |rows|
  {
    if rows != [] {
      var n := |rows| - 1;
      var init := rows[..n];
      RecordsShape(headers, init);
      assert forall j :: 0 <= j < n ==> rows[j] == init[j];
      if Records(headers, rows).None? && Records(headers, init).None? {
        var j :| 0 <= j < |init| && RowRecord(headers, init[j]).None?;
        assert RowRecord(headers, rows[j]).None?;
      }
    }
  }

  /** The row loop: reads each row's cells under the headers and appends its
      record; any unreadable row ends the extraction with None. */
  method ExtractRows(headers: seq<string>, rows: seq<seq<Cell>>) returns (records: Option<seq<Record>>)
    ensures records == Records(headers, rows)
  {
    var finalData: seq<Record> := [];
    for r := 0 to |rows|
      invariant Records(headers, rows[..r]) == Some(finalData)
    {
      assert rows[..r + 1][..r] == rows[..r];
      var cells := rows[r];
      var rowData: Record := map[];
      for i := 0 to |cells|
        invariant RowRecord(headers, cells[..i]) == Some(rowData)
      {
        assert cells[..i + 1][..i] == cells[..i];
        if i >= |headers| {
          assert |cells| > |headers|;
          TooManyCellsAborts(headers, rows, r);
          return None;
        }
        var header := headers[i];
        if header in DesiredHeaders {
          if header == UrlHeader {
            if cells[i].anchor.None? {
              RowRecordNoneExtends(headers, cells, i + 1);
              RecordsNoneWhenRowNone(headers, rows, r);
              return None;
            }
            rowData := rowData[header := cells[i].anchor.value];
          } else {
            rowData := rowData[header := Some(cells[i].text)];
          }
        }
      }
      assert cells[..|cells|] == cells;
      finalData := finalData + [rowData];
    }
    assert rows[..|rows|] == rows;
    return Some(finalData);
  }

  /** Once a prefix of the row cannot be read, neither can the row. */
  lemma {:induction false} RowRecordNoneExtends(headers: seq<string>, cells: seq<Cell>, k: nat)
    requires k <= |cells| && RowRecord(headers, cells[..k]).None?
    ensures RowRecord(headers, cells).None?
    decreases |cells| - k
  {
    if k < |cells| {
      assert cells[..k + 1][..k] == cells[..k];
      RowRecordNoneExtends(headers, cells, k + 1);
    } else {
      assert cells[..k] == cells;
    }
  }

  /** An unreadable row makes the extraction fail. */
  lemma RecordsNoneWhenRowNone(headers: seq<string>, rows: seq<seq<Cell>>, j: nat)
    requires j < |rows| && RowRecord(headers, rows[j]).None?
    ensures Records(headers, rows).None?
  {
    RecordsShape(headers, rows);
  }

  /** A DataFrame cell: NaN where the row had no such key, the Python None
      stored for an anchor without href, or text. */
  datatype Field = NaN | NoneValue | Text(text: string)

  /** The DataFrame cell of a record under a column. */
  function Column(rec: Record, key: string): Field {
    if key !in rec then NaN
    else match rec[key]
      case None => NoneValue
      case Some(s) => Text(s)
  }

  /** A "Url" cell without an anchor makes its row, and so the whole
      extraction, fail. */
  lemma MissingAnchorAborts(headers: seq<string>, rows: seq<seq<Cell>>, j: nat, i: nat)
    requires j < |rows| && i < |rows[j]| && |rows[j]| <= |headers|
    requires headers[i] == UrlHeader && rows[j][i].anchor.None?
    ensures Records(headers, rows).None?
  {
    var cells := rows[j];
    assert cells[..i + 1][..i] == cells[..i];
    RowRecordNoneExtends(headers, cells, i + 1);
    RecordsNoneWhenRowNone(headers, rows, j);
  }

  /** An anchor without href keeps its row: the row's record is built and
      holds None under "Url". */
  lemma AnchorWithoutHrefKeepsRow(headers: seq<string>, cells: seq<Cell>)
    requires RowRecord(headers, cells).Some?
    requires exists i :: LastUnder(headers, cells, UrlHeader, i) && cells[i].anchor == Some(None)
    ensures UrlHeader in RowRecord(headers, cells).value
    ensures RowRecord(headers, cells).value[UrlHeader] == None
  {
    RowRecordMeaning(headers, cells);
    var i :| LastUnder(headers, cells, UrlHeader, i) && cells[i].anchor == Some(None);
    assert UrlHeader in RowRecord(headers, cells).value;
    var k :| LastUnder(headers, cells, UrlHeader, k)
      && CellValue(UrlHeader, cells[k]) == Some(RowRecord(headers, cells).value[UrlHeader]);
    assert k == i;
  }
}
