/**
 * The attendance ledger: a spreadsheet tab whose rows are lists of text
 * cells. The application reads it to detect a registration already made
 * today and appends one row per registration.
 */
module Ledger {

  /** One spreadsheet row: its cells from column A onwards. */
  type Row = seq<string>

  /** A row recording the caller identified by ipHash as registered on the day todayText. */
  predicate RecordsVisit(row: Row, ipHash: string, todayText: string) {
    |row| >= 2 && row[0] == ipHash && row[1] == todayText
  }

  /** The rows as returned for the range A:B: each row cut to its first two cells. */
  function ColumnsAB(rows: seq<Row>): (cut: seq<Row>)
    ensures |cut| == |rows|
    ensures forall i :: 0 <= i < |rows| ==> cut[i] <= rows[i]
    ensures forall i :: 0 <= i < |rows| ==> |cut[i]| == if |rows[i]| < 2 then |rows[i]| else 2
  {
    seq(|rows|, i requires 0 <= i < |rows| => if |rows[i]| < 2 then rows[i] else rows[i][..2])
  }

  /** The row scan of `verificar_registro_unico`: stops at the first row recording the visit. */
  function ScanRows(rows: seq<Row>, ipHash: string, todayText: string): (found: bool)
    ensures found <==> exists i :: 0 <= i < |rows| && RecordsVisit(rows[i], ipHash, todayText)
  {
    if rows == [] then false
    else if RecordsVisit(rows[0], ipHash, todayText) then true
    else
      var found := ScanRows(rows[1..], ipHash, todayText);
      assert forall i :: 0 < i < |rows| ==> rows[i] == rows[1..][i - 1];
      found
  }

  /**
   * `verificar_registro_unico`: reads columns A:B (readOk false stands for a
   * failed read, which is reported and answered "not registered"), answers
   * False for an empty sheet, and otherwise scans the rows. The answer is
   * True exactly when the read succeeds and some full row records the visit:
   * cutting rows to columns A:B loses no match, and shorter rows never match.
   */
  function AlreadyRegisteredToday(rows: seq<Row>, readOk: bool, ipHash: string, todayText: string): (registered: bool)
    ensures registered <==> readOk && exists i :: 0 <= i < |rows| && RecordsVisit(rows[i], ipHash, todayText)
  {
    if !readOk then false
    else
      var values := ColumnsAB(rows);
      if |values| == 0 then false
      else ScanRows(values, ipHash, todayText)
  }

  /** An empty sheet is never reported as holding today's registration, whatever the hash and date. */
  lemma EmptySheetNeverRegistered(readOk: bool, ipHash: string, todayText: string)
    ensures !AlreadyRegisteredToday([], readOk, ipHash, todayText)
  {
  }

  /** The row appended by `registrar_presenca`, in column order hash, date, name, event. */
  function AttendanceRow(ipHash: string, todayText: string, name: string, eventName: string): (row: Row)
    ensures |row| == 4 && RecordsVisit(row, ipHash, todayText)
    ensures row[2] == name && row[3] == eventName
  {
    [ipHash, todayText, name, eventName]
  }

  /** No two rows record the same caller on the same day. */
  predicate UniqueVisits(rows: seq<Row>) {
    forall i, j :: 0 <= i < j < |rows| && |rows[i]| >= 2 && |rows[j]| >= 2 ==>
      rows[i][..2] != rows[j][..2]
  }

  /** Appending a visit that no row records yet keeps every (hash, date) pair unique. */
  lemma AppendKeepsVisitsUnique(rows: seq<Row>, ipHash: string, todayText: string, name: string, eventName: string)
    requires UniqueVisits(rows)
    requires !exists i :: 0 <= i < |rows| && RecordsVisit(rows[i], ipHash, todayText)
    ensures UniqueVisits(rows + [AttendanceRow(ipHash, todayText, name, eventName)])
  {
    var row := AttendanceRow(ipHash, todayText, name, eventName);
    var after := rows + [row];
    forall i, j | 0 <= i < j < |after| && |after[i]| >= 2 && |after[j]| >= 2
      ensures after[i][..2] != after[j][..2]
    {
      if j == |rows| {
        assert after[i] == rows[i];
        assert !RecordsVisit(rows[i], ipHash, todayText);
      }
    }
  }

  /**
   * The shared spreadsheet tab. Every write appends at the end; nothing is
   * ever edited or removed.
   */
  class Spreadsheet {
    var rows: seq<Row>

    constructor (initial: seq<Row>)
      ensures rows == initial
    {
      rows := initial;
    }

    /**
     * `registrar_presenca`: appends the row [hash, date, name, event] when the
     * append call succeeds (apiOk), and leaves the sheet unchanged otherwise.
     */
    method RegisterAttendance(name: string, ipHash: string, todayText: string, eventName: string, apiOk: bool)
      returns (ok: bool)
      modifies this
      ensures ok == apiOk
      ensures rows == old(rows) + (if ok then [AttendanceRow(ipHash, todayText, name, eventName)] else [])
    {
      ok := apiOk;
      if ok {
        rows := rows + [AttendanceRow(ipHash, todayText, name, eventName)];
      }
    }
  }
}
