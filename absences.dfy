/**
 * The second pass over the data page: the absence counters, read from every
 * table whose text mentions both "Fehltage" and "Unentschuldigte".
 */
module AbsencesPass {
  import opened Wrappers
  import opened Strings
  import opened Markup
  import opened Results

  predicate IsAbsenceTable(t: Table)
  {
    Contains(t.text, "Fehltage") && Contains(t.text, "Unentschuldigte")
  }

  /** The row has a second cell and its first cell is exactly `key`. */
  predicate RowFor(row: seq<string>, key: string)
  {
    |row| > 1 && row[0] == key
  }

  predicate IsDayRow(row: seq<string>)
  {
    RowFor(row, "Fehltage") || RowFor(row, "Unentschuldigte Fehltage")
  }

  /** A day row whose count `int()` refuses. */
  predicate IsBadDayRow(row: seq<string>)
  {
    IsDayRow(row) && ParseInt(row[1]).None?
  }

  /** Some row of `rows` is a day row whose count `int()` refuses. */
  predicate HasBadDayRow(rows: seq<seq<string>>)
  {
    exists k :: 0 <= k < |rows| && IsBadDayRow(rows[k])
  }

  /** The effect of one row on the counters; it fails exactly on a day row whose count `int()` refuses. */
  function ApplyRow(a: Absences, row: seq<string>): (r: Result<Absences, FetchError>)
    ensures r.Err? <==> IsBadDayRow(row)
    ensures r.Err? ==> r.error == NotAnInteger(row[1])
  {
    if RowFor(row, "Fehltage") then
      match ParseInt(row[1])
      case Some(n) => Ok(a.(days := n))
      case None => Err(NotAnInteger(row[1]))
    else if RowFor(row, "Unentschuldigte Fehltage") then
      match ParseInt(row[1])
      case Some(n) => Ok(a.(unexcusedDays := n))
      case None => Err(NotAnInteger(row[1]))
    else if RowFor(row, "Fehlstunden") then Ok(a.(hours := row[1]))
    else if RowFor(row, "Unentschuldigte Fehlstunden") then Ok(a.(unexcusedHours := row[1]))
    else Ok(a)
  }

  /**
   * The counters after the rows, in order, starting from the defaults; the
   * first refused count aborts. Without day rows the day counters stay 0.
   */
  function FoldRows(rows: seq<seq<string>>): (r: Result<Absences, FetchError>)
    ensures r.Err? ==> r.error.NotAnInteger?
  {
    if |rows| == 0 then Ok(NoAbsences)
    else
      match FoldRows(rows[..|rows| - 1])
      case Err(e) => Err(e)
      case Ok(a) => ApplyRow(a, rows[|rows| - 1])
  }

  /** The rows of the absence tables, in document order. */
  function AbsenceRows(tables: seq<Table>): seq<seq<string>>
  {
    if |tables| == 0 then []
    else
      var last := tables[|tables| - 1];
      AbsenceRows(tables[..|tables| - 1]) + (if IsAbsenceTable(last) then last.rows else [])
  }

  /** The absence pass of the data page: it fails exactly when an absence-table row holds a refused day count. */
  function AbsencesOf(tables: seq<Table>): (r: Result<Absences, FetchError>)
    ensures r.Err? <==> HasBadDayRow(AbsenceRows(tables))
    ensures r.Err? ==> r.error.NotAnInteger?
  {
    var rows := AbsenceRows(tables);
    FoldRowsFails(rows);
    FoldRows(rows)
  }

  /** Index of the last row for `key`. */
  function LastRowFor(rows: seq<seq<string>>, key: string): (r: Option<nat>)
    ensures r.Some? ==> r.value < |rows| && RowFor(rows[r.value], key)
                        && forall l :: r.value < l < |rows| ==> !RowFor(rows[l], key)
    ensures r.None? ==> forall l :: 0 <= l < |rows| ==> !RowFor(rows[l], key)
  {
    if |rows| == 0 then None
    else if RowFor(rows[|rows| - 1], key) then Some(|rows| - 1)
    else LastRowFor(rows[..|rows| - 1], key)
  }

  /** One more row applies to the counters gathered so far. */
  lemma FoldRowsSnoc(rows: seq<seq<string>>, row: seq<string>)
    ensures FoldRows(rows + [row]) == match FoldRows(rows)
      case Err(e) => Err(e)
      case Ok(a) => ApplyRow(a, row)
  {
    assert (rows + [row])[..|rows|] == rows;
  }

  lemma {:induction false} AbsenceRowsAppend(a: seq<Table>, b: seq<Table>)
    ensures AbsenceRows(a + b) == AbsenceRows(a) + AbsenceRows(b)
  {
    if |b| > 0 {
      var init := b[..|b| - 1];
      assert (a + b)[..|a + b| - 1] == a + init;
      assert (a + b)[|a + b| - 1] == b[|b| - 1];
      AbsenceRowsAppend(a, init);
    } else {
      assert a + b == a;
    }
  }

  /** Once a count has been refused, later rows change nothing. */
  lemma {:induction false} FoldRowsErrSticks(rows: seq<seq<string>>, more: seq<seq<string>>)
    requires FoldRows(rows).Err?
    ensures FoldRows(rows + more) == FoldRows(rows)
  {
    if |more| > 0 {
      var init := more[..|more| - 1];
      assert (rows + more)[..|rows + more| - 1] == rows + init;
      FoldRowsErrSticks(rows, init);
      assert FoldRows(rows + more) == FoldRows(rows + init);
    } else {
      assert rows + more == rows;
    }
  }

  /** The pass fails exactly when some absence-table row holds a day count `int()` refuses. */
  lemma {:induction false} FoldRowsFails(rows: seq<seq<string>>)
    ensures FoldRows(rows).Err? <==> HasBadDayRow(rows)
    ensures FoldRows(rows).Err? ==> FoldRows(rows).error.NotAnInteger?
  {
    if |rows| > 0 {
      var init := rows[..|rows| - 1];
      FoldRowsFails(init);
      assert forall k :: 0 <= k < |init| ==> init[k] == rows[k];
    }
  }

  /** What one row does to each counter. */
  lemma ApplyRowEffect(b: Absences, row: seq<string>, a: Absences)
    requires ApplyRow(b, row) == Ok(a)
    ensures RowFor(row, "Fehltage") ==> ParseInt(row[1]) == Some(a.days)
    ensures !RowFor(row, "Fehltage") ==> a.days == b.days
    ensures RowFor(row, "Unentschuldigte Fehltage") ==> ParseInt(row[1]) == Some(a.unexcusedDays)
    ensures !RowFor(row, "Unentschuldigte Fehltage") ==> a.unexcusedDays == b.unexcusedDays
    ensures RowFor(row, "Fehlstunden") ==> a.hours == row[1]
    ensures !RowFor(row, "Fehlstunden") ==> a.hours == b.hours
    ensures RowFor(row, "Unentschuldigte Fehlstunden") ==> a.unexcusedHours == row[1]
    ensures !RowFor(row, "Unentschuldigte Fehlstunden") ==> a.unexcusedHours == b.unexcusedHours
  {
  }

  /**
   * When the pass succeeds, each day counter is the value `int()` gives the
   * last row with its key, or 0 when there is no such row.
   */
  lemma {:induction false} FoldRowsDays(rows: seq<seq<string>>, a: Absences)
    requires FoldRows(rows) == Ok(a)
    ensures match LastRowFor(rows, "Fehltage")
      case None => a.days == 0
      case Some(k) => ParseInt(rows[k][1]) == Some(a.days)
    ensures match LastRowFor(rows, "Unentschuldigte Fehltage")
      case None => a.unexcusedDays == 0
      case Some(k) => ParseInt(rows[k][1]) == Some(a.unexcusedDays)
  {
    if |rows| > 0 {
      var init := rows[..|rows| - 1];
      var b := FoldRows(init).value;
      FoldRowsDays(init, b);
      ApplyRowEffect(b, rows[|rows| - 1], a);
    }
  }

  /**
   * When the pass succeeds, each hour counter is the raw second cell of the
   * last row with its key, or "0" when there is no such row.
   */
  lemma {:induction false} FoldRowsHours(rows: seq<seq<string>>, a: Absences)
    requires FoldRows(rows) == Ok(a)
    ensures match LastRowFor(rows, "Fehlstunden")
      case None => a.hours == "0"
      case Some(k) => a.hours == rows[k][1]
    ensures match LastRowFor(rows, "Unentschuldigte Fehlstunden")
      case None => a.unexcusedHours == "0"
      case Some(k) => a.unexcusedHours == rows[k][1]
  {
    if |rows| > 0 {
      var init := rows[..|rows| - 1];
      var b := FoldRows(init).value;
      FoldRowsHours(init, b);
      ApplyRowEffect(b, rows[|rows| - 1], a);
    }
  }

  /** Without an absence table the counters keep their defaults. */
  lemma {:induction false} NoAbsenceTable(tables: seq<Table>)
    requires forall k :: 0 <= k < |tables| ==> !IsAbsenceTable(tables[k])
    ensures AbsencesOf(tables) == Ok(NoAbsences)
    ensures AbsenceRows(tables) == []
  {
    if |tables| > 0 {
      NoAbsenceTable(tables[..|tables| - 1]);
    }
  }

  /**
   * The absence pass as the source runs it: every table, every row, the
   * counters overwritten in place, aborting at the first refused day count.
   */
  method ParseAbsences(tables: seq<Table>) returns (r: Result<Absences, FetchError>)
    ensures r == AbsencesOf(tables)
  {
    var absences := NoAbsences;
    for i := 0 to |tables|
      invariant FoldRows(AbsenceRows(tables[..i])) == Ok(absences)
    {
      var table := tables[i];
      ghost var done := AbsenceRows(tables[..i]);
      assert tables[..i + 1][..i] == tables[..i];
      assert AbsenceRows(tables[..i + 1]) == done + (if IsAbsenceTable(table) then table.rows else []);
      if IsAbsenceTable(table) {
        var read := ReadAbsenceRows(done, absences, table.rows);
        if read.Err? {
          EarlyFailure(tables, i);
          return read;
        }
        absences := read.value;
      } else {
        assert done + [] == done;
      }
    }
    assert tables[..|tables|] == tables;
    r := Ok(absences);
  }

  /**
   * The inner loop of the absence pass over the rows of one absence table,
   * continuing from the counters `start` that the rows `done` produced.
   */
  method ReadAbsenceRows(ghost done: seq<seq<string>>, start: Absences, rows: seq<seq<string>>)
    returns (r: Result<Absences, FetchError>)
    requires FoldRows(done) == Ok(start)
    ensures r == FoldRows(done + rows)
  {
    var absences := start;
    assert done + rows[..0] == done;
    for j := 0 to |rows|
      invariant FoldRows(done + rows[..j]) == Ok(absences)
    {
      var cols := rows[j];
      assert done + rows[..j + 1] == (done + rows[..j]) + [cols];
      FoldRowsSnoc(done + rows[..j], cols);
      ghost var before := absences;
      if |cols| == 0 {
        continue;
      }
      if cols[0] == "Fehltage" && |cols| > 1 {
        var n := ParseInt(cols[1]);
        if n.None? {
          RestOfRowsIgnored(done, rows, j);
          return Err(NotAnInteger(cols[1]));
        }
        absences := absences.(days := n.value);
      } else if cols[0] == "Unentschuldigte Fehltage" && |cols| > 1 {
        var n := ParseInt(cols[1]);
        if n.None? {
          RestOfRowsIgnored(done, rows, j);
          return Err(NotAnInteger(cols[1]));
        }
        absences := absences.(unexcusedDays := n.value);
      } else if cols[0] == "Fehlstunden" && |cols| > 1 {
        absences := absences.(hours := cols[1]);
      } else if cols[0] == "Unentschuldigte Fehlstunden" && |cols| > 1 {
        absences := absences.(unexcusedHours := cols[1]);
      }
      assert ApplyRow(before, cols) == Ok(absences);
    }
    assert rows[..|rows|] == rows;
    r := Ok(absences);
  }

  lemma RestOfRowsIgnored(done: seq<seq<string>>, rows: seq<seq<string>>, j: nat)
    requires j < |rows| && FoldRows(done + rows[..j + 1]).Err?
    ensures FoldRows(done + rows) == FoldRows(done + rows[..j + 1])
  {
    SplitAfter(done, rows, j);
    FoldRowsErrSticks(done + rows[..j + 1], rows[j + 1..]);
  }

  lemma SplitAfter(done: seq<seq<string>>, rows: seq<seq<string>>, j: nat)
    requires j < |rows|
    ensures done + rows == (done + rows[..j + 1]) + rows[j + 1..]
  {
    assert rows == rows[..j + 1] + rows[j + 1..];
  }

  /** A refused count in table `i` decides the whole pass. */
  lemma EarlyFailure(tables: seq<Table>, i: nat)
    requires i < |tables| && IsAbsenceTable(tables[i])
    requires FoldRows(AbsenceRows(tables[..i]) + tables[i].rows).Err?
    ensures AbsencesOf(tables) == FoldRows(AbsenceRows(tables[..i]) + tables[i].rows)
  {
    var prefix := AbsenceRows(tables[..i]) + tables[i].rows;
    AbsenceRowsAppend(tables[..i + 1], tables[i + 1..]);
    assert tables[..i + 1] + tables[i + 1..] == tables;
    assert tables[..i + 1][..i] == tables[..i];
    assert AbsenceRows(tables[..i + 1]) == prefix;
    FoldRowsErrSticks(prefix, AbsenceRows(tables[i + 1..]));
  }
}
