/**
 * The third pass over the data page: the grade history, a walk over the
 * heading and table elements in document order that carries the subject of
 * the most recent accepted heading.
 */
module GradesPass {
  import opened Wrappers
  import opened Strings
  import opened Markup
  import opened Results

  /** A heading that names a subject: longer than two characters and none of the known noise headings. */
  predicate IsSubjectHeading(text: string)
  {
    |text| > 2 && !Contains(text, "Notenspiegel") && !Contains(text, "Endnoten") && !Contains(text, "Legende")
  }

  /** Some header cell is exactly "Zensur" and some is exactly "Datum". */
  predicate IsGradeTable(t: Table)
  {
    "Zensur" in t.headers && "Datum" in t.headers
  }

  /** A row with at least three cells and a non-empty grade cell. */
  predicate IsGradeRow(row: seq<string>)
  {
    |row| >= 3 && row[1] != ""
  }

  function EntryOf(subject: string, row: seq<string>): GradeEntry
    requires |row| >= 3
  {
    GradeEntry(subject, row[0], row[1], row[2])
  }

  /**
   * The entries of one grade table: an entry (subject, cell 0, cell 1, cell 2)
   * for each row with at least three cells and a non-empty cell 1, and
   * nothing for the other rows.
   */
  function RowEntries(subject: string, rows: seq<seq<string>>): (r: seq<GradeEntry>)
    ensures |r| <= |rows|
    ensures forall g :: g in r ==> g.subject == subject && g.grade != ""
    ensures forall g :: g in r <==> exists k :: 0 <= k < |rows| && IsGradeRow(rows[k]) && g == EntryOf(subject, rows[k])
    ensures (forall k :: 0 <= k < |rows| ==> !IsGradeRow(rows[k])) ==> r == []
  {
    if |rows| == 0 then []
    else
      var init := rows[..|rows| - 1];
      var last := rows[|rows| - 1];
      var r := RowEntries(subject, init) + (if IsGradeRow(last) then [EntryOf(subject, last)] else []);
      assert forall k :: 0 <= k < |init| ==> init[k] == rows[k];
      r
  }

  /** Entries follow row order: the entries of two blocks of rows are those of the first, then those of the second. */
  lemma {:induction false} RowEntriesAppend(subject: string, a: seq<seq<string>>, b: seq<seq<string>>)
    ensures RowEntries(subject, a + b) == RowEntries(subject, a) + RowEntries(subject, b)
  {
    if |b| == 0 {
      assert a + b == a;
    } else {
      var init := b[..|b| - 1];
      assert (a + b)[..|a + b| - 1] == a + init;
      assert (a + b)[|a + b| - 1] == b[|b| - 1];
      RowEntriesAppend(subject, a, init);
    }
  }

  /** The walk's state: the subject cursor and the entries so far. */
  datatype Walk = Walk(subject: Option<string>, grades: seq<GradeEntry>)

  /**
   * One element of the walk: accepted headings move the cursor; grade tables
   * under a subject add entries. Entries are only ever appended, tables never
   * move the cursor, and rejected headings change nothing.
   */
  function Step(w: Walk, e: Element): (r: Walk)
    ensures w.grades <= r.grades
    ensures e.TableElement? ==> r.subject == w.subject
    ensures e.Heading? && !IsSubjectHeading(e.text) ==> r == w
    ensures e.Heading? && IsSubjectHeading(e.text) ==> r.subject == Some(e.text) && r.grades == w.grades
  {
    match e
    case Heading(text) => if IsSubjectHeading(text) then w.(subject := Some(text)) else w
    case TableElement(t) =>
      if w.subject.Some? && IsGradeTable(t) then w.(grades := w.grades + RowEntries(w.subject.value, t.rows))
      else w
  }

  /** The walk over all elements, from no subject and no entries; the cursor only ever holds an accepted heading. */
  function WalkAll(elements: seq<Element>): (r: Walk)
    ensures r.subject.Some? ==> IsSubjectHeading(r.subject.value)
  {
    if |elements| == 0 then Walk(None, [])
    else Step(WalkAll(elements[..|elements| - 1]), elements[|elements| - 1])
  }

  /** The grade pass of the data page: every entry is filed under an accepted subject heading and has a grade. */
  function GradesOf(elements: seq<Element>): (r: seq<GradeEntry>)
    ensures forall g :: g in r ==> IsSubjectHeading(g.subject) && g.grade != ""
  {
    EntriesWellFormed(elements);
    WalkAll(elements).grades
  }

  predicate IsSubjectElement(e: Element)
  {
    e.Heading? && IsSubjectHeading(e.text)
  }

  /** Index of the last accepted heading. */
  function LastSubjectIndex(elements: seq<Element>): (r: Option<nat>)
    ensures r.Some? ==> r.value < |elements| && IsSubjectElement(elements[r.value])
                        && forall l :: r.value < l < |elements| ==> !IsSubjectElement(elements[l])
    ensures r.None? ==> forall l :: 0 <= l < |elements| ==> !IsSubjectElement(elements[l])
  {
    if |elements| == 0 then None
    else if IsSubjectElement(elements[|elements| - 1]) then Some(|elements| - 1)
    else LastSubjectIndex(elements[..|elements| - 1])
  }

  /** The subject in force after the elements: the text of the last accepted heading. */
  function SubjectAfter(elements: seq<Element>): Option<string>
  {
    match LastSubjectIndex(elements)
    case None => None
    case Some(h) => Some(elements[h].text)
  }

  /**
   * An independent statement of the pass: each grade table contributes its
   * entries under the subject in force just before it, and nothing without one.
   */
  function ReferenceGrades(elements: seq<Element>): seq<GradeEntry>
  {
    if |elements| == 0 then []
    else
      var init := elements[..|elements| - 1];
      ReferenceGrades(init) +
      match elements[|elements| - 1]
      case TableElement(t) =>
        if SubjectAfter(init).Some? && IsGradeTable(t) then RowEntries(SubjectAfter(init).value, t.rows) else []
      case Heading(_) => []
  }

  /** The cursor is always the text of the most recent accepted heading; noise headings and tables leave it alone. */
  lemma {:induction false} CursorIsLastSubject(elements: seq<Element>)
    ensures WalkAll(elements).subject == SubjectAfter(elements)
  {
    if |elements| > 0 {
      var init := elements[..|elements| - 1];
      CursorIsLastSubject(init);
      if !IsSubjectElement(elements[|elements| - 1]) {
        var h := LastSubjectIndex(init);
        if h.Some? {
          assert elements[h.value] == init[h.value];
        }
      }
    }
  }

  /** The walk produces exactly the reference entries, in document and row order. */
  lemma {:induction false} WalkMatchesReference(elements: seq<Element>)
    ensures GradesOf(elements) == ReferenceGrades(elements)
  {
    if |elements| > 0 {
      var init := elements[..|elements| - 1];
      WalkMatchesReference(init);
      CursorIsLastSubject(init);
    }
  }

  /** Every entry is filed under an accepted subject heading and has a grade. */
  lemma {:induction false} EntriesWellFormed(elements: seq<Element>)
    ensures WalkAll(elements).subject.Some? ==> IsSubjectHeading(WalkAll(elements).subject.value)
    ensures forall g :: g in WalkAll(elements).grades ==> IsSubjectHeading(g.subject) && g.grade != ""
  {
    if |elements| > 0 {
      EntriesWellFormed(elements[..|elements| - 1]);
    }
  }

  /** The number of rows in grade tables. */
  function GradeTableRows(elements: seq<Element>): nat
  {
    if |elements| == 0 then 0
    else
      GradeTableRows(elements[..|elements| - 1]) +
      match elements[|elements| - 1]
      case TableElement(t) => if IsGradeTable(t) then |t.rows| else 0
      case Heading(_) => 0
  }

  /** There are at most as many entries as rows in grade tables. */
  lemma {:induction false} EntriesBounded(elements: seq<Element>)
    ensures |GradesOf(elements)| <= GradeTableRows(elements)
  {
    if |elements| > 0 {
      EntriesBounded(elements[..|elements| - 1]);
    }
  }

  /** Tables before the first accepted heading contribute nothing. */
  lemma {:induction false} NoSubjectNoGrades(elements: seq<Element>)
    requires forall l :: 0 <= l < |elements| ==> !IsSubjectElement(elements[l])
    ensures GradesOf(elements) == [] && WalkAll(elements).subject == None
  {
    if |elements| > 0 {
      NoSubjectNoGrades(elements[..|elements| - 1]);
    }
  }

  /**
   * The grade pass as the source runs it: one loop over the elements with
   * the subject cursor, and an inner loop over the rows of each grade table.
   */
  method ParseGrades(elements: seq<Element>) returns (grades: seq<GradeEntry>)
    ensures grades == GradesOf(elements)
  {
    var subject: Option<string> := None;
    grades := [];
    for i := 0 to |elements|
      invariant WalkAll(elements[..i]) == Walk(subject, grades)
    {
      assert elements[..i + 1][..i] == elements[..i];
      match elements[i]
      case Heading(text) =>
        if IsSubjectHeading(text) {
          subject := Some(text);
        }
      case TableElement(table) =>
        if subject.None? {
          continue;
        }
        if IsGradeTable(table) {
          var entries := ReadGradeRows(subject.value, table.rows);
          grades := grades + entries;
        }
    }
    assert elements[..|elements|] == elements;
  }

  /** The inner loop of the grade pass: the entries of one grade table's rows, in row order. */
  method ReadGradeRows(subject: string, rows: seq<seq<string>>) returns (entries: seq<GradeEntry>)
    ensures entries == RowEntries(subject, rows)
  {
    entries := [];
    for j := 0 to |rows|
      invariant entries == RowEntries(subject, rows[..j])
    {
      var cols := rows[j];
      assert rows[..j + 1][..j] == rows[..j];
      if |cols| >= 3 {
        var grade := cols[1];
        if grade != "" {
          entries := entries + [GradeEntry(subject, cols[0], grade, cols[2])];
        }
      }
    }
    assert rows[..|rows|] == rows;
  }
}
