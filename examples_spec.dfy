/** Small pages worked through the passes. */
module Examples {
  import opened Wrappers
  import opened Strings
  import opened Markup
  import opened Results
  import opened AbsencesPass
  import opened GradesPass

  const AbsenceRowsSample := [["Fehltage", "5"], ["Unentschuldigte Fehltage", "2"],
                              ["Fehlstunden", "10"], ["Unentschuldigte Fehlstunden", "3"]]

  /** An absence table with the four rows fills in all four counters. */
  lemma AbsenceTableRead(text: string)
    requires Contains(text, "Fehltage") && Contains(text, "Unentschuldigte")
    ensures AbsencesOf([Table(text, [], AbsenceRowsSample)]) == Ok(Absences(5, 2, "10", "3"))
  {
    var rows := AbsenceRowsSample;
    var t := Table(text, [], rows);
    assert [t][..0] == [];
    assert AbsenceRows([t]) == rows;
    assert ParseInt("5") == Some(5);
    assert ParseInt("2") == Some(2);
    assert rows[..1][..0] == [];
    assert FoldRows(rows[..1]) == Ok(Absences(5, 0, "0", "0"));
    assert rows[..2][..1] == rows[..1];
    assert FoldRows(rows[..2]) == Ok(Absences(5, 2, "0", "0"));
    assert rows[..3][..2] == rows[..2];
    assert FoldRows(rows[..3]) == Ok(Absences(5, 2, "10", "0"));
    assert rows[..4][..3] == rows[..3];
    assert rows[..4] == rows;
  }

  const GradeTableSample := Table("", ["Datum", "Zensur", "Bemerkung"],
                                  [[], ["01.02.2024", "2", "gut"], ["08.02.2024", "", "offen"]])

  /** A subject heading over a grade table: the graded row gives an entry, the ungraded one none. */
  lemma GradeTableRead(subject: string)
    requires IsSubjectHeading(subject)
    ensures GradesOf([Heading(subject), TableElement(GradeTableSample)])
            == [GradeEntry(subject, "01.02.2024", "2", "gut")]
  {
    var rows := GradeTableSample.rows;
    assert rows[..2][..1] == [[]];
    assert RowEntries(subject, rows) == [GradeEntry(subject, "01.02.2024", "2", "gut")];
    var es := [Heading(subject), TableElement(GradeTableSample)];
    assert es[..1][..0] == [];
    assert WalkAll(es[..1]) == Walk(Some(subject), []);
  }

  /** A "Notenspiegel" heading between a subject and its table does not take the subject's place. */
  lemma NoiseHeadingSkipped(subject: string, noise: string)
    requires IsSubjectHeading(subject) && Contains(noise, "Notenspiegel")
    ensures GradesOf([Heading(subject), Heading(noise), TableElement(GradeTableSample)])
            == [GradeEntry(subject, "01.02.2024", "2", "gut")]
  {
    var es := [Heading(subject), Heading(noise), TableElement(GradeTableSample)];
    GradeTableRead(subject);
    assert es[..2][..1] == [Heading(subject), TableElement(GradeTableSample)][..1];
    assert WalkAll(es[..2]) == WalkAll(es[..2][..1]);
  }
}
