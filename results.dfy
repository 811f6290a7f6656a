/** What one fetch of the data page produces, and how a fetch fails. */
module Results {

  /** The absence counters; the hours stay raw text, since the portal may write fractions. */
  datatype Absences = Absences(days: int, unexcusedDays: int, hours: string, unexcusedHours: string)

  /** The counters when the page has no absence rows. */
  const NoAbsences := Absences(0, 0, "0", "0")

  /** One graded item; the grade stays raw text. */
  datatype GradeEntry = GradeEntry(subject: string, date: string, grade: string, comment: string)

  datatype FetchResult = FetchResult(lastUpdate: string, absences: Absences, grades: seq<GradeEntry>)

  datatype FetchError =
    | AuthenticationFailed      // neither logged in nor able to log in
    | NotAnInteger(cell: string) // `int()` refused a day count
}
