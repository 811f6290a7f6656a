# Home.InfoPoint client: a Dafny model

This project models the scraping and login engine of the Home.InfoPoint
integration: the `HomeInfoPointClient` class of
`custom_components/home_infopoint/api.py`. The client logs in to a school
portal that offers only server-rendered HTML, by filling in the portal's
login form heuristically, and then reads three things off the data page
(`getdata.php`): the "last updated" stamp, the absence counters and the
per-subject grade history.

The model keeps the client's own shape:

- `Api.Client` is a class with the base `url` field that its constructor
  normalises, and the methods `CheckLoggedIn`, `Authenticate` and `GetData`.
  Their loops are the source's loops, with invariants that tie each loop
  to a specification function.
- The network is not modelled as I/O. Every answer the portal gives is a
  parameter: the form on the login page, the body and final URL of the
  login POST's answer, the body of each GET of the login page, and the data
  page. Every request the client would send comes back, in order, as a list
  of `Request` values (`Get(url)` or `Post(url, fields)`). The contracts can
  therefore say which requests happen, for example that a logged-in probe
  skips the login entirely.
- HTML parsing is not modelled. A form is its `action` and a sequence of
  inputs `(name?, type, value)`. A table is its text, its header cells and
  its rows of `td` cell strings. The data page is its text plus the
  document-order stream of `Heading(text)` and `TableElement(table)`
  elements (`h3`/`b`/`strong` and `table`). Its tables, in the same order,
  are what the absence pass scans.
- The decision about the login POST's answer (`Login.Decide`,
  `Login.AuthSucceeds`) and the last-update stamp are pure functions. The
  form filling, the absence pass and the grade pass are specified by
  functions that fold over their input (`Login.Fields`,
  `AbsencesPass.FoldRows`, `GradesPass.WalkAll`), and lemmas relate those
  folds to independent statements of what the source promises.

Files: `wrappers.dfy` (Option and Result), `strings.dfy` (the Python string
operations used), `markup.dfy` (the abstract HTML), `results.dfy` (the
fetch result), `login.dfy`, `last_update.dfy`, `absences.dfy`, `grades.dfy`,
`api.dfy` (the client) and `examples_spec.dfy` (small worked pages).

On these points the model follows the code as written:

- A day count that `int()` refuses is not caught anywhere in `get_data`.
  It aborts the whole fetch. It does not fall back to the default. The model
  returns `Err(NotAnInteger(cell))`.
- The fallback keys are added based on key names (`username`/`user`,
  `password`, `login`). They do not depend on whether some field got the
  username or password role.
- Absence rows are recognised by exact equality of the first cell with the
  four labels. A prefix match does not count.
- Grade tables are recognised by exact membership of "Zensur" and "Datum"
  in the list of header cells.
- The code tests "user or login, and not pass" before "pass".
  `Login.RoleOf` states the resulting password precedence directly.

## Model

| member | source | states |
|---|---|---|
| `Api.Client.constructor` | custom_components/home_infopoint/api.py:15-22 | The base URL ends in `/`. A URL that already ended in `/` is kept unchanged. Otherwise exactly one `/` is appended. |
| `Api.Client.LoginUrl` | custom_components/home_infopoint/api.py:27 | The login page URL is the base URL followed by `default.php`. Since the base ends in `/`, a `/` precedes the page name. |
| `Api.Client.DataUrl` | custom_components/home_infopoint/api.py:135 | The data page URL is the base URL followed by `getdata.php`. Since the base ends in `/`, a `/` precedes the page name. |
| `Api.Client.CheckLoggedIn` | custom_components/home_infopoint/api.py:111-118 | One GET of `default.php`. The result is logged in iff the page contains "Abmelden" or "Logout", so a page with neither is not logged in. |
| `Api.Client.AuthRequests` | custom_components/home_infopoint/api.py:27-113 | A login attempt first GETs the login page. Without a form it stops. With a form it POSTs the filled-in fields to the resolved target. It GETs the login page again only when the POST's answer has no logout marker, no error word and no error URL, so a POST answer with "Abmelden" needs no follow-up GET. |
| `Api.Client.Authenticate` | custom_components/home_infopoint/api.py:24-109 | The loop builds exactly the field map `Login.LoginFields` specifies. The result is `Login.AuthSucceeds`, and the requests sent are `AuthRequests`. |
| `Api.Client.GetData` | custom_components/home_infopoint/api.py:126-230 | It logs in only when the probe shows no logout marker. A failed login yields `AuthenticationFailed` and stops before the data page is requested. Otherwise the data page is fetched and the result is exactly `ExtractPage` of it. |
| `Api.ExtractPage` | custom_components/home_infopoint/api.py:139-230 | The fetch fails iff some absence-table day row holds a count `int()` refuses, and then only with `NotAnInteger`. Otherwise the result holds the stamp, the absence counters and the grade entries of the three passes. |
| `Login.PostTarget` | custom_components/home_infopoint/api.py:43-50 | A missing or empty action posts to base + `default.php`. An action starting with `http` is used verbatim. Any other action posts to base + action. |
| `Login.RoleOf` | custom_components/home_infopoint/api.py:58-74 | Type `submit` (compared case-insensitively) wins over any name. If not submit, a name containing "pass" gets the password, even if it also contains "user". A name containing "user" or "login" but not "pass" gets the username. All comparisons are case-insensitive. |
| `Login.Fields` | custom_components/home_infopoint/api.py:55-74 | The classified field map never has the empty name as a key. |
| `Login.LoginFields` | custom_components/home_infopoint/api.py:55-82 | The posted map always has `password` and `login` as keys. It keeps every classified field's key and value unchanged. |
| `Login.FieldsKeys` | custom_components/home_infopoint/api.py:55-74 | The field map has a key exactly for each non-empty input name. Inputs without a name, or with an empty name, are skipped. |
| `Login.FieldsLastWins` | custom_components/home_infopoint/api.py:55-74 | The value under a name is the one the last input of that name calls for: the username, the password, or the declared value. |
| `Login.WithFallback` | custom_components/home_infopoint/api.py:76-82 | Existing keys are never overwritten. `username` is added only when neither `username` nor `user` is a key. `password` and `login`="Anmelden" are added when absent. So `password` and `login` are always keys. |
| `Login.Decide` | custom_components/home_infopoint/api.py:93-109 | The answer counts as logged in iff it contains "Abmelden" or "Logout". It is refused iff it has no marker and either an error word (lower-cased body) or an `err=`/`error=` URL. Otherwise it is left to the follow-up check. |
| `Login.AuthSucceeds` | custom_components/home_infopoint/api.py:37-109 | False without a form. True whenever the POST answer has a logout marker, even alongside error words or an error URL. Otherwise false on an error word, then false on an error URL. Otherwise the result of the strict check on the follow-up page. |
| `LastUpdatePass.LastUpdate` | custom_components/home_infopoint/api.py:142-150 | The stamp is "Connected" when the text lacks "aktualisiert am". In every case the stamp contains no `<` and no whitespace. |
| `LastUpdatePass.LastUpdateCases` | custom_components/home_infopoint/api.py:142-150 | "Connected" without "aktualisiert am". "Unknown" when only whitespace lies between the first occurrence and the next one. Otherwise a contiguous piece of that segment with no `<` and no whitespace. |
| `LastUpdatePass.CleanToken` | custom_components/home_infopoint/api.py:145 | The cleaned token never contains `<`. |
| `LastUpdatePass.CleanTokenInfix` | custom_components/home_infopoint/api.py:145 | Stripping `"`, stripping `'` and cutting at `<` keep a contiguous piece of the token. |
| `Strings.Lower` | custom_components/home_infopoint/api.py:58-69 | `lower()` keeps the length. It lowers each ASCII capital, keeps every other character, and leaves no ASCII capital letter. |
| `Strings.FirstToken` | custom_components/home_infopoint/api.py:144 | `None` iff the text is all whitespace. Otherwise the first maximal run of non-whitespace, preceded only by whitespace. |
| `Strings.SecondPart` | custom_components/home_infopoint/api.py:144 | `split(sep)[1]` is the text after the first occurrence of `sep`, up to the next occurrence or the end. |
| `Strings.Strip` | custom_components/home_infopoint/api.py:145 | `strip(c)` leaves a middle piece of the text that neither starts nor ends with `c`, with only copies of `c` removed on both sides. |
| `Strings.Before` | custom_components/home_infopoint/api.py:145 | `split("<")[0]` is the longest prefix without `<`. |
| `Strings.Find` | custom_components/home_infopoint/api.py:93 | The first occurrence of a substring, or none at all. This is the `in` test used throughout. |
| `Strings.ParseInt` | custom_components/home_infopoint/api.py:169 | `int()` succeeds iff the cell is an optional sign followed by decimal digits. |
| `Strings.ParseIntRoundTrip` | custom_components/home_infopoint/api.py:171 | `int(str(n)) == n` for every integer. |
| `Markup.Tables` | custom_components/home_infopoint/api.py:159 | The tables of the page are exactly the table elements of the stream. There are never more tables than elements. |
| `Markup.TablesAppend` | custom_components/home_infopoint/api.py:159 | `find_all("table")` keeps document order: the tables of two consecutive stretches of the page are those of the first, then those of the second. |
| `AbsencesPass.ParseAbsences` | custom_components/home_infopoint/api.py:153-175 | The nested loops over tables and rows compute exactly `AbsencesOf`, and they abort at the first refused day count. |
| `AbsencesPass.ReadAbsenceRows` | custom_components/home_infopoint/api.py:165-175 | The row loop of one absence table continues the fold of the rows before it. Empty rows are skipped. |
| `AbsencesPass.ApplyRow` | custom_components/home_infopoint/api.py:167-175 | One row fails iff it is a day row whose second cell `int()` refuses, and then with `NotAnInteger` of that cell. |
| `AbsencesPass.FoldRows` | custom_components/home_infopoint/api.py:165-175 | Folding the rows in order can fail only with `NotAnInteger`. |
| `AbsencesPass.AbsencesOf` | custom_components/home_infopoint/api.py:153-175 | The absence pass fails iff some row of an absence table is a day row whose count `int()` refuses, and then only with `NotAnInteger`. |
| `AbsencesPass.ApplyRowEffect` | custom_components/home_infopoint/api.py:167-175 | A row changes only the counter whose label equals its first cell exactly, and only with a second cell: days through `int()`, hours as the raw cell. |
| `AbsencesPass.FoldRowsFails` | custom_components/home_infopoint/api.py:169-171 | The pass fails iff some absence-table row is a day row whose second cell `int()` refuses. |
| `AbsencesPass.FoldRowsErrSticks` | custom_components/home_infopoint/api.py:169 | After a refused count, later rows change nothing, so the first refusal decides the outcome. |
| `AbsencesPass.FoldRowsDays` | custom_components/home_infopoint/api.py:168-171 | On success, each day counter is `int()` of the last row with its label, so later rows and tables overwrite earlier ones. Without such a row the counter stays 0. |
| `AbsencesPass.FoldRowsHours` | custom_components/home_infopoint/api.py:172-175 | On success, each hour counter is the raw second cell of the last row with its label. Without such a row it stays "0". |
| `AbsencesPass.NoAbsenceTable` | custom_components/home_infopoint/api.py:153-164 | Only tables whose text contains both "Fehltage" and "Unentschuldigte" are read. Without any, the counters are 0, 0, "0", "0". |
| `GradesPass.RowEntries` | custom_components/home_infopoint/api.py:205-219 | One table gives at most one entry per row. An entry is in the result iff some row has at least three cells and a non-empty cell 1, and the entry is (subject, date = cell 0, grade = cell 1, comment = cell 2) of that row. Rows with fewer than three cells or an empty grade give none, so a table without such rows gives nothing. |
| `GradesPass.RowEntriesAppend` | custom_components/home_infopoint/api.py:205-219 | Entries follow row order: the entries of two consecutive blocks of rows are those of the first block, then those of the second. |
| `GradesPass.Step` | custom_components/home_infopoint/api.py:190-219 | One element only appends entries. A table never moves the subject cursor. A rejected heading changes nothing. An accepted heading becomes the cursor and adds no entry. |
| `GradesPass.WalkAll` | custom_components/home_infopoint/api.py:185-219 | The subject cursor, when set, is always an accepted heading. |
| `GradesPass.GradesOf` | custom_components/home_infopoint/api.py:185-228 | Every entry's subject is an accepted heading and every entry's grade is non-empty. |
| `GradesPass.ParseGrades` | custom_components/home_infopoint/api.py:185-228 | The loop over elements, with its subject cursor, computes exactly `GradesOf`. |
| `GradesPass.ReadGradeRows` | custom_components/home_infopoint/api.py:205-219 | The inner loop over one grade table's rows computes exactly `RowEntries`. |
| `GradesPass.CursorIsLastSubject` | custom_components/home_infopoint/api.py:190-195 | The cursor is always the text of the most recent heading that is longer than two characters and contains none of "Notenspiegel", "Endnoten" or "Legende". Rejected headings and tables leave it unchanged, and tables never reset it. |
| `GradesPass.WalkMatchesReference` | custom_components/home_infopoint/api.py:185-228 | The entries are, in document and row order, the entries of each grade table under the subject in force just before it. Tables with no subject in force contribute nothing, and consecutive tables share a subject. |
| `GradesPass.EntriesWellFormed` | custom_components/home_infopoint/api.py:194-219 | Every entry's subject is an accepted heading and every grade is non-empty. |
| `GradesPass.EntriesBounded` | custom_components/home_infopoint/api.py:203-219 | There are at most as many entries as rows in tables whose headers include "Zensur" and "Datum". |
| `GradesPass.NoSubjectNoGrades` | custom_components/home_infopoint/api.py:197-199 | Tables before any accepted heading contribute nothing. |
| `Examples.AbsenceTableRead` | custom_components/home_infopoint/api.py:164-175 | Rows `Fehltage 5`, `Unentschuldigte Fehltage 2`, `Fehlstunden 10`, `Unentschuldigte Fehlstunden 3` in an absence table give 5, 2, "10", "3". |
| `Examples.GradeTableRead` | custom_components/home_infopoint/api.py:203-219 | A subject heading over a `Datum`/`Zensur`/`Bemerkung` table yields one entry for the graded row and none for the row with an empty grade. |
| `Examples.NoiseHeadingSkipped` | custom_components/home_infopoint/api.py:194 | A "Notenspiegel" heading between a subject and its table does not change the subject. |

## Left out

- Transport: aiohttp sessions, cookies, async/await, the constant User-Agent header (`_get_headers`, api.py:120-124) and the Referer header. Requests are modelled as a URL plus, for the POST, the field map. Answers are parameters. Transport faults are not modelled.
- HTML parsing with BeautifulSoup, `get_text` and `strip=True` trimming. Forms, tables, cells and the element stream are given already parsed and trimmed. Nested tables and the page's text are whatever the parser would report.
- Logging calls.
- `DEFAULT_URL`: const.py is not part of this model, so the constructor always takes a URL.
- Strings.Lower: only ASCII letters are lowered. For the ASCII words compared here ("submit", "user", "login", "pass", "fehler", "falsch", "nicht erfolgreich") this matches Python's full `str.lower()`. The only non-ASCII characters that lower into ASCII are U+0130 (which yields "i" plus a combining mark) and U+212A (which yields "k"). No word has a "k", and every "i" in them is followed by an ASCII letter.
- Strings.ParseInt: Python's `int()` also accepts underscores between digits, non-ASCII decimal digits and surrounding whitespace. These are not modelled. The cells are already trimmed.
- The bare `try/except: pass` around appending a grade entry (api.py:211-221) is not modelled, because nothing inside it can raise once a row has three cells. For the same reason the comment is always cell 2.
- custom_components/home-infopoint/sensor.py: Home Assistant entities and the per-subject average, which uses floating-point parsing, summation and rounding.
- custom_components/home-infopoint/config_flow.py: the configuration UI, which only maps the result of `authenticate()` to "invalid_auth" or "unknown".
- custom_components/home_infopoint/coordinator.py: scheduling (a daily 17:50 trigger) and wrapping failures into `UpdateFailed`.
- Running the extractor twice on the same page gives the same result. This holds by construction, since every pass is a function of the page, so no separate lemma states it.
