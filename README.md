# Dr. Claude: the encrypted journal store and the session rules, in Dafny

Dr. Claude is a terminal journaling application. Its journal entries, therapy sessions,
therapist notes and user profile live in an SQLite file. Every free-text column is
encrypted under a key derived from the vault password. This project models two parts of it:

- **The store** (`Database` in `src/models.py`).
  - The file's contents are a value `Models.Store`: four tables plus their AUTOINCREMENT counters.
  - The class `Models.Database` keeps those tables as fields.
  - Each of its methods is proved to perform one function from the old contents to the new ones.
  - The properties the application relies on are lemmas about those functions:
    - profile insert-or-update, and profile read-back;
    - fresh ids on every append;
    - inclusive ISO-date range queries, newest first;
    - the monthly condensation: its date range, its summary text, and the rows it deletes and keeps.
- **The deterministic rules of `src/app.py`.**
  - `get_multiline_input` (module `Input`), over a given sequence of terminal events.
  - The command decoding, message counter, auto-save and end of `start_therapy_session` (module `Session`). The therapist's replies, the generated notes and the clock are inputs.
  - The pagination of `view_all_therapist_notes` (module `Pager`), over the choices typed.
  - The month walk of `condense_old_entries` (module `Schedule`), against a `Database` object.

Supporting modules:

- `Text`: `strip`, `lower`, `"\n".join`.
- `Calendar`: the part of `datetime` used, with `isoformat()` and its ordering.
- `Collation`: SQLite's BINARY text order.
- `Query`: the rows a `SELECT … WHERE date >= ? AND date <= ? ORDER BY date DESC` returns, and `DELETE … WHERE id = ?`.
- `Crypto`: a symbolic key derivation and cipher.
- `Wrappers`: `Option`, `Result`, `Outcome`.

Modelling choices:

- **The cipher.** Keys and tokens are symbolic terms. A token opens only under the key that sealed it, and then yields exactly what was sealed. A token has its own type, distinct from its plaintext. The key records the password, the fixed salt `dr_claude_salt`, 100000 iterations and 32 bytes.
- **JSON.** The profile map and the session record are sealed as typed values, so `json.dumps`/`json.loads` are the identity.
- **Limits and failures.**
  - Ids stop at SQLite's largest rowid, `2^63 - 1`. One more insert fails with SQLITE_FULL (`StoreError.Full`).
  - A token sealed under another key fails with `DecryptionFailed`.
  - A month or year that `datetime` rejects fails with `DateFailed`.
  - Any call after `close` fails with `Closed`.
  - A write that fails commits nothing.
- **Well-formed files.** A file this class writes has at most the profile row 1. SQLite's AUTOINCREMENT keeps each table's ids increasing and at or below its counter. `Database` requires this of the file it opens and every method keeps it.
- **Time.** The clock is an input. Time differences are counted exactly in microseconds, from a day count modelled on `datetime`'s own ordinals.

## Model

| member | source | states |
|---|---|---|
| Crypto.DeriveKey | src/models.py:40-49 | the key comes from the password alone, with salt `dr_claude_salt`, 100000 iterations and 32 bytes |
| Crypto.DeriveKeyDeterministic | src/models.py:40-49 | two derivations give the same key if and only if the passwords are equal |
| Crypto.Decrypt | src/models.py:99-101 | decryption succeeds exactly when the token was sealed under this key, and then returns what was sealed |
| Crypto.DecryptEncrypt | src/models.py:95-101 | decrypting what was encrypted under the same key gives the plaintext back |
| Crypto.WrongPasswordFails | src/models.py:95-101 | a token sealed under one password's key raises `InvalidToken` under another password's key |
| Models.ApproachFromValue | src/models.py:14-21 | `TherapyApproach(value)` finds the member carrying that value, and fails exactly when no member carries it |
| Models.ApproachRoundTrip | src/models.py:14-21 | every approach is found again from its stored value |
| Models.Append | src/models.py:65-72 | an AUTOINCREMENT insert adds exactly one row with id counter+1, larger than every id before; past the largest rowid it fails with Full |
| Models.SaveProfile | src/models.py:103-119 | on a well-formed file, saving leaves exactly one profile row, with id 1, holding the sealed profile; no other table changes |
| Models.ReadProfile | src/models.py:121-131 | no row with id 1 reads as `{}`; otherwise it opens exactly under the sealing key and gives the sealed map, else DecryptionFailed |
| Models.ProfileRoundTrip | src/models.py:103-131 | after saving a profile, reading it under the same key returns that profile; a fresh file reads as `{}` |
| Models.ProfileWrongPassword | src/models.py:121-131 | a profile saved under one password raises under another |
| Models.AddJournal | src/models.py:133-143 | one row is appended, not condensed, under a fresh id larger than every earlier one; the other tables and rows are unchanged; fails with Full exactly when ids are exhausted |
| Models.AddSession | src/models.py:178-190 | one row is appended with the approach's value and the sealed record, under a fresh id; the rest is unchanged; fails with Full exactly when ids are exhausted |
| Models.AddNote | src/models.py:225-235 | one row is appended with the sealed note, under a fresh id; the rest is unchanged; fails with Full exactly when ids are exhausted |
| Models.Reveal | src/models.py:166-176 | the decrypting loop succeeds exactly when every row is sealed under this key; the result then has the same rows in the same order, each payload opened; otherwise DecryptionFailed |
| Models.RevealIds | src/models.py:166-176 | decrypting keeps the set of ids |
| Models.RevealSnoc | src/models.py:258-267 | decrypting a table with one more row decrypts that row after the others |
| Models.SelectFinds | src/models.py:145-176 | a stored row whose date lies within the bounds is among the decrypted query results |
| Models.WrongPasswordQuery | src/models.py:163-168 | a non-empty table written under one password raises when queried under another |
| Models.SessionReadsBack | src/models.py:178-223 | a saved session is returned by any query whose bounds contain its date, with its approach value and exactly the saved record |
| Models.NoteReadsBack | src/models.py:225-267 | a saved note is returned by any query whose bounds contain its date, decrypted, under the id it was given |
| Models.MonthRange | src/models.py:272-277 | defines the month's query bounds: `datetime(year, month, 1).isoformat()`, and the 1st of the next month, found by adding four days to the 28th, less one microsecond; a month or year `datetime` rejects is an error (properties in MonthRangeSpec) |
| Models.MonthRangeSpec | src/models.py:272-277 | the range runs from midnight of the 1st to 23:59:59.999999 of the month's last Gregorian day; a bad month or year raises ValueError and December 9999 raises OverflowError |
| Models.MonthRangeSelectsMonth | src/models.py:272-279 | an `isoformat()` date lies within the range exactly when its datetime is in that month of that year |
| Models.DecimalRoundTrip | src/models.py:285 | the digits written denote the year, with no leading zero |
| Models.BlocksOne | src/models.py:286-287 | one entry gives one `Date: …` block |
| Models.BlocksConcat | src/models.py:286-287 | the blocks of two lists of entries are the blocks of the first followed by those of the second |
| Models.BlockAt | src/models.py:284-287 | the summary lists the entries in query order, newest first: entry i's block sits between the blocks before and after it |
| Models.SummaryText | src/models.py:285-287 | the loop appending one block per entry builds exactly the header followed by the blocks of all entries |
| Models.Condense | src/models.py:269-302 | defines `condense_journal_entries` on the file's contents: the month's bounds, then the query and the rest of the condensation (Fold); a bad month is DateFailed |
| Models.Fold | src/models.py:279-302 | defines the condensation once the query has returned: decrypt the rows, stop on a failure or on no entries, else insert the summary row dated at the month start and delete the fetched ids |
| Models.CondenseNothing | src/models.py:279-282 | a month with no entry in range leaves the file unchanged |
| Models.CondenseErrors | src/models.py:269-302 | condensing raises on a bad month (DateFailed), on a token this key cannot open (DecryptionFailed), and on a non-empty month when ids are exhausted (Full) |
| Models.CondenseStops | src/models.py:279-282 | once the query has run: a decryption error is raised, an empty month is a no-op, and a month with entries but no ids left raises Full |
| Models.InsertThenDelete | src/models.py:293-300 | inserting a row with a fresh id and then deleting the ids the query found leaves the rows outside the range, in place, followed by the new row |
| Models.CondenseCommit | src/models.py:284-302 | the file committed is the journal after inserting the summary row and deleting the fetched ids, with the counter one higher |
| Models.CondenseUnfold | src/models.py:289-300 | a condensation with entries inserts the summary row dated at the month start and deletes the selected ids |
| Models.FoldUnfold | src/models.py:289-300 | once the entries are fetched and no ids are exhausted, the insert and the deletions are exactly what is committed |
| Models.CondenseFolds | src/models.py:284-302 | a month with entries is replaced by one condensed row, dated at the month start, holding the header and the entries newest first; every row outside the month stays, in place; the file stays well-formed |
| Models.MonthStartInRange | src/models.py:289-290 | the condensed row's date lies within the month's range |
| Models.CondensedMonth | src/models.py:284-302 | after condensing, querying the month returns the condensed row alone, and the rows outside the month are those of before |
| Models.CondenseAgain | src/models.py:279-300 | condensed rows are not skipped, so condensing again wraps the summary in a new one: the month still holds a single row, but a different one, whose only block is the old summary |
| Models.CondenseKeepsValid | src/models.py:269-302 | a condensation that succeeds leaves a well-formed file well-formed: ids still increasing and below the counter, at most the profile row 1 |
| Models.DecryptRows | src/models.py:166-176 | the row-by-row loop returns what `Reveal` specifies: all rows decrypted in order, or the first failure |
| Models.DeleteEach | src/models.py:299-300 | deleting the entries' ids one at a time removes exactly the rows with those ids |
| Models.CondensedTable | src/models.py:284-300 | the summary built entry by entry, inserted and followed by the one-by-one deletions, is the journal table `Condense` commits |
| Models.CondenseRun | src/models.py:269-302 | the imperative condensation returns what `Condense` specifies, and changes only the journal table and its counter |
| Models.Database.constructor | src/models.py:26-38 | the key is derived from the password, the tables are the file's, the connection is open and the file is well-formed, as SQLite's PRIMARY KEY AUTOINCREMENT tables are |
| Models.Database.SaveUserProfile | src/models.py:103-119 | the new contents are `SaveProfile` of the old; a closed connection raises and changes nothing; the file stays well-formed |
| Models.Database.GetUserProfile | src/models.py:121-131 | returns `ReadProfile` of the contents, or Closed |
| Models.Database.AddJournalEntry | src/models.py:133-143 | the new contents are those of `AddJournal`, dated by the caller or by `now().isoformat()`; a failure commits nothing; the file stays well-formed |
| Models.Database.GetJournalEntries | src/models.py:145-176 | returns the rows in range, newest first, decrypted, or the error |
| Models.Database.AddTherapySession | src/models.py:178-190 | the new contents are those of `AddSession`, dated by the caller or by `now().isoformat()`; a failure commits nothing; the file stays well-formed |
| Models.Database.GetTherapySessions | src/models.py:192-223 | returns the sessions in range, newest first, decrypted, or the error |
| Models.Database.AddTherapistNote | src/models.py:225-235 | the new contents are those of `AddNote`, dated by the caller or by `now().isoformat()`; a failure commits nothing; the file stays well-formed |
| Models.Database.GetTherapistNotes | src/models.py:237-267 | returns the notes in range, newest first, decrypted, or the error |
| Models.Database.CondenseJournalEntries | src/models.py:269-302 | the new contents are those of `Condense`, committed once; on any error nothing changes; the file stays well-formed |
| Models.Database.Close | src/models.py:304-307 | the connection is closed and the contents are kept; the file stays well-formed |
| Query.Select | src/models.py:145-163 | defines the date-range query: the WHERE clause (Filter) followed by `ORDER BY date DESC` (SortDesc); its properties are in SelectSpec |
| Query.FilterMembers | src/models.py:150-159 | the WHERE clause keeps exactly the rows whose date lies within the active bounds; an empty or missing bound means no bound |
| Query.FilterMultiset | src/models.py:150-159 | the WHERE clause keeps every in-range row as often as it occurs, and no other |
| Query.OutsideMembers | src/models.py:298-300 | the rows outside the range are exactly the table's rows whose date is not in range |
| Query.FilterSnoc | src/models.py:150-159 | a row appended to the table is selected after the others exactly when it is in range |
| Query.OutsideSnoc | src/models.py:298-300 | a row appended to the table stays outside the range exactly when it is not in range |
| Query.NoneInRange | src/models.py:279-282 | with no row in range, the query returns nothing and every row is outside |
| Query.LastAloneInRange | src/models.py:289-300 | after rows all outside the range, a new row in range is the only one selected |
| Query.InsertMultiset | src/models.py:161 | placing a row into an ordered result adds exactly that row |
| Query.InsertSorted | src/models.py:161 | placing a row keeps the result ordered by date, newest first |
| Query.SortDesc | src/models.py:161 | `ORDER BY date DESC` gives a permutation of the rows, ordered newest first |
| Query.SelectSpec | src/models.py:145-163 | a query returns exactly the in-range rows, each as often as stored, ordered newest first |
| Query.SelectOne | src/models.py:145-163 | a query that finds one row returns that row |
| Query.IdsMembers | src/models.py:299-300 | an id is among the fetched ids exactly when some fetched row carries it |
| Query.SnocIncreasing | src/models.py:65-72 | appending the row with the next id keeps ids increasing and below the counter |
| Query.DeleteIdsMembers | src/models.py:299-300 | deleting a set of ids keeps exactly the rows whose id is not in the set |
| Query.DeleteSelected | src/models.py:298-300 | with increasing ids, deleting the ids of the selected rows leaves exactly the rows outside the range, in place |
| Query.OutsideIncreasing | src/models.py:298-300 | the rows kept still have increasing ids |
| Collation.LexLeRefl | src/models.py:150-161 | every date compares `<=` to itself |
| Collation.LexLeTotal | src/models.py:150-161 | any two texts are comparable |
| Collation.LexLeTrans | src/models.py:150-161 | the text order is transitive |
| Collation.LexLeAntisym | src/models.py:150-161 | texts each `<=` the other are equal |
| Collation.LexLePrefix | src/models.py:150-161 | a text sorts no later than any extension of it |
| Calendar.DaysInMonth | src/models.py:276 | months have 28 to 31 days; February has 29 exactly in Gregorian leap years |
| Calendar.NextDay | src/models.py:276 | one day later is valid, and fails with OverflowError only after 31 December 9999 |
| Calendar.PrevDay | src/app.py:672 | one day earlier is valid, and fails with OverflowError only before 1 January of year 1 |
| Calendar.PrevDayFromFirst | src/app.py:672-675 | the day before the 1st is the last day of the month before, at the same time of day |
| Calendar.Day28PlusFour | src/models.py:276 | four days after the 28th is day 32 minus the month's length, in the next month; for December 9999 it raises OverflowError |
| Calendar.AfterFirstInstant | src/models.py:272-275 | a datetime is at or after a month's first instant exactly when its month is not earlier |
| Calendar.BeforeLastInstant | src/models.py:276-277 | a datetime is at or before a month's last instant exactly when its month is not later |
| Calendar.IsoFormatOrder | src/models.py:150-161 | comparing two `isoformat()` strings as text gives the chronological order, although the fraction is left out at zero microseconds |
| Calendar.IsoFormatInMonth | src/models.py:275-279 | an `isoformat()` string lies between a month's first and last instants exactly when its datetime is in that month |
| Calendar.DaysBeforeNextYear | src/app.py:463-464 | a year has 366 days in a leap year and 365 otherwise |
| Calendar.DaysBeforeDecember | src/app.py:463-464 | the months of a year add up to the year's length |
| Calendar.OrdinalNextDay | src/app.py:463-464 | one day later is one ordinal and 86400000000 microseconds later on the time line used for the time since the last save |
| Text.StripLeftSpec | src/app.py:49-54 | `lstrip` cuts only whitespace and leaves a suffix not starting with whitespace |
| Text.StripRightSpec | src/app.py:49-54 | `rstrip` cuts only whitespace and leaves a prefix not ending with whitespace |
| Text.StripSpec | src/app.py:49-54 | `strip` returns a slice that neither starts nor ends with whitespace, with only whitespace cut on either side |
| Text.StripTrimmed | src/app.py:49-54 | a text without whitespace at either end is its own strip |
| Text.StripIdempotent | src/app.py:49-54 | stripping twice is stripping once |
| Text.LowerSpec | src/app.py:375 | lowering keeps the length and lowers every character in place |
| Text.LowerConcat | src/app.py:375 | lowering commutes with concatenation |
| Text.LowerIdempotent | src/app.py:650 | lowering twice is lowering once |
| Text.SplitJoin | src/app.py:60 | joining loses no line: lines without newlines split back out of the joined text |
| Input.SendStop | src/app.py:46-58 | defines where `/send` mode stops reading: the position of the first Ctrl+D, `/send` line or command line, or the end of the events |
| Input.SendStopSpec | src/app.py:46-58 | no event before the stop ends the reading, and the event at the stop does |
| Input.ReadUntilSend | src/app.py:43-60 | the `/send`-mode loop reads up to and including the first ending event; a command line gives the marker and the stripped command; otherwise the result is the lines before the stop, joined by newlines |
| Input.BlankStop | src/app.py:63-71 | the empty-line mode stops at the first Ctrl+D, or at the first empty line after the first event, and at nothing earlier |
| Input.LaterBlankStop | src/app.py:63-71 | after content was taken, the reading stops at the first Ctrl+D or empty line, and at nothing earlier |
| Input.ReadUntilBlank | src/app.py:61-73 | the empty-line-mode loop returns the lines before the stop, joined by newlines, and reads one event past them when one ended it |
| Input.CommandDiscardsText | src/app.py:51-54 | a command typed after some text ends the reading at the command; the text before it is dropped |
| Input.SendEndsText | src/app.py:49-60 | `/send` on its own line, blanks around it allowed, ends the reading with exactly the lines before it |
| Input.LeadingBlankKept | src/app.py:66-73 | in empty-line mode a leading empty line is kept: an empty line, a word and an empty line read as a newline followed by the word |
| Session.DecodeCommand | src/app.py:374-379 | defines the command branch's test and decoding: a text starting with `__COMMAND__` gives the rest, lowered, with one leading `/` removed; any other text is no command |
| Session.Perform | src/app.py:382-431 | defines what a command does to the loop's variables: `end`/`exit`/`quit` leave, `/notes` generates notes when there are none, `/save` saves at the clock's time, the rest change nothing |
| Session.QuarterHourPassed | src/app.py:462-464 | defines the interval trigger: at least fifteen minutes, counted in microseconds, since the last save |
| Session.Converse | src/app.py:435-482 | defines a pass with a message: blank text is skipped, the message joins the transcript, a failed reply stops there, a reply is counted and may trigger a save |
| Session.Step | src/app.py:365-482 | defines one pass of the loop: nothing once the loop has been left, a command if the text decodes to one, a message otherwise |
| Session.PerformKeeps | src/app.py:382-431 | a command never touches the transcript, only `end`, `exit` and `quit` leave the loop, and every command but `/save` leaves the counter, the timer, `date` and the saved notes as they were |
| Session.RunSession | src/app.py:365-482 | the loop's variables are the replay of the turns it took; it stops only when a command ended it or the turns ran out |
| Session.RepliesAsked | src/app.py:440 | a user line adds no therapist reply to the transcript |
| Session.RepliesAnswered | src/app.py:457 | a therapist line adds exactly one reply |
| Session.SaveConsistent | src/app.py:466-482 | saving notes when at most ten replies came since the save before keeps the loop invariant: the counter back under ten and `date` bound to the latest save |
| Session.SaveCommandResets | src/app.py:410-427 | `/save` saves the notes generated then, dated now, restarts the counter and the timer, keeps the transcript and stays in the loop |
| Session.PerformConsistent | src/app.py:373-431 | every command keeps the counter invariant and the binding of `date` |
| Session.AnsweredConsistent | src/app.py:452-482 | a counted reply keeps fewer than ten replies since the last save, saving at the tenth |
| Session.ConverseConsistent | src/app.py:435-482 | a message keeps the invariant: blank ones are skipped, failed replies are not counted |
| Session.StepConsistent | src/app.py:365-482 | every pass of the loop keeps the counter below ten, no more than ten replies between saves, and `date` bound exactly when a note was saved, to its date |
| Session.ReplayConsistent | src/app.py:357-482 | the invariant holds after any number of passes from the start |
| Session.StepAppends | src/app.py:440-482 | a pass only appends to the transcript, and adds at most one saved note |
| Session.EndedStays | src/app.py:382-384 | once the loop has been left, later turns change nothing |
| Session.CommandRoundTrip | src/app.py:374-379 | a command line read in `/send` mode decodes to its stripped text, lowered, without the leading slash |
| Session.CommandEnds | src/app.py:374-384 | `/end`, `/exit` and `/quit`, in any mix of case, leave the loop and change nothing else |
| Session.TypedMarkerEnds | src/app.py:374-384 | text typed as `__COMMAND__quit` and sent with `/send` also leaves the loop, although no command line was typed |
| Session.TypedMarkerRead | src/app.py:46-60 | `__COMMAND__quit` followed by `/send` reads as that one line |
| Session.TypedMarkerDecodes | src/app.py:374-379 | the text `__COMMAND__quit` decodes to the command `quit` |
| Session.ReplyCounts | src/app.py:452-466 | a reply below the threshold and the interval appends the message and the reply, counts one more and saves nothing |
| Session.TenthReplySaves | src/app.py:459-482 | the tenth reply since the last save saves the notes generated then, dated now, and restarts the counter and the timer |
| Session.IntervalSaves | src/app.py:462-482 | a reply fifteen minutes or more after the last save saves the notes, dated now, whatever the count, and restarts the counter and the timer |
| Session.FailureNotCounted | src/app.py:447-450 | a failed reply keeps the message in the transcript but is not counted |
| Session.UnboundExactly | src/app.py:484-502 | the end of the session as written fails exactly when the therapist never replied and no notes were saved |
| Session.EndAtOnceFails | src/app.py:484-502 | typing `/end` as the very first input makes the end of the session fail for the unbound `date` |
| Session.FinishAgrees | src/app.py:484-502 | wherever the written end succeeds, the corrected end writes the same thing |
| Session.FinishSpec | src/app.py:484-502 | the end keeps every saved note, adds final notes exactly when replies came after the last save, stores the whole transcript, and dates the session like the last note, or at the end when there is none |
| Pager.PagesCeiling | src/app.py:614-617 | the page count is the ceiling of a third: enough pages for all notes, no page more, and none for no notes |
| Pager.PageBounds | src/app.py:619-621 | every existing page shows one to three notes, all within the list |
| Pager.PageOf | src/app.py:619-628 | note i is shown on page i / 3 |
| Pager.PagesDisjoint | src/app.py:620-628 | no note is shown on two pages |
| Pager.Navigate | src/app.py:642-656 | defines one navigation choice: `p` back and `n` forward when there is a page there, `q` leaves, anything else redisplays the page |
| Pager.Visits | src/app.py:619-660 | defines the pages the listing visits from a page for the choices typed: one page only when there is a single page or no choice left, otherwise where Navigate leads |
| Pager.NavigateInRange | src/app.py:650-656 | navigation stays within the pages and moves by at most one; `p` moves back only above 0, `n` forward only below the last page, and only `q` leaves |
| Pager.VisitsInRange | src/app.py:619-656 | every page the listing visits exists |
| Pager.ShowPage | src/app.py:628-639 | the inner loop shows exactly the page's notes, in order |
| Pager.ViewAllNotes | src/app.py:605-660 | with no notes nothing is shown; otherwise the listing visits the pages its choices lead to and shows each visited page's notes in turn |
| Pager.DisplayedPages | src/app.py:614-628 | the first n pages show the first min(3n, total) notes, each once, in order |
| Pager.ForwardVisits | src/app.py:650-654 | paging forward visits every page from the current one to the last, in order |
| Pager.PagingForwardShowsAll | src/app.py:614-656 | paging forward to the last page shows every note exactly once, in order |
| Schedule.MonthIndexRoundTrip | src/app.py:680 | month indexes and months are one and the same |
| Schedule.MonthBefore | src/app.py:672-680 | defines the step back: the first of the month before, by `replace(day=1) - timedelta(days=1)` then `replace(day=1)`, or the calendar's error |
| Schedule.MonthBeforeSpec | src/app.py:672-680 | each step goes back exactly one month, January to December of the year before, keeping the time of day; only January of year 1 has no month before it |
| Schedule.Plan | src/app.py:668-682 | defines the months to condense: twelve months, counting back from the month before last |
| Schedule.CondenseEach | src/app.py:679-682 | defines the walk's effect on the file: the months condensed in order, stopping at the first that fails, and how the last call ended |
| Schedule.PlanSkipsRecent | src/app.py:670-681 | the planned months are the twelve consecutive months ending two months before the current one; neither the current nor the previous month is passed |
| Schedule.PlanJune2024 | src/app.py:670-681 | in June 2024 the months are April 2024 back to May 2023 |
| Schedule.CondenseOldEntries | src/app.py:662-684 | the walk passes the planned months in order to the store until a call fails; the contents are those of condensing each month passed; without a failure all twelve are condensed, and the calendar fails only before January of year 1; the file stays well-formed |

## Left out

- Fernet and PBKDF2-HMAC-SHA256 are not computed. Keys and tokens are symbolic terms: tokens carry no random IV or timestamp, and key material is not bytes.
- `json.dumps`/`json.loads`: payloads are sealed as typed values, so JSON encoding and its failures are not modelled.
- The SQLite engine, SQL text, file creation (`os.makedirs`, `CREATE TABLE IF NOT EXISTS`), transactions and crashes. A write is one atomic update of `Store`. The constructor takes the file's contents as a parameter.
- The order of rows with equal dates in `ORDER BY date DESC`: SQLite leaves it open, and the model fixes one (insertion order among equals).
- `datetime.now()` is an input wherever it is read. The two readings at src/app.py:416 and src/app.py:427 are taken as one value.
- `strftime`: `%B %Y` is a fixed English month table and the year in decimal. The display formats of the notes at src/app.py:403 and src/app.py:631 are not modelled.
- `str.lower()` is modelled on ASCII letters only. `str.isspace()` is modelled on the code points Python treats as whitespace.
- The therapist and note generation in `src/llm.py` (network calls, prompts, response cleaning): the replies and notes are inputs of each turn. llm.py is not part of this model.
- Terminal I/O (prompt_toolkit, colorama, `print`, `input`, `getpass`), the main menu, configuration files, the LLM and approach menus, and `setup.py`.
- Session.RunSession: the store writes the session loop makes (`add_therapist_note`, the reloading of notes) are returned as the list of saved notes, not applied to a `Database`. `/all_notes` and `/help` only print, so they change nothing.
- Session.RunSession: running out of turns ends the loop like leaving it; KeyboardInterrupt and prompt errors are not modelled.
- Input.ReadUntilSend and Input.ReadUntilBlank: running out of events reads as Ctrl+D.
- Pager.ViewAllNotes: running out of choices ends the listing. The single-page listing waits for Enter and then returns, so it takes no choice.
- Session.QuarterHourPassed: the float `total_seconds() / 60 >= 15` is compared exactly, as a count of microseconds.
- `datetime + timedelta(days=4)` is modelled as four single-day steps, each failing with OverflowError past 31 December 9999, as Python's one addition does.

## Findings

| source | as written | input that shows it | evidently intended | confidence | as-written member | corrected member |
|---|---|---|---|---|---|---|
| src/app.py:484-502 | the session row is stored with `date`, which is bound only when notes are saved during the session or at its end | typing `/end` as the first input of a session: no reply was counted, no notes were saved, and `add_therapy_session(…, date)` raises `UnboundLocalError`, so no session row is written | the session row is dated at the end of the session when no notes were saved | not executed | Session.FinishAsWritten (Session.EndAtOnceFails, Session.UnboundExactly) | Session.Finish (Session.FinishAgrees, Session.FinishSpec) |
