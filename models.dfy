/**
 * The encrypted record store of Dr. Claude (`Database` in src/models.py).
 *
 * The database file holds four tables: a single-row user profile, journal
 * entries, therapy sessions and therapist notes.  Every free-text column is
 * sealed under a key derived from the vault password; dates and the therapy
 * approach are kept in the clear, so that SQLite can filter and sort on them.
 *
 * The file's contents are the value `Store`; each operation of the class is
 * specified by a function from the old contents to the new ones, and the
 * properties the application relies on are lemmas about those functions.
 */
module Models {
  import opened Wrappers
  import opened Collation
  import opened Calendar
  import opened Crypto
  import opened Query

  // ----- records -----

  /** `TherapyApproach`: the schools a session can follow, stored by their display value. */
  datatype TherapyApproach = Freudian | Jungian | CognitiveBehavioral | Humanistic | Existential | Psychodynamic

  function ApproachValue(a: TherapyApproach): string {
    match a
    case Freudian => "Freudian"
    case Jungian => "Jungian"
    case CognitiveBehavioral => "Cognitive Behavioral Therapy"
    case Humanistic => "Humanistic"
    case Existential => "Existential"
    case Psychodynamic => "Psychodynamic"
  }

  /** `TherapyApproach(value)`: the member carrying that value; Python raises `ValueError` for any other text. */
  function ApproachFromValue(v: string): (r: Option<TherapyApproach>)
    ensures r.Some? ==> ApproachValue(r.value) == v
    ensures r.None? <==> forall a :: ApproachValue(a) != v
  {
    if v == "Freudian" then Some(Freudian)
    else if v == "Jungian" then Some(Jungian)
    else if v == "Cognitive Behavioral Therapy" then Some(CognitiveBehavioral)
    else if v == "Humanistic" then Some(Humanistic)
    else if v == "Existential" then Some(Existential)
    else if v == "Psychodynamic" then Some(Psychodynamic)
    else None
  }

  /** Every member is found again from its value. */
  lemma ApproachRoundTrip(a: TherapyApproach)
    ensures ApproachFromValue(ApproachValue(a)) == Some(a)
  {
  }

  /** The profile as the application fills it in: field name to answer. */
  type Profile = map<string, string>

  /** The `session_data` of a therapy session. */
  datatype SessionRecord = SessionRecord(transcript: seq<string>, notes: string)

  /** Stored rows: `is_condensed`, `approach` and no plain column, then the sealed payload. */
  type JournalRow = Row<bool, Token<string>>
  type SessionRow = Row<string, Token<SessionRecord>>
  type NoteRow = Row<(), Token<string>>

  /** Rows as the `get_*` methods return them, payload decrypted. */
  type JournalEntry = Row<bool, string>
  type SessionEntry = Row<string, SessionRecord>
  type NoteEntry = Row<(), string>

  /** The largest rowid SQLite hands out; AUTOINCREMENT past it fails with SQLITE_FULL. */
  const MAX_ROWID: nat := 0x7fff_ffff_ffff_ffff

  /**
   * Why an operation raises: the connection was closed, a payload does not
   * open under this key (`InvalidToken`), the table ran out of rowids, or a
   * month/year pair makes `datetime` raise.
   */
  datatype StoreError = Closed | DecryptionFailed | Full | DateFailed(cause: DateError)

  /** The contents of the database file, with each table's AUTOINCREMENT counter. */
  datatype Store = Store(profile: map<int, Token<Profile>>,
                         journal: seq<JournalRow>, journalSeq: nat,
                         sessions: seq<SessionRow>, sessionSeq: nat,
                         notes: seq<NoteRow>, noteSeq: nat)
  {
    /** What the store's own writes maintain: profile rows only under id 1, AUTOINCREMENT ids. */
    predicate Valid() {
      && profile.Keys <= {1}
      && IdsIncreasing(journal, journalSeq) && journalSeq <= MAX_ROWID
      && IdsIncreasing(sessions, sessionSeq) && sessionSeq <= MAX_ROWID
      && IdsIncreasing(notes, noteSeq) && noteSeq <= MAX_ROWID
    }
  }

  /** A new database file: `CREATE TABLE IF NOT EXISTS` leaves every table empty. */
  const EMPTY_STORE: Store := Store(map[], [], 0, [], 0, [], 0)

  // ----- decryption of query results -----

  function Open<A, P>(row: Row<A, Token<P>>): Row<A, P> {
    Row(row.id, row.date, row.attr, row.payload.plaintext)
  }

  /**
   * The loop of every `get_*` method: decrypt the payload of each row in
   * turn, keeping id, date and plain column; the first token that does not
   * open raises and no list is returned.
   */
  function Reveal<A(!new), P(!new)>(k: Key, rows: seq<Row<A, Token<P>>>): (r: Result<seq<Row<A, P>>, StoreError>)
    ensures r.Ok? <==> forall i :: 0 <= i < |rows| ==> rows[i].payload.key == k
    ensures r.Err? ==> r.error == DecryptionFailed
    ensures r.Ok? ==> |r.value| == |rows|
    ensures r.Ok? ==> forall i :: 0 <= i < |rows| ==>
      r.value[i] == Open(rows[i]) && Decrypt(k, rows[i].payload) == Ok(r.value[i].payload)
    decreases |rows|
  {
    if rows == [] then Ok([])
    else
      var init, last := rows[..|rows| - 1], rows[|rows| - 1];
      assert forall i :: 0 <= i < |init| ==> init[i] == rows[i];
      match Reveal(k, init)
      case Err(e) => Err(e)
      case Ok(front) =>
        match Decrypt(k, last.payload)
        case Err(_) => Err(DecryptionFailed)
        case Ok(p) => Ok(front + [Row(last.id, last.date, last.attr, p)])
  }

  /** Decrypting keeps the ids. */
  lemma RevealIds<A(!new), P(!new)>(k: Key, rows: seq<Row<A, Token<P>>>)
    requires Reveal(k, rows).Ok?
    ensures Ids(Reveal(k, rows).value) == Ids(rows)
  {
    var v := Reveal(k, rows).value;
    forall id ensures id in Ids(v) <==> id in Ids(rows) {
      IdsMembers(v, id);
      IdsMembers(rows, id);
      if id in Ids(v) {
        var j :| 0 <= j < |v| && v[j].id == id;
        assert rows[j].id == id;
      }
      if id in Ids(rows) {
        var j :| 0 <= j < |rows| && rows[j].id == id;
        assert v[j].id == id;
      }
    }
  }

  /** A row stored under this key, inside the bounds, is among the decrypted query results. */
  lemma {:induction false} SelectFinds<A(!new), P(!new)>(k: Key, rows: seq<Row<A, Token<P>>>, start: Option<string>, end: Option<string>, x: Row<A, Token<P>>)
    requires x in rows && InRange(x.date, start, end)
    requires Reveal(k, Select(rows, start, end)).Ok?
    ensures Open(x) in Reveal(k, Select(rows, start, end)).value
  {
    var sel := Select(rows, start, end);
    SelectSpec(rows, start, end);
    var j :| 0 <= j < |sel| && sel[j] == x;
    assert Reveal(k, sel).value[j] == Open(x);
  }

  /** Decrypting a table with one more row at the end decrypts that row after the others. */
  lemma RevealSnoc<A(!new), P(!new)>(k: Key, rows: seq<Row<A, Token<P>>>, x: Row<A, Token<P>>)
    requires Reveal(k, rows).Ok? && x.payload.key == k
    ensures Reveal(k, rows + [x]) == Ok(Reveal(k, rows).value + [Open(x)])
  {
    assert (rows + [x])[..|rows|] == rows;
  }

  /**
   * A table written under one password does not open under another: as soon
   * as a query finds a row, it raises.
   */
  lemma WrongPasswordQuery<A(!new), P(!new)>(p1: string, p2: string, rows: seq<Row<A, Token<P>>>)
    requires p1 != p2 && rows != []
    requires forall i :: 0 <= i < |rows| ==> rows[i].payload.key == DeriveKey(p1)
    ensures Reveal(DeriveKey(p2), rows) == Err(DecryptionFailed)
  {
    DeriveKeyDeterministic(p1, p2);
    assert rows[0].payload.key != DeriveKey(p2);
  }

  // ----- writes -----

  /**
   * `INSERT` into an AUTOINCREMENT table: the row gets the id after the
   * largest one ever handed out, and the counter moves on.
   */
  function Append<A(!new), P(!new)>(rows: seq<Row<A, P>>, last: nat, date: string, attr: A, payload: P): (r: Result<(seq<Row<A, P>>, nat), StoreError>)
    ensures r.Err? <==> last >= MAX_ROWID
    ensures r.Err? ==> r.error == Full
    ensures r.Ok? ==> r.value.1 == last + 1 && r.value.0 == rows + [Row(r.value.1, date, attr, payload)]
    ensures r.Ok? && IdsIncreasing(rows, last) ==>
      && IdsIncreasing(r.value.0, r.value.1)
      && forall x :: x in rows ==> x.id < r.value.1
  {
    if last >= MAX_ROWID then Err(Full)
    else Ok((rows + [Row(last + 1, date, attr, payload)], last + 1))
  }

  /** The date a row is stored under: the caller's text, or `now().isoformat()` when none is given. */
  function Stamp(date: Option<string>, now: DateTime): string
    requires Calendar.Valid(now)
  {
    if date.None? then IsoFormat(now) else date.value
  }

  /**
   * `save_user_profile`: insert the row with id 1 when the table is empty,
   * otherwise overwrite the row with id 1.
   */
  function SaveProfile(s: Store, k: Key, p: Profile): (r: Store)
    ensures s.Valid() ==> r.Valid() && r.profile == map[1 := Encrypt(k, p)]
    ensures r.(profile := s.profile) == s
  {
    var t := Encrypt(k, p);
    if |s.profile| == 0 then s.(profile := map[1 := t])
    else if 1 in s.profile then s.(profile := s.profile[1 := t])
    else s
  }

  /** `get_user_profile`: the decrypted row with id 1, or `{}` when there is none. */
  function ReadProfile(s: Store, k: Key): (r: Result<Profile, StoreError>)
    ensures 1 !in s.profile ==> r == Ok(map[])
    ensures 1 in s.profile ==> (r.Ok? <==> s.profile[1].key == k)
    ensures 1 in s.profile && r.Ok? ==> s.profile[1] == Encrypt(k, r.value)
    ensures r.Err? ==> r.error == DecryptionFailed
  {
    if 1 !in s.profile then Ok(map[])
    else
      match Decrypt(k, s.profile[1])
      case Err(_) => Err(DecryptionFailed)
      case Ok(p) => Ok(p)
  }

  /** What is saved is read back, under the key it was saved with; a fresh file reads as `{}`. */
  lemma ProfileRoundTrip(s: Store, k: Key, p: Profile)
    requires s.Valid()
    ensures ReadProfile(SaveProfile(s, k, p), k) == Ok(p)
    ensures ReadProfile(EMPTY_STORE, k) == Ok(map[])
  {
    DecryptEncrypt(k, p);
  }

  /** A profile saved under one password does not open under another. */
  lemma ProfileWrongPassword(s: Store, p1: string, p2: string, p: Profile)
    requires s.Valid() && p1 != p2
    ensures ReadProfile(SaveProfile(s, DeriveKey(p1), p), DeriveKey(p2)) == Err(DecryptionFailed)
  {
    DeriveKeyDeterministic(p1, p2);
  }

  /** `add_journal_entry`: one new row, not condensed, under a fresh id; nothing else changes. */
  function AddJournal(s: Store, k: Key, entry: string, date: string): (r: Result<Store, StoreError>)
    ensures r.Err? <==> s.journalSeq >= MAX_ROWID
    ensures r.Err? ==> r.error == Full
    ensures r.Ok? ==> r.value.(journal := s.journal, journalSeq := s.journalSeq) == s
    ensures r.Ok? ==> r.value.journal == s.journal + [Row(r.value.journalSeq, date, false, Encrypt(k, entry))]
    ensures r.Ok? && s.Valid() ==> r.value.Valid() && forall x :: x in s.journal ==> x.id < r.value.journalSeq
  {
    match Append(s.journal, s.journalSeq, date, false, Encrypt(k, entry))
    case Err(e) => Err(e)
    case Ok(t) => Ok(s.(journal := t.0, journalSeq := t.1))
  }

  /** `add_therapy_session`: one new row with the approach's value and the sealed record. */
  function AddSession(s: Store, k: Key, approach: TherapyApproach, record: SessionRecord, date: string): (r: Result<Store, StoreError>)
    ensures r.Err? <==> s.sessionSeq >= MAX_ROWID
    ensures r.Err? ==> r.error == Full
    ensures r.Ok? ==> r.value.(sessions := s.sessions, sessionSeq := s.sessionSeq) == s
    ensures r.Ok? ==> r.value.sessions == s.sessions + [Row(r.value.sessionSeq, date, ApproachValue(approach), Encrypt(k, record))]
    ensures r.Ok? && s.Valid() ==> r.value.Valid() && forall x :: x in s.sessions ==> x.id < r.value.sessionSeq
  {
    match Append(s.sessions, s.sessionSeq, date, ApproachValue(approach), Encrypt(k, record))
    case Err(e) => Err(e)
    case Ok(t) => Ok(s.(sessions := t.0, sessionSeq := t.1))
  }

  /** `add_therapist_note`: one new row with the sealed note. */
  function AddNote(s: Store, k: Key, note: string, date: string): (r: Result<Store, StoreError>)
    ensures r.Err? <==> s.noteSeq >= MAX_ROWID
    ensures r.Err? ==> r.error == Full
    ensures r.Ok? ==> r.value.(notes := s.notes, noteSeq := s.noteSeq) == s
    ensures r.Ok? ==> r.value.notes == s.notes + [Row(r.value.noteSeq, date, (), Encrypt(k, note))]
    ensures r.Ok? && s.Valid() ==> r.value.Valid() && forall x :: x in s.notes ==> x.id < r.value.noteSeq
  {
    match Append(s.notes, s.noteSeq, date, (), Encrypt(k, note))
    case Err(e) => Err(e)
    case Ok(t) => Ok(s.(notes := t.0, noteSeq := t.1))
  }

  /**
   * A saved session reads back: a query whose bounds contain its date
   * returns its approach and exactly the record that was saved.
   */
  lemma SessionReadsBack(s: Store, k: Key, approach: TherapyApproach, record: SessionRecord, date: string,
                         start: Option<string>, end: Option<string>)
    requires AddSession(s, k, approach, record, date).Ok?
    requires InRange(date, start, end)
    requires Reveal(k, Select(AddSession(s, k, approach, record, date).value.sessions, start, end)).Ok?
    ensures var s' := AddSession(s, k, approach, record, date).value;
      Row(s'.sessionSeq, date, ApproachValue(approach), record) in Reveal(k, Select(s'.sessions, start, end)).value
  {
    var s' := AddSession(s, k, approach, record, date).value;
    var x := Row(s'.sessionSeq, date, ApproachValue(approach), Encrypt(k, record));
    assert x == s'.sessions[|s'.sessions| - 1];
    SelectFinds(k, s'.sessions, start, end, x);
  }

  /**
   * A saved note reads back: a query whose bounds contain its date returns
   * it, decrypted, under the id it was given.
   */
  lemma NoteReadsBack(s: Store, k: Key, note: string, date: string, start: Option<string>, end: Option<string>)
    requires AddNote(s, k, note, date).Ok?
    requires InRange(date, start, end)
    requires Reveal(k, Select(AddNote(s, k, note, date).value.notes, start, end)).Ok?
    ensures var s' := AddNote(s, k, note, date).value;
      Row(s'.noteSeq, date, (), note) in Reveal(k, Select(s'.notes, start, end)).value
  {
    var s' := AddNote(s, k, note, date).value;
    var x := Row(s'.noteSeq, date, (), Encrypt(k, note));
    assert x == s'.notes[|s'.notes| - 1];
    SelectFinds(k, s'.notes, start, end, x);
  }

  // ----- condensing a month -----

  /**
   * The bounds `condense_journal_entries` queries with: `datetime(year, month, 1)`
   * and one microsecond before the first of the next month, found as
   * `(first.replace(day=28) + 4 days).replace(day=1) - 1 microsecond`.
   */
  function MonthRange(month: int, year: int): (r: Result<(string, string), DateError>)
    ensures r.Ok? ==> MINYEAR <= year <= MAXYEAR && 1 <= month <= 12
  {
    if !(MINYEAR <= year <= MAXYEAR && 1 <= month <= 12) then Err(ValueError)
    else
      var first := FirstInstant(year, month);
      match AddDays(first.(day := 28), 4)
      case Err(e) => Err(e)
      case Ok(later) =>
        match MinusMicrosecond(later.(day := 1, hour := 0, minute := 0, second := 0, microsecond := 0))
        case Err(e) => Err(e)
        case Ok(last) => Ok((IsoFormat(first), IsoFormat(last)))
  }

  /**
   * The range is midnight of the first day through 23:59:59.999999 of the
   * month's last Gregorian day; an invalid month or year raises `ValueError`
   * and December 9999, whose next month does not exist, `OverflowError`.
   */
  lemma MonthRangeSpec(month: int, year: int)
    ensures MonthRange(month, year) ==
      if !(MINYEAR <= year <= MAXYEAR && 1 <= month <= 12) then Err(ValueError)
      else if year == MAXYEAR && month == 12 then Err(OverflowError)
      else Ok((IsoFormat(FirstInstant(year, month)), IsoFormat(LastInstant(year, month))))
  {
    if MINYEAR <= year <= MAXYEAR && 1 <= month <= 12 {
      Day28PlusFour(year, month);
      if !(year == MAXYEAR && month == 12) {
        var later := AddDays(FirstInstant(year, month).(day := 28), 4).value;
        var next := later.(day := 1, hour := 0, minute := 0, second := 0, microsecond := 0);
        PrevDayFromFirst(next);
      }
    }
  }

  /**
   * For an `isoformat()` date, lying in the range is being in that month of
   * that year: the bounds cover the month exactly.
   */
  lemma MonthRangeSelectsMonth(month: int, year: int, t: DateTime)
    requires MonthRange(month, year).Ok? && Calendar.Valid(t)
    ensures var range := MonthRange(month, year).value;
      InRange(IsoFormat(t), Some(range.0), Some(range.1)) <==> t.year == year && t.month == month
  {
    MonthRangeSpec(month, year);
    IsoFormatInMonth(year, month, t);
  }

  /** `%B` in the C locale. */
  const MONTH_NAMES: seq<string> := ["January", "February", "March", "April", "May", "June",
    "July", "August", "September", "October", "November", "December"]

  /** `n` in decimal without leading zeros (`%Y` of a year). */
  function Decimal(n: nat): (s: string)
    ensures |s| >= 1 && forall i :: 0 <= i < |s| ==> '0' <= s[i] <= '9'
    decreases n
  {
    if n < 10 then [Digit(n)] else Decimal(n / 10) + [Digit(n % 10)]
  }

  /** The number a string of decimal digits denotes. */
  function DecimalValue(s: string): nat
    requires forall i :: 0 <= i < |s| ==> '0' <= s[i] <= '9'
    decreases |s|
  {
    if s == [] then 0 else 10 * DecimalValue(s[..|s| - 1]) + (s[|s| - 1] as int - '0' as int)
  }

  /** The year in the header denotes the year, with no leading zero. */
  lemma {:induction false} DecimalRoundTrip(n: nat)
    ensures DecimalValue(Decimal(n)) == n
    ensures n > 0 ==> Decimal(n)[0] != '0'
    decreases n
  {
    if n >= 10 {
      DecimalRoundTrip(n / 10);
      var s := Decimal(n);
      assert s[..|s| - 1] == Decimal(n / 10);
    }
  }

  /** `f"Condensed journal entries for {target.strftime('%B %Y')}:\n\n"` */
  function Header(month: int, year: int): string
    requires 1 <= month <= 12 && year >= 0
  {
    "Condensed journal entries for " + MONTH_NAMES[month - 1] + " " + Decimal(year) + ":\n\n"
  }

  /** `f"Date: {entry['date']}\n{entry['entry']}\n\n"` */
  function Block(e: JournalEntry): string {
    "Date: " + e.date + "\n" + e.payload + "\n\n"
  }

  /** The blocks of the entries, in the order given. */
  function Blocks(es: seq<JournalEntry>): string
    decreases |es|
  {
    if es == [] then "" else Blocks(es[..|es| - 1]) + Block(es[|es| - 1])
  }

  /** One entry makes one block. */
  lemma BlocksOne(e: JournalEntry)
    ensures Blocks([e]) == Block(e)
  {
    assert [e][..0] == [];
    assert Blocks([e]) == Blocks([]) + Block(e);
  }

  lemma {:induction false} BlocksConcat(a: seq<JournalEntry>, b: seq<JournalEntry>)
    ensures Blocks(a + b) == Blocks(a) + Blocks(b)
    decreases |b|
  {
    if b == [] {
      assert a + b == a;
    } else {
      var b', last := b[..|b| - 1], b[|b| - 1];
      assert (a + b)[..|a + b| - 1] == a + b' && (a + b)[|a + b| - 1] == last;
      assert Blocks(a + b) == Blocks(a + b') + Block(last);
      BlocksConcat(a, b');
      assert Blocks(b) == Blocks(b') + Block(last);
      Regroup(Blocks(a), Blocks(b'), Block(last));
    }
  }

  /**
   * The summary lists the entries in the order the query returned them,
   * newest first: entry `i`'s block sits between the blocks of the entries
   * before it and those after it.
   */
  lemma {:induction false} BlockAt(es: seq<JournalEntry>, i: nat)
    requires i < |es|
    ensures Blocks(es) == Blocks(es[..i]) + Block(es[i]) + Blocks(es[i + 1..])
  {
    var before, after := es[..i], es[i + 1..];
    var one: seq<JournalEntry> := [es[i]];
    assert es == before + (one + after);
    assert one[..0] == [];
    assert Blocks(one) == Block(es[i]);
    BlocksConcat(one, after);
    BlocksConcat(before, one + after);
  }

  function Summary(month: int, year: int, es: seq<JournalEntry>): string
    requires 1 <= month <= 12 && year >= 0
  {
    Header(month, year) + Blocks(es)
  }

  /** The row `condense_journal_entries` inserts: condensed, dated at the month start. */
  function SummaryRow(s: Store, k: Key, month: int, year: int, start: string, es: seq<JournalEntry>): JournalRow
    requires 1 <= month <= 12 && year >= 0
  {
    Row(s.journalSeq + 1, start, true, Encrypt(k, Summary(month, year, es)))
  }

  /**
   * `condense_journal_entries(month, year)` as one update of the file (it
   * commits once): fetch the month's entries newest first, and unless there
   * are none, insert the summary row, then delete every fetched id.
   */
  function Condense(s: Store, k: Key, month: int, year: int): Result<Store, StoreError> {
    match MonthRange(month, year)
    case Err(e) => Err(DateFailed(e))
    case Ok(range) => Fold(s, k, month, year, range.0, Select(s.journal, Some(range.0), Some(range.1)))
  }

  /** The rest of a condensation, once the query has returned the rows `sel`. */
  function Fold(s: Store, k: Key, month: int, year: int, start: string, sel: seq<JournalRow>): Result<Store, StoreError>
    requires 1 <= month <= 12 && year >= 0
  {
    match Reveal(k, sel)
    case Err(e) => Err(e)
    case Ok(entries) =>
      if entries == [] then Ok(s)
      else
        match Append(s.journal, s.journalSeq, start, true, Encrypt(k, Summary(month, year, entries)))
        case Err(e) => Err(e)
        case Ok(t) => Ok(s.(journal := DeleteIds(t.0, Ids(sel)), journalSeq := t.1))
  }

  /** The decrypted entries of a month, as the condensing query returns them. */
  function MonthEntries(s: Store, k: Key, month: int, year: int): Result<seq<JournalEntry>, StoreError>
    requires MonthRange(month, year).Ok?
  {
    var range := MonthRange(month, year).value;
    Reveal(k, Select(s.journal, Some(range.0), Some(range.1)))
  }

  /** A month without entries is left as it is. */
  lemma CondenseNothing(s: Store, k: Key, month: int, year: int)
    requires MonthRange(month, year).Ok?
    requires var range := MonthRange(month, year).value;
      forall x :: x in s.journal ==> !InRange(x.date, Some(range.0), Some(range.1))
    ensures Condense(s, k, month, year) == Ok(s)
  {
    var range := MonthRange(month, year).value;
    var sel := Select(s.journal, Some(range.0), Some(range.1));
    SelectSpec(s.journal, Some(range.0), Some(range.1));
  }

  /** Why condensing raises: a bad month, a token this key does not open, or no rowid left. */
  lemma CondenseErrors(s: Store, k: Key, month: int, year: int)
    ensures MonthRange(month, year).Err? ==> Condense(s, k, month, year) == Err(DateFailed(MonthRange(month, year).error))
    ensures MonthRange(month, year).Ok? && MonthEntries(s, k, month, year).Err? ==>
      Condense(s, k, month, year) == Err(DecryptionFailed)
    ensures (MonthRange(month, year).Ok? && MonthEntries(s, k, month, year).Ok? && MonthEntries(s, k, month, year).value != []
             && s.journalSeq >= MAX_ROWID) ==> Condense(s, k, month, year) == Err(Full)
  {
  }

  /**
   * Inserting a row with a fresh id and then deleting the ids a query found
   * leaves the rows outside the range, in place, followed by the new row.
   */
  lemma InsertThenDelete(rows: seq<JournalRow>, lastId: nat, start: Option<string>, end: Option<string>, row: JournalRow)
    requires IdsIncreasing(rows, lastId) && row.id > lastId
    ensures DeleteIds(rows + [row], Ids(Select(rows, start, end))) == Outside(rows, start, end) + [row]
  {
    var sel := Select(rows, start, end);
    SelectSpec(rows, start, end);
    forall x | x in sel ensures x.id != row.id {
      var i :| 0 <= i < |rows| && rows[i] == x;
    }
    IdsAvoid(sel, row.id);
    DeleteAppend(rows, row, Ids(sel));
    DeleteSelected(rows, lastId, start, end);
  }

  /** How a condensation ends once the month is known and the query has run. */
  lemma CondenseStops(s: Store, k: Key, month: int, year: int, start: string, end: string,
                      got: Result<seq<JournalEntry>, StoreError>)
    requires MonthRange(month, year) == Ok((start, end))
    requires got == Reveal(k, Select(s.journal, Some(start), Some(end)))
    ensures got.Err? ==> Condense(s, k, month, year) == Err(got.error)
    ensures got == Ok([]) ==> Condense(s, k, month, year) == Ok(s)
    ensures got.Ok? && got.value != [] && s.journalSeq >= MAX_ROWID ==> Condense(s, k, month, year) == Err(Full)
  {
    var sel := Select(s.journal, Some(start), Some(end));
    assert Condense(s, k, month, year) == Fold(s, k, month, year, start, sel);
  }

  /**
   * The state `condense_journal_entries` commits: the month's entries, the
   * summary text built from them and the table after inserting the summary
   * row and deleting the entries' ids.
   */
  lemma CondenseCommit(s: Store, k: Key, month: int, year: int, start: string, end: string,
                       entries: seq<JournalEntry>, text: string, table: seq<JournalRow>)
    requires MonthRange(month, year) == Ok((start, end))
    requires Reveal(k, Select(s.journal, Some(start), Some(end))) == Ok(entries) && entries != []
    requires 1 <= month <= 12 && year >= 0 && text == Summary(month, year, entries)
    requires s.journalSeq < MAX_ROWID
    requires table == DeleteIds(s.journal + [Row(s.journalSeq + 1, start, true, Encrypt(k, text))], Ids(entries))
    ensures Condense(s, k, month, year) == Ok(s.(journal := table, journalSeq := s.journalSeq + 1))
  {
    var sel := Select(s.journal, Some(start), Some(end));
    assert Condense(s, k, month, year) == Fold(s, k, month, year, start, sel);
    FoldUnfold(s, k, month, year, start, sel);
    RevealIds(k, sel);
  }

  /**
   * Condensing a month with entries replaces exactly those rows by one
   * condensed row dated at the month start, holding the summary of the
   * entries newest first; every row outside the month stays, in place.
   */
  lemma CondenseFolds(s: Store, k: Key, month: int, year: int)
    requires s.Valid() && MonthRange(month, year).Ok?
    requires MonthEntries(s, k, month, year).Ok? && MonthEntries(s, k, month, year).value != []
    requires s.journalSeq < MAX_ROWID
    ensures var range := MonthRange(month, year).value;
      var row := SummaryRow(s, k, month, year, range.0, MonthEntries(s, k, month, year).value);
      && Condense(s, k, month, year).Ok?
      && Condense(s, k, month, year).value.journal == Outside(s.journal, Some(range.0), Some(range.1)) + [row]
      && Condense(s, k, month, year).value.(journal := s.journal, journalSeq := s.journalSeq) == s
      && Condense(s, k, month, year).value.Valid()
  {
    var range := MonthRange(month, year).value;
    var start, end := Some(range.0), Some(range.1);
    var entries := MonthEntries(s, k, month, year).value;
    var row := SummaryRow(s, k, month, year, range.0, entries);
    CondenseUnfold(s, k, month, year);
    InsertThenDelete(s.journal, s.journalSeq, start, end, row);
    var out := Outside(s.journal, start, end);
    OutsideIncreasing(s.journal, s.journalSeq, start, end);
    SnocIncreasing(out, s.journalSeq, row);
    var s' := s.(journal := out + [row], journalSeq := s.journalSeq + 1);
    assert Condense(s, k, month, year) == Ok(s');
    assert s'.Valid();
  }

  /** Condensing keeps a well-formed file well-formed, whichever way it ends. */
  lemma CondenseKeepsValid(s: Store, k: Key, month: int, year: int)
    requires s.Valid()
    ensures Condense(s, k, month, year).Ok? ==> Condense(s, k, month, year).value.Valid()
  {
    if MonthRange(month, year).Ok? {
      var range := MonthRange(month, year).value;
      var got := MonthEntries(s, k, month, year);
      CondenseStops(s, k, month, year, range.0, range.1, got);
      if got.Ok? && got.value != [] && s.journalSeq < MAX_ROWID {
        CondenseFolds(s, k, month, year);
      }
    }
  }

  /** The update a condensation with entries makes, before the deletions are simplified. */
  lemma CondenseUnfold(s: Store, k: Key, month: int, year: int)
    requires MonthRange(month, year).Ok?
    requires MonthEntries(s, k, month, year).Ok? && MonthEntries(s, k, month, year).value != []
    requires s.journalSeq < MAX_ROWID
    ensures var range := MonthRange(month, year).value;
      var row := SummaryRow(s, k, month, year, range.0, MonthEntries(s, k, month, year).value);
      var sel := Select(s.journal, Some(range.0), Some(range.1));
      Condense(s, k, month, year) == Ok(s.(journal := DeleteIds(s.journal + [row], Ids(sel)), journalSeq := s.journalSeq + 1))
  {
    var range := MonthRange(month, year).value;
    var sel := Select(s.journal, Some(range.0), Some(range.1));
    assert Condense(s, k, month, year) == Fold(s, k, month, year, range.0, sel);
    FoldUnfold(s, k, month, year, range.0, sel);
  }

  lemma FoldUnfold(s: Store, k: Key, month: int, year: int, start: string, sel: seq<JournalRow>)
    requires 1 <= month <= 12 && year >= 0
    requires Reveal(k, sel).Ok? && Reveal(k, sel).value != [] && s.journalSeq < MAX_ROWID
    ensures var row := SummaryRow(s, k, month, year, start, Reveal(k, sel).value);
      Fold(s, k, month, year, start, sel) == Ok(s.(journal := DeleteIds(s.journal + [row], Ids(sel)), journalSeq := s.journalSeq + 1))
  {
    var entries := Reveal(k, sel).value;
    var row := SummaryRow(s, k, month, year, start, entries);
    var pay := Encrypt(k, Summary(month, year, entries));
    assert row == Row(s.journalSeq + 1, start, true, pay);
    var app := Append(s.journal, s.journalSeq, start, true, pay);
    assert app.Ok? && app.value.1 == s.journalSeq + 1 && app.value.0 == s.journal + [row];
  }

  /** The month's first instant lies in the month's range. */
  lemma MonthStartInRange(month: int, year: int)
    requires MonthRange(month, year).Ok?
    ensures var range := MonthRange(month, year).value;
      InRange(range.0, Some(range.0), Some(range.1))
  {
    MonthRangeSpec(month, year);
    IsoFormatOrder(FirstInstant(year, month), LastInstant(year, month));
    LexLeRefl(MonthRange(month, year).value.0);
  }

  /**
   * After condensing, the month holds exactly the condensed row: querying
   * the month returns it alone, and the rows outside are those of before.
   */
  lemma CondensedMonth(s: Store, k: Key, month: int, year: int)
    requires s.Valid() && MonthRange(month, year).Ok?
    requires MonthEntries(s, k, month, year).Ok? && MonthEntries(s, k, month, year).value != []
    requires s.journalSeq < MAX_ROWID
    ensures var range := MonthRange(month, year).value;
      var row := SummaryRow(s, k, month, year, range.0, MonthEntries(s, k, month, year).value);
      && Condense(s, k, month, year).Ok?
      && Select(Condense(s, k, month, year).value.journal, Some(range.0), Some(range.1)) == [row]
      && Outside(Condense(s, k, month, year).value.journal, Some(range.0), Some(range.1))
         == Outside(s.journal, Some(range.0), Some(range.1))
  {
    var range := MonthRange(month, year).value;
    var start, end := Some(range.0), Some(range.1);
    var row := SummaryRow(s, k, month, year, range.0, MonthEntries(s, k, month, year).value);
    CondenseFolds(s, k, month, year);
    MonthStartInRange(month, year);
    var out := Outside(s.journal, start, end);
    OutsideMembers(s.journal, start, end);
    LastAloneInRange(out, row, start, end);
    SelectOne(out + [row], row, start, end);
  }

  /**
   * Condensed rows are not skipped, so condensing the same month again
   * wraps the summary in a new summary: the month still holds one row, but
   * a new one, whose text is the old summary as its only entry.
   */
  lemma CondenseAgain(s: Store, k: Key, month: int, year: int)
    requires s.Valid() && MonthRange(month, year).Ok?
    requires MonthEntries(s, k, month, year).Ok? && MonthEntries(s, k, month, year).value != []
    requires s.journalSeq + 1 < MAX_ROWID
    ensures var range := MonthRange(month, year).value;
      var row := SummaryRow(s, k, month, year, range.0, MonthEntries(s, k, month, year).value);
      var s1 := Condense(s, k, month, year).value;
      var again := SummaryRow(s1, k, month, year, range.0, [Open(row)]);
      && Condense(s1, k, month, year).Ok?
      && Condense(s1, k, month, year).value.journal == Outside(s.journal, Some(range.0), Some(range.1)) + [again]
      && Condense(s1, k, month, year).value != s1
      && Summary(month, year, [Open(row)]) == Header(month, year) + Block(Open(row))
  {
    var range := MonthRange(month, year).value;
    var row := SummaryRow(s, k, month, year, range.0, MonthEntries(s, k, month, year).value);
    CondensedMonth(s, k, month, year);
    CondenseFolds(s, k, month, year);
    var s1 := Condense(s, k, month, year).value;
    RevealOne(k, row);
    assert MonthEntries(s1, k, month, year) == Ok([Open(row)]);
    CondenseFolds(s1, k, month, year);
    BlocksOne(Open(row));
  }

  lemma RevealOne<A(!new), P(!new)>(k: Key, x: Row<A, Token<P>>)
    requires x.payload.key == k
    ensures Reveal(k, [x]) == Ok([Open(x)])
  {
    assert [x][..0] == [];
    assert Reveal(k, [x][..0]) == Ok([]);
    assert Decrypt(k, x.payload) == Ok(x.payload.plaintext);
    assert [] + [Open(x)] == [Open(x)];
  }

  // ----- the Database class -----

  /** The decrypting loop shared by the `get_*` methods. */
  method DecryptRows<A(!new), P(!new)>(k: Key, rows: seq<Row<A, Token<P>>>) returns (r: Result<seq<Row<A, P>>, StoreError>)
    ensures r == Reveal(k, rows)
  {
    var out: seq<Row<A, P>> := [];
    var i := 0;
    while i < |rows|
      invariant 0 <= i <= |rows|
      invariant Reveal(k, rows[..i]) == Ok(out)
    {
      var row := rows[i];
      var plain := Decrypt(k, row.payload);
      if plain.Err? {
        return Err(DecryptionFailed);
      }
      assert rows[..i + 1][..i] == rows[..i];
      out := out + [Row(row.id, row.date, row.attr, plain.value)];
      i := i + 1;
    }
    assert rows[..i] == rows;
    return Ok(out);
  }

  /** The summary text, built entry by entry as `condense_journal_entries` appends to it. */
  method SummaryText(month: int, year: int, entries: seq<JournalEntry>) returns (text: string)
    requires 1 <= month <= 12 && year >= 0
    ensures text == Summary(month, year, entries)
  {
    text := Header(month, year);
    var i := 0;
    while i < |entries|
      invariant 0 <= i <= |entries|
      invariant text == Header(month, year) + Blocks(entries[..i])
    {
      assert entries[..i + 1][..i] == entries[..i];
      text := text + Block(entries[i]);
      i := i + 1;
    }
    assert entries[..i] == entries;
  }

  /** `DELETE FROM journal_entries WHERE id = ?` for each entry in turn. */
  method DeleteEach<A(!new), P(!new), B(!new), Q(!new)>(table: seq<Row<A, P>>, entries: seq<Row<B, Q>>) returns (rest: seq<Row<A, P>>)
    ensures rest == DeleteIds(table, Ids(entries))
  {
    rest := table;
    DeleteNothing(table);
    var j := 0;
    while j < |entries|
      invariant 0 <= j <= |entries|
      invariant rest == DeleteIds(table, Ids(entries[..j]))
    {
      DeleteOneMore(table, Ids(entries[..j]), entries[j].id);
      IdsSnoc(entries[..j], entries[j]);
      assert entries[..j + 1] == entries[..j] + [entries[j]];
      rest := DeleteIds(rest, {entries[j].id});
      j := j + 1;
    }
    assert entries[..j] == entries;
  }

  /**
   * The journal table a condensation with entries commits: the summary row
   * inserted, then the entries deleted one id at a time.
   */
  method CondensedTable(s: Store, k: Key, month: int, year: int, start: string, end: string,
                        entries: seq<JournalEntry>) returns (table: seq<JournalRow>)
    requires MonthRange(month, year) == Ok((start, end))
    requires Reveal(k, Select(s.journal, Some(start), Some(end))) == Ok(entries) && entries != []
    requires s.journalSeq < MAX_ROWID
    ensures Condense(s, k, month, year) == Ok(s.(journal := table, journalSeq := s.journalSeq + 1))
  {
    assert 1 <= month <= 12 && year >= 0;
    var text := SummaryText(month, year, entries);
    table := DeleteEach(s.journal + [Row(s.journalSeq + 1, start, true, Encrypt(k, text))], entries);
    CondenseCommit(s, k, month, year, start, end, entries, text, table);
  }

  /**
   * A condensation run on the contents `s`: query the month, build the
   * summary text entry by entry, insert the condensed row, then delete the
   * fetched ids one by one.  Only the journal table and its counter change.
   */
  method CondenseRun(s: Store, k: Key, month: int, year: int) returns (r: Result<Store, StoreError>)
    ensures r == Condense(s, k, month, year)
    ensures r.Ok? ==> r.value.(journal := s.journal, journalSeq := s.journalSeq) == s
  {
    var range := MonthRange(month, year);
    if range.Err? {
      return Err(DateFailed(range.error));
    }
    var start, end := range.value.0, range.value.1;
    var got := DecryptRows(k, Select(s.journal, Some(start), Some(end)));
    CondenseStops(s, k, month, year, start, end, got);
    if got.Err? {
      return Err(got.error);
    }
    var entries := got.value;
    if entries == [] {
      return Ok(s);
    }
    if s.journalSeq >= MAX_ROWID {
      return Err(Full);
    }
    var table := CondensedTable(s, k, month, year, start, end, entries);
    r := Ok(s.(journal := table, journalSeq := s.journalSeq + 1));
  }

  /** What a write reports: success, or the error it raised. */
  function Status(r: Result<Store, StoreError>): Outcome<StoreError> {
    if r.Ok? then Pass else Fail(r.error)
  }

  /** The file after a write: the new contents on success; on an error nothing is committed. */
  function After(s: Store, r: Result<Store, StoreError>): Store {
    if r.Ok? then r.value else s
  }

  /**
   * `Database(db_path, password)`: a connection to a database file and the
   * key derived from the password.  The tables are fields; every write is
   * specified by the function on `Store` it performs, and once the
   * connection is closed every call raises.
   */
  class Database {
    const dbPath: string
    const key: Key
    var profileTable: map<int, Token<Profile>>
    var journal: seq<JournalRow>
    var journalSeq: nat
    var sessions: seq<SessionRow>
    var sessionSeq: nat
    var notes: seq<NoteRow>
    var noteSeq: nat
    var isOpen: bool

    /** The contents of the database file. */
    function Contents(): Store
      reads this
    {
      Store(profileTable, journal, journalSeq, sessions, sessionSeq, notes, noteSeq)
    }

    ghost predicate Valid()
      reads this
    {
      Contents().Valid()
    }

    /** Opens `file` with the key derived from `password`; the tables already exist or are created empty. */
    constructor (dbPath: string, password: string, file: Store)
      requires file.Valid()
      ensures this.dbPath == dbPath && key == DeriveKey(password)
      ensures Contents() == file && isOpen && Valid()
    {
      this.dbPath := dbPath;
      key := DeriveKey(password);
      profileTable := file.profile;
      journal, journalSeq := file.journal, file.journalSeq;
      sessions, sessionSeq := file.sessions, file.sessionSeq;
      notes, noteSeq := file.notes, file.noteSeq;
      isOpen := true;
    }

    /** `commit()`: the file now holds `s`. */
    method Commit(s: Store)
      modifies this
      ensures Contents() == s && isOpen == old(isOpen)
    {
      profileTable := s.profile;
      journal, journalSeq := s.journal, s.journalSeq;
      sessions, sessionSeq := s.sessions, s.sessionSeq;
      notes, noteSeq := s.notes, s.noteSeq;
    }

    method SaveUserProfile(p: Profile) returns (r: Outcome<StoreError>)
      requires Valid()
      modifies this
      ensures isOpen == old(isOpen) && Valid()
      ensures r == if old(isOpen) then Pass else Fail(Closed)
      ensures Contents() == if old(isOpen) then SaveProfile(old(Contents()), key, p) else old(Contents())
    {
      if !isOpen {
        return Fail(Closed);
      }
      Commit(SaveProfile(Contents(), key, p));
      r := Pass;
    }

    method GetUserProfile() returns (r: Result<Profile, StoreError>)
      ensures r == if isOpen then ReadProfile(Contents(), key) else Err(Closed)
    {
      if !isOpen {
        return Err(Closed);
      }
      if 1 !in profileTable {
        return Ok(map[]);
      }
      var plain := Decrypt(key, profileTable[1]);
      if plain.Err? {
        return Err(DecryptionFailed);
      }
      r := Ok(plain.value);
    }

    method AddJournalEntry(entry: string, date: Option<string>, now: DateTime) returns (r: Outcome<StoreError>)
      requires Calendar.Valid(now)
      requires Valid()
      modifies this
      ensures isOpen == old(isOpen) && Valid()
      ensures !old(isOpen) ==> r == Fail(Closed) && Contents() == old(Contents())
      ensures old(isOpen) ==> var want := AddJournal(old(Contents()), key, entry, Stamp(date, now));
        r == Status(want) && Contents() == After(old(Contents()), want)
    {
      if !isOpen {
        return Fail(Closed);
      }
      var want := AddJournal(Contents(), key, entry, Stamp(date, now));
      if want.Ok? {
        Commit(want.value);
      }
      r := Status(want);
    }

    method GetJournalEntries(start: Option<string>, end: Option<string>) returns (r: Result<seq<JournalEntry>, StoreError>)
      ensures r == if isOpen then Reveal(key, Select(journal, start, end)) else Err(Closed)
    {
      if !isOpen {
        return Err(Closed);
      }
      r := DecryptRows(key, Select(journal, start, end));
    }

    method AddTherapySession(approach: TherapyApproach, record: SessionRecord, date: Option<string>, now: DateTime)
      returns (r: Outcome<StoreError>)
      requires Calendar.Valid(now)
      requires Valid()
      modifies this
      ensures isOpen == old(isOpen) && Valid()
      ensures !old(isOpen) ==> r == Fail(Closed) && Contents() == old(Contents())
      ensures old(isOpen) ==> var want := AddSession(old(Contents()), key, approach, record, Stamp(date, now));
        r == Status(want) && Contents() == After(old(Contents()), want)
    {
      if !isOpen {
        return Fail(Closed);
      }
      var want := AddSession(Contents(), key, approach, record, Stamp(date, now));
      if want.Ok? {
        Commit(want.value);
      }
      r := Status(want);
    }

    method GetTherapySessions(start: Option<string>, end: Option<string>) returns (r: Result<seq<SessionEntry>, StoreError>)
      ensures r == if isOpen then Reveal(key, Select(sessions, start, end)) else Err(Closed)
    {
      if !isOpen {
        return Err(Closed);
      }
      r := DecryptRows(key, Select(sessions, start, end));
    }

    method AddTherapistNote(note: string, date: Option<string>, now: DateTime) returns (r: Outcome<StoreError>)
      requires Calendar.Valid(now)
      requires Valid()
      modifies this
      ensures isOpen == old(isOpen) && Valid()
      ensures !old(isOpen) ==> r == Fail(Closed) && Contents() == old(Contents())
      ensures old(isOpen) ==> var want := AddNote(old(Contents()), key, note, Stamp(date, now));
        r == Status(want) && Contents() == After(old(Contents()), want)
    {
      if !isOpen {
        return Fail(Closed);
      }
      var want := AddNote(Contents(), key, note, Stamp(date, now));
      if want.Ok? {
        Commit(want.value);
      }
      r := Status(want);
    }

    method GetTherapistNotes(start: Option<string>, end: Option<string>) returns (r: Result<seq<NoteEntry>, StoreError>)
      ensures r == if isOpen then Reveal(key, Select(notes, start, end)) else Err(Closed)
    {
      if !isOpen {
        return Err(Closed);
      }
      r := DecryptRows(key, Select(notes, start, end));
    }

    /**
     * `condense_journal_entries`: query the month, build the summary text
     * entry by entry, insert the condensed row, then delete the fetched ids
     * one by one, committing once at the end.
     */
    method CondenseJournalEntries(month: int, year: int) returns (r: Outcome<StoreError>)
      requires Valid()
      modifies this
      ensures isOpen == old(isOpen) && Valid()
      ensures !old(isOpen) ==> r == Fail(Closed) && Contents() == old(Contents())
      ensures old(isOpen) ==> var want := Condense(old(Contents()), key, month, year);
        r == Status(want) && Contents() == After(old(Contents()), want)
    {
      if !isOpen {
        return Fail(Closed);
      }
      CondenseKeepsValid(Contents(), key, month, year);
      var res := CondenseRun(Contents(), key, month, year);
      if res.Ok? {
        Commit(res.value);
      }
      r := Status(res);
    }

    /** `close`: afterwards every operation raises; closing twice is harmless. */
    method Close()
      requires Valid()
      modifies this
      ensures !isOpen && Contents() == old(Contents()) && Valid()
    {
      isOpen := false;
    }
  }
}
