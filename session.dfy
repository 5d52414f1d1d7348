/**
 * The deterministic part of `start_therapy_session`: how a text read from
 * the terminal is told apart from a command, the message counter and the
 * automatic saving of notes, the transcript, and what the session writes
 * when it ends.  The therapist's replies, the generated notes and the clock
 * are inputs, one `Turn` per pass of the loop.
 */
module Session {
  import opened Wrappers
  import opened Text
  import opened Input
  import opened Calendar
  import opened Models

  /** Notes are saved after this many replies (`auto_save_threshold`). */
  const AUTO_SAVE_THRESHOLD: nat := 10

  /** Notes are also saved once this many microseconds (15 minutes) have passed since they were last saved. */
  const AUTO_SAVE_INTERVAL: int := 15 * 60 * 1000000

  /** What `generate_response` returned: a reply, or a dictionary with an `error` key. */
  datatype Reply = Answer(text: string) | Failure(error: string)

  /**
   * The inputs one pass of the loop may use: the text `get_multiline_input`
   * returned, the reply the therapist gives to it, the notes
   * `_generate_interim_notes` produces if it is called, and the clock.
   */
  datatype Turn = Turn(input: string, reply: Reply, notes: string, now: DateTime)

  /** One call of `add_therapist_note`. */
  datatype Note = Note(text: string, date: string)

  /**
   * The loop's variables: `message_count`, `session_transcript`,
   * `current_notes`, `date` (unbound until notes are first saved), the notes
   * saved so far, `last_save_time`, and whether the loop has been left.
   */
  datatype Chat = Chat(count: nat, transcript: seq<string>, notes: string, date: Option<string>,
                       saved: seq<Note>, lastSave: DateTime, ended: bool)

  /** The variables when the loop is entered at `start`. */
  function Begin(start: DateTime): Chat {
    Chat(0, [], "", None, [], start, false)
  }

  /** The session commands. */
  datatype Command = End | Help | ShowNotes | AllNotes | SaveNotes | Unknown(name: string)

  /** `user_input[11:].lower()` with one leading `/` removed, for a text that starts with the marker. */
  function DecodeCommand(input: string): Option<string> {
    if StartsWith(input, COMMAND_MARKER) then
      var command := Lower(input[|COMMAND_MARKER|..]);
      Some(if StartsWith(command, "/") then command[1..] else command)
    else None
  }

  function Dispatch(name: string): Command {
    if name in ["end", "exit", "quit"] then End
    else if name == "help" then Help
    else if name == "notes" then ShowNotes
    else if name == "all_notes" then AllNotes
    else if name == "save" then SaveNotes
    else Unknown(name)
  }

  /** `(now - last).total_seconds() / 60 >= 15`. */
  predicate QuarterHourPassed(last: DateTime, now: DateTime)
    requires Valid(last) && Valid(now)
  {
    Micros(now) - Micros(last) >= AUTO_SAVE_INTERVAL
  }

  /** Notes saved at `now`: the counter and the timer restart; `date` is the time of saving. */
  function SaveAt(c: Chat, notes: string, now: DateTime): (d: Chat)
    requires Valid(now)
    ensures Valid(d.lastSave)
  {
    var d := IsoFormat(now);
    c.(count := 0, notes := notes, date := Some(d), saved := c.saved + [Note(notes, d)], lastSave := now)
  }

  /** A command: only `/end` and its synonyms, `/notes` and `/save` change anything. */
  function Perform(c: Chat, name: string, t: Turn): (d: Chat)
    requires Valid(t.now)
    ensures Valid(c.lastSave) ==> Valid(d.lastSave)
  {
    match Dispatch(name)
    case End => c.(ended := true)
    case ShowNotes => if c.notes == "" then c.(notes := t.notes) else c
    case SaveNotes => SaveAt(c, t.notes, t.now)
    case _ => c
  }

  /** A reply: counted, and the notes saved at the threshold or after the interval. */
  function Answered(c: Chat, t: Turn, answer: string): (d: Chat)
    requires Valid(c.lastSave) && Valid(t.now)
    ensures Valid(d.lastSave)
  {
    var answered := c.(transcript := c.transcript + ["Therapist: " + answer], count := c.count + 1);
    if answered.count >= AUTO_SAVE_THRESHOLD || QuarterHourPassed(c.lastSave, t.now) then
      SaveAt(answered, t.notes, t.now)
    else answered
  }

  /** A message: blank text is skipped; otherwise it joins the transcript, and so does a reply. */
  function Converse(c: Chat, t: Turn): (d: Chat)
    requires Valid(c.lastSave) && Valid(t.now)
    ensures Valid(d.lastSave)
  {
    if Strip(t.input) == "" then c
    else
      var asked := c.(transcript := c.transcript + ["User: " + t.input]);
      match t.reply
      case Failure(_) => asked
      case Answer(a) => Answered(asked, t, a)
  }

  /** One pass of the loop; once the loop has been left nothing changes. */
  function Step(c: Chat, t: Turn): (d: Chat)
    requires Valid(c.lastSave) && Valid(t.now)
    ensures Valid(d.lastSave)
  {
    if c.ended then c
    else match DecodeCommand(t.input)
      case Some(name) => Perform(c, name, t)
      case None => Converse(c, t)
  }

  predicate ValidTurns(turns: seq<Turn>) {
    forall i :: 0 <= i < |turns| ==> Valid(turns[i].now)
  }

  /** The loop's variables after some passes, from a start at `start`. */
  function Replay(start: DateTime, turns: seq<Turn>): (c: Chat)
    requires Valid(start) && ValidTurns(turns)
    ensures Valid(c.lastSave)
  {
    if turns == [] then Begin(start)
    else Step(Replay(start, turns[..|turns| - 1]), turns[|turns| - 1])
  }

  /** Replaying one more turn is one more pass. */
  lemma ReplayNext(start: DateTime, turns: seq<Turn>, n: nat)
    requires Valid(start) && ValidTurns(turns) && n < |turns|
    ensures ValidTurns(turns[..n]) && ValidTurns(turns[..n + 1])
    ensures Replay(start, turns[..n + 1]) == Step(Replay(start, turns[..n]), turns[n])
  {
    var p := turns[..n + 1];
    assert p[..|p| - 1] == turns[..n] && p[|p| - 1] == turns[n];
  }

  /**
   * A command leaves the transcript as it is, and only `/end` and its
   * synonyms leave the loop; every command but `/save` leaves the counter,
   * the timer, `date` and the saved notes alone.
   */
  lemma PerformKeeps(c: Chat, name: string, t: Turn)
    requires Valid(t.now)
    ensures Perform(c, name, t).transcript == c.transcript
    ensures Perform(c, name, t).ended <==> c.ended || Dispatch(name) == End
    ensures Dispatch(name) != SaveNotes ==> Perform(c, name, t).(notes := c.notes, ended := c.ended) == c
  {
  }

  /**
   * The session loop over the given turns: runs until a command ends it or
   * the turns run out, and says how many turns it took.
   */
  method RunSession(start: DateTime, turns: seq<Turn>) returns (c: Chat, used: nat)
    requires Valid(start) && ValidTurns(turns)
    ensures used <= |turns| && c == Replay(start, turns[..used])
    ensures c.ended || used == |turns|
  {
    var count: nat := 0;
    var transcript: seq<string> := [];
    var notes := "";
    var date: Option<string> := None;
    var saved: seq<Note> := [];
    var lastSave := start;
    var i := 0;
    while i < |turns|
      invariant i <= |turns|
      invariant Chat(count, transcript, notes, date, saved, lastSave, false) == Replay(start, turns[..i])
    {
      var t := turns[i];
      ReplayNext(start, turns, i);
      ghost var before := Chat(count, transcript, notes, date, saved, lastSave, false);
      var input := t.input;
      if StartsWith(input, COMMAND_MARKER) {
        var command := Lower(input[11..]);
        if StartsWith(command, "/") {
          command := command[1..];
        }
        assert DecodeCommand(input) == Some(command);
        var d := Perform(Chat(count, transcript, notes, date, saved, lastSave, false), command, t);
        if Dispatch(command) == End {
          return d, i + 1;
        }
        PerformKeeps(before, command, t);
        count, notes, date, saved, lastSave := d.count, d.notes, d.date, d.saved, d.lastSave;
        i := i + 1;
        continue;
      }
      assert Step(before, t) == Converse(before, t);
      if Strip(input) == "" {
        assert Chat(count, transcript, notes, date, saved, lastSave, false) == Step(before, t);
        i := i + 1;
        continue;
      }
      transcript := transcript + ["User: " + input];
      if t.reply.Failure? {
        assert Chat(count, transcript, notes, date, saved, lastSave, false) == Step(before, t);
        i := i + 1;
        continue;
      }
      ghost var asked := Chat(count, transcript, notes, date, saved, lastSave, false);
      assert Step(before, t) == Answered(asked, t, t.reply.text);
      transcript := transcript + ["Therapist: " + t.reply.text];
      count := count + 1;
      var now := t.now;
      if count >= AUTO_SAVE_THRESHOLD || QuarterHourPassed(lastSave, now) {
        notes := t.notes;
        date := Some(IsoFormat(now));
        saved := saved + [Note(notes, date.value)];
        count := 0;
        lastSave := now;
      }
      assert Chat(count, transcript, notes, date, saved, lastSave, false) == Step(before, t);
      i := i + 1;
    }
    c, used := Chat(count, transcript, notes, date, saved, lastSave, false), i;
  }

  /** The number of therapist replies in a transcript. */
  function Replies(transcript: seq<string>): nat {
    if transcript == [] then 0
    else
      var last := transcript[|transcript| - 1];
      Replies(transcript[..|transcript| - 1]) + (if StartsWith(last, "Therapist: ") then 1 else 0)
  }

  /**
   * What the loop keeps true: fewer than ten replies since notes were last
   * saved, never more than ten replies between two saves, and `date` bound
   * exactly when some notes were saved, to the time of the latest.
   */
  predicate Consistent(c: Chat) {
    && c.count < AUTO_SAVE_THRESHOLD
    && c.count <= Replies(c.transcript) <= c.count + AUTO_SAVE_THRESHOLD * |c.saved|
    && (c.date.None? <==> c.saved == [])
    && (c.saved != [] ==> c.date == Some(c.saved[|c.saved| - 1].date))
  }

  lemma RepliesAsked(transcript: seq<string>, input: string)
    ensures Replies(transcript + ["User: " + input]) == Replies(transcript)
  {
    var t := transcript + ["User: " + input];
    assert t[..|t| - 1] == transcript;
    assert t[|t| - 1][0] == 'U';
  }

  lemma RepliesAnswered(transcript: seq<string>, answer: string)
    ensures Replies(transcript + ["Therapist: " + answer]) == Replies(transcript) + 1
  {
    var t := transcript + ["Therapist: " + answer];
    assert t[..|t| - 1] == transcript;
    assert t[|t| - 1][..11] == "Therapist: ";
  }

  /** Saving keeps the loop consistent when at most ten replies came since the save before. */
  lemma SaveConsistent(c: Chat, notes: string, now: DateTime)
    requires Valid(now)
    requires Replies(c.transcript) <= AUTO_SAVE_THRESHOLD * (|c.saved| + 1)
    ensures Consistent(SaveAt(c, notes, now))
  {
  }

  lemma PerformConsistent(c: Chat, name: string, t: Turn)
    requires Valid(t.now) && Consistent(c)
    ensures Consistent(Perform(c, name, t))
  {
    if Dispatch(name) == SaveNotes {
      SaveConsistent(c, t.notes, t.now);
    }
  }

  lemma AnsweredConsistent(c: Chat, t: Turn, answer: string)
    requires Valid(c.lastSave) && Valid(t.now) && Consistent(c)
    ensures Consistent(Answered(c, t, answer))
  {
    RepliesAnswered(c.transcript, answer);
    var answered := c.(transcript := c.transcript + ["Therapist: " + answer], count := c.count + 1);
    if answered.count >= AUTO_SAVE_THRESHOLD || QuarterHourPassed(c.lastSave, t.now) {
      SaveConsistent(answered, t.notes, t.now);
    }
  }

  lemma ConverseConsistent(c: Chat, t: Turn)
    requires Valid(c.lastSave) && Valid(t.now) && Consistent(c)
    ensures Consistent(Converse(c, t))
  {
    if Strip(t.input) != "" {
      RepliesAsked(c.transcript, t.input);
      var asked := c.(transcript := c.transcript + ["User: " + t.input]);
      assert Consistent(asked);
      if t.reply.Answer? {
        AnsweredConsistent(asked, t, t.reply.text);
      }
    }
  }

  /** Every pass of the loop keeps it consistent. */
  lemma StepConsistent(c: Chat, t: Turn)
    requires Valid(c.lastSave) && Valid(t.now) && Consistent(c)
    ensures Consistent(Step(c, t))
  {
    if !c.ended {
      match DecodeCommand(t.input)
      case Some(name) => PerformConsistent(c, name, t);
      case None => ConverseConsistent(c, t);
    }
  }

  /** The loop is consistent after any number of passes. */
  lemma {:induction false} ReplayConsistent(start: DateTime, turns: seq<Turn>)
    requires Valid(start) && ValidTurns(turns)
    ensures Consistent(Replay(start, turns))
  {
    if turns != [] {
      var init := turns[..|turns| - 1];
      assert ValidTurns(init) by {
        assert forall i :: 0 <= i < |init| ==> init[i] == turns[i];
      }
      ReplayConsistent(start, init);
      StepConsistent(Replay(start, init), turns[|turns| - 1]);
    }
  }

  /** The transcript and the saved notes only grow: a pass appends to them and rewrites nothing. */
  lemma StepAppends(c: Chat, t: Turn)
    requires Valid(c.lastSave) && Valid(t.now)
    ensures var d := Step(c, t);
      && |c.transcript| <= |d.transcript| && d.transcript[..|c.transcript|] == c.transcript
      && |c.saved| <= |d.saved| <= |c.saved| + 1 && d.saved[..|c.saved|] == c.saved
  {
    var d := Step(c, t);
    var tail, more := [], [];
    if !c.ended {
      match DecodeCommand(t.input)
      case Some(name) =>
        if Dispatch(name) == SaveNotes {
          more := [Note(t.notes, IsoFormat(t.now))];
        }
      case None =>
        if Strip(t.input) != "" {
          var asked := c.(transcript := c.transcript + ["User: " + t.input]);
          tail := ["User: " + t.input];
          if t.reply.Answer? {
            tail := tail + ["Therapist: " + t.reply.text];
            Regroup(c.transcript, ["User: " + t.input], ["Therapist: " + t.reply.text]);
            var answered := asked.(transcript := asked.transcript + ["Therapist: " + t.reply.text], count := c.count + 1);
            if answered.count >= AUTO_SAVE_THRESHOLD || QuarterHourPassed(c.lastSave, t.now) {
              more := [Note(t.notes, IsoFormat(t.now))];
            }
          }
        }
    }
    assert d.transcript == c.transcript + tail && d.saved == c.saved + more;
  }

  /** Once the loop has been left, later turns change nothing. */
  lemma {:induction false} EndedStays(start: DateTime, turns: seq<Turn>, n: nat)
    requires Valid(start) && ValidTurns(turns) && n <= |turns|
    requires ValidTurns(turns[..n]) && Replay(start, turns[..n]).ended
    ensures Replay(start, turns) == Replay(start, turns[..n])
  {
    if n < |turns| {
      var m := |turns| - 1;
      ReplayNext(start, turns, m);
      assert turns[..m + 1] == turns;
      assert turns[..m][..n] == turns[..n];
      EndedStays(start, turns[..m], n);
    } else {
      assert turns[..n] == turns;
    }
  }

  /** What a command line typed in `/send` mode decodes to: its stripped text, lowered, without the slash. */
  lemma CommandRoundTrip(line: string)
    requires IsCommand(line)
    ensures DecodeCommand(Marked(line)) == Some(Lower(Strip(line)[1..]))
  {
    var s := Strip(line);
    var m := Marked(line);
    assert m[..|COMMAND_MARKER|] == COMMAND_MARKER && m[|COMMAND_MARKER|..] == s;
    assert s == "/" + s[1..];
    LowerConcat("/", s[1..]);
    assert Lower("/") == "/";
    assert Lower(s) == "/" + Lower(s[1..]);
  }

  /** `/end`, `/exit` and `/quit`, in any mix of cases, leave the loop. */
  lemma CommandEnds(c: Chat, t: Turn, line: string)
    requires Valid(c.lastSave) && Valid(t.now) && !c.ended
    requires IsCommand(line) && t.input == Marked(line)
    requires Lower(Strip(line)[1..]) in ["end", "exit", "quit"]
    ensures Step(c, t) == c.(ended := true)
  {
    CommandRoundTrip(line);
  }

  /**
   * Text whose first line starts with the marker reads as a command too:
   * typing `__COMMAND__quit` and then `/send` leaves the loop, although no
   * command line was typed.
   */
  lemma TypedMarkerEnds(c: Chat, notes: string, reply: Reply, now: DateTime)
    requires Valid(c.lastSave) && Valid(now) && !c.ended
    ensures var events := [Line("__COMMAND__quit"), Line("/send")];
      && SendStop(events) == 1 && !SendCommand(events)
      && Join(Texts(events[..1])) == "__COMMAND__quit"
      && Step(c, Turn("__COMMAND__quit", reply, notes, now)) == c.(ended := true)
  {
    TypedMarkerRead();
    TypedMarkerDecodes();
  }

  /** `__COMMAND__quit` then `/send` reads as the one line `__COMMAND__quit`. */
  lemma TypedMarkerRead()
    ensures var events := [Line("__COMMAND__quit"), Line("/send")];
      && SendStop(events) == 1 && !SendCommand(events)
      && Texts(events[..1]) == ["__COMMAND__quit"]
  {
    var events := [Line("__COMMAND__quit"), Line("/send")];
    StripTrimmed("__COMMAND__quit");
    StripTrimmed("/send");
    assert !EndsSend(events[0]) && EndsSend(events[1]);
    SendStopIs(events, 1);
    assert events[..1] == [Line("__COMMAND__quit")];
    TextsOfLines(events[..1]);
  }

  lemma TypedMarkerDecodes()
    ensures DecodeCommand("__COMMAND__quit") == Some("quit")
  {
    assert "__COMMAND__quit"[|COMMAND_MARKER|..] == "quit";
    assert Lower("quit") == "quit";
  }

  /** A reply that does not reach the threshold or the interval counts one more message and saves nothing. */
  lemma ReplyCounts(c: Chat, t: Turn)
    requires Valid(c.lastSave) && Valid(t.now) && !c.ended
    requires DecodeCommand(t.input).None? && Strip(t.input) != "" && t.reply.Answer?
    requires c.count + 1 < AUTO_SAVE_THRESHOLD && !QuarterHourPassed(c.lastSave, t.now)
    ensures var d := Step(c, t);
      && d.count == c.count + 1 && d.saved == c.saved && d.date == c.date
      && d.transcript == c.transcript + ["User: " + t.input, "Therapist: " + t.reply.text]
  {
  }

  /**
   * The tenth reply since notes were last saved saves the notes generated
   * then, dated now, and starts counting again.
   */
  lemma TenthReplySaves(c: Chat, t: Turn)
    requires Valid(c.lastSave) && Valid(t.now) && !c.ended && c.count == AUTO_SAVE_THRESHOLD - 1
    requires DecodeCommand(t.input).None? && Strip(t.input) != "" && t.reply.Answer?
    ensures var d := Step(c, t);
      && d.count == 0 && d.saved == c.saved + [Note(t.notes, IsoFormat(t.now))]
      && d.date == Some(IsoFormat(t.now)) && d.lastSave == t.now
  {
  }

  /**
   * A reply after fifteen minutes without a save saves the notes generated
   * then, dated now, whatever the count, and starts counting again.
   */
  lemma IntervalSaves(c: Chat, t: Turn)
    requires Valid(c.lastSave) && Valid(t.now) && !c.ended
    requires DecodeCommand(t.input).None? && Strip(t.input) != "" && t.reply.Answer?
    requires QuarterHourPassed(c.lastSave, t.now)
    ensures var d := Step(c, t);
      && d.count == 0 && d.saved == c.saved + [Note(t.notes, IsoFormat(t.now))]
      && d.date == Some(IsoFormat(t.now)) && d.lastSave == t.now && d.notes == t.notes
      && d.transcript == c.transcript + ["User: " + t.input, "Therapist: " + t.reply.text]
  {
  }

  /**
   * `/save` saves the notes generated then, dated now, restarts the counter
   * and the timer, and leaves the transcript as it is.
   */
  lemma SaveCommandResets(c: Chat, t: Turn, name: string)
    requires Valid(c.lastSave) && Valid(t.now) && !c.ended
    requires DecodeCommand(t.input) == Some(name) && Dispatch(name) == SaveNotes
    ensures var d := Step(c, t);
      && d.count == 0 && d.saved == c.saved + [Note(t.notes, IsoFormat(t.now))]
      && d.date == Some(IsoFormat(t.now)) && d.lastSave == t.now && d.notes == t.notes
      && d.transcript == c.transcript && !d.ended
  {
  }

  /** A failed reply keeps the message in the transcript but does not count it. */
  lemma FailureNotCounted(c: Chat, t: Turn)
    requires Valid(c.lastSave) && Valid(t.now) && !c.ended
    requires DecodeCommand(t.input).None? && Strip(t.input) != "" && t.reply.Failure?
    ensures Step(c, t) == c.(transcript := c.transcript + ["User: " + t.input])
  {
  }

  /** The inputs to the end of the session: the notes `generate_therapist_notes` gives, and the clock. */
  datatype Closing = Closing(notes: string, now: DateTime)

  /** What the end of the session writes: all notes saved during it, then the session row and its date. */
  datatype Ending = Ending(notes: seq<Note>, record: SessionRecord, date: string)

  /** Python's `UnboundLocalError` when `date` was never assigned. */
  datatype SessionError = UnboundDate

  /** The variables after the final notes, if any replies came since the last save. */
  function Closed(c: Chat, f: Closing): Chat
    requires Valid(f.now)
  {
    if c.count > 0 then SaveAt(c, f.notes, f.now) else c
  }

  /** The end of the session as written: the session row takes `date`, which may be unbound. */
  function FinishAsWritten(c: Chat, f: Closing): Result<Ending, SessionError>
    requires Valid(f.now)
  {
    var d := Closed(c, f);
    match d.date
    case None => Err(UnboundDate)
    case Some(date) => Ok(Ending(d.saved, SessionRecord(d.transcript, d.notes), date))
  }

  /** The end of the session with the session dated at its end when no notes were ever saved. */
  function Finish(c: Chat, f: Closing): Ending
    requires Valid(f.now)
  {
    var d := Closed(c, f);
    Ending(d.saved, SessionRecord(d.transcript, d.notes), if d.date.Some? then d.date.value else IsoFormat(f.now))
  }

  /**
   * The written end fails exactly when the therapist never replied and no
   * notes were saved during the session.
   */
  lemma UnboundExactly(c: Chat, f: Closing)
    requires Valid(f.now) && Consistent(c)
    ensures FinishAsWritten(c, f).Err? <==> Replies(c.transcript) == 0 && c.saved == []
  {
  }

  /** Ending `/end` as the very first input makes the written end fail. */
  lemma EndAtOnceFails(start: DateTime, reply: Reply, notes: string, now: DateTime, f: Closing)
    requires Valid(start) && Valid(now) && Valid(f.now)
    ensures FinishAsWritten(Replay(start, [Turn(Marked("/end"), reply, notes, now)]), f) == Err(UnboundDate)
  {
    var turns := [Turn(Marked("/end"), reply, notes, now)];
    assert turns[..0] == [];
    StripTrimmed("/end");
    assert "/end"[1..] == "end" && Lower("end") == "end";
    CommandEnds(Begin(start), turns[0], "/end");
  }

  /** Where the written end succeeds the corrected one agrees with it. */
  lemma FinishAgrees(c: Chat, f: Closing)
    requires Valid(f.now) && FinishAsWritten(c, f).Ok?
    ensures Finish(c, f) == FinishAsWritten(c, f).value
  {
  }

  /**
   * The end of a consistent session: every note saved is kept, final notes
   * are added exactly when replies came after the last save, the session
   * row holds the whole transcript, and it is dated like the last note, or
   * at the end when there is none.
   */
  lemma FinishSpec(c: Chat, f: Closing)
    requires Valid(f.now) && Consistent(c)
    ensures var e := Finish(c, f);
      && e.notes == (if c.count > 0 then c.saved + [Note(f.notes, IsoFormat(f.now))] else c.saved)
      && e.record.transcript == c.transcript
      && e.date == (if e.notes == [] then IsoFormat(f.now) else e.notes[|e.notes| - 1].date)
  {
  }
}
