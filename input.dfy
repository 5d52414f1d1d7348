/**
 * `get_multiline_input`: the terminal is a sequence of prompt events (a
 * line the user entered, or Ctrl+D); one call reads events until its mode
 * says the text is complete.  Running out of events reads as Ctrl+D.
 */
module Input {
  import opened Text

  datatype Event = Line(text: string) | Eof

  /** The marker that tells the session loop a command was typed. */
  const COMMAND_MARKER: string := "__COMMAND__"

  predicate IsSend(line: string) {
    Strip(line) == "/send"
  }

  /** A line that, stripped, starts with `/` and is more than a bare `/` (and is not `/send`, which is tested first). */
  predicate IsCommand(line: string) {
    !IsSend(line) && StartsWith(Strip(line), "/") && Strip(line) != "/"
  }

  /** In `/send` mode: the events that end the text. */
  predicate EndsSend(e: Event) {
    e.Eof? || IsSend(e.text) || IsCommand(e.text)
  }

  /** The position of the first event that ends a `/send`-mode text, or the number of events when none does. */
  function SendStop(events: seq<Event>): (c: nat)
    ensures c <= |events|
  {
    if events == [] || EndsSend(events[0]) then 0 else 1 + SendStop(events[1..])
  }

  /** No event before the stop ends the text, and the event at the stop does. */
  lemma {:induction false} SendStopSpec(events: seq<Event>)
    ensures forall i :: 0 <= i < SendStop(events) ==> !EndsSend(events[i])
    ensures SendStop(events) < |events| ==> EndsSend(events[SendStop(events)])
  {
    if events != [] && !EndsSend(events[0]) {
      SendStopSpec(events[1..]);
      forall i | 0 < i < SendStop(events) ensures !EndsSend(events[i]) {
        assert events[i] == events[1..][i - 1];
      }
    }
  }

  /** Reading on past an event that does not end the text stays at or before the stop. */
  lemma SendStopPast(events: seq<Event>, i: nat)
    requires i < |events| && i <= SendStop(events) && !EndsSend(events[i])
    ensures i < SendStop(events)
  {
    SendStopSpec(events);
  }

  /** The first event that ends the text is the stop. */
  lemma SendStopAt(events: seq<Event>, i: nat)
    requires i <= SendStop(events) && (i == |events| || EndsSend(events[i]))
    ensures i == SendStop(events)
  {
    SendStopSpec(events);
  }

  /** What the reading returns for a command line: the marker, then the stripped line. */
  function Marked(line: string): string {
    COMMAND_MARKER + Strip(line)
  }

  /** Whether a `/send`-mode reading ends at a command line. */
  predicate SendCommand(events: seq<Event>) {
    var c := SendStop(events);
    c < |events| && events[c].Line? && IsCommand(events[c].text)
  }

  /** The texts of the lines among some events. */
  function Texts(events: seq<Event>): seq<string> {
    if events == [] then []
    else (if events[0].Line? then [events[0].text] else []) + Texts(events[1..])
  }

  lemma {:induction false} TextsSnoc(events: seq<Event>, e: Event)
    ensures Texts(events + [e]) == Texts(events) + (if e.Line? then [e.text] else [])
  {
    if events == [] {
      assert [e][1..] == [];
    } else {
      assert (events + [e])[0] == events[0] && (events + [e])[1..] == events[1..] + [e];
      TextsSnoc(events[1..], e);
    }
  }

  /** Events that are all lines give exactly their texts, in order. */
  lemma {:induction false} TextsOfLines(events: seq<Event>)
    requires forall i :: 0 <= i < |events| ==> events[i].Line?
    ensures |Texts(events)| == |events|
    ensures forall i :: 0 <= i < |events| ==> Texts(events)[i] == events[i].text
  {
    if events != [] {
      TextsOfLines(events[1..]);
    }
  }

  /**
   * The `/send` mode (`end_with_ctrl_d=True`): the lines before the first
   * `/send` line or Ctrl+D, joined by newlines, the ending line left out;
   * a command line ends the reading at once with the marker and the
   * stripped command, whatever was typed before it.  `used` is the number
   * of events read.
   */
  method ReadUntilSend(events: seq<Event>) returns (text: string, used: nat)
    ensures used == if SendStop(events) < |events| then SendStop(events) + 1 else SendStop(events)
    ensures SendCommand(events) ==> text == Marked(events[SendStop(events)].text)
    ensures !SendCommand(events) ==> text == Join(Texts(events[..SendStop(events)]))
  {
    var lines: seq<string> := [];
    var i := 0;
    while i < |events|
      invariant 0 <= i <= SendStop(events)
      invariant lines == Texts(events[..i])
    {
      var e := events[i];
      if e.Eof? {
        SendStopAt(events, i);
        break;
      }
      var line := e.text;
      if Strip(line) == "/send" {
        SendStopAt(events, i);
        break;
      } else if StartsWith(Strip(line), "/") && Strip(line) != "/" {
        SendStopAt(events, i);
        return Marked(line), i + 1;
      }
      SendStopPast(events, i);
      TextsSnoc(events[..i], e);
      assert events[..i + 1] == events[..i] + [e];
      lines := lines + [line];
      i := i + 1;
    }
    SendStopAt(events, i);
    text := Join(lines);
    used := if i < |events| then i + 1 else i;
  }

  /** In empty-line mode: the events that end the text, the second argument telling whether a line was already taken. */
  predicate EndsBlank(e: Event, collected: bool) {
    e.Eof? || (e.text == "" && collected)
  }

  /**
   * The position of the first event that ends an empty-line-mode text: the
   * first Ctrl+D, or the first empty line after the first event.
   */
  function BlankStop(events: seq<Event>): (c: nat)
    ensures c <= |events|
    ensures forall i :: 0 <= i < c ==> !EndsBlank(events[i], i > 0)
    ensures c < |events| ==> EndsBlank(events[c], c > 0)
  {
    if events == [] || events[0].Eof? then 0 else 1 + LaterBlankStop(events[1..])
  }

  /** After a line has been taken: the first Ctrl+D or empty line. */
  function LaterBlankStop(events: seq<Event>): (c: nat)
    ensures c <= |events|
    ensures forall i :: 0 <= i < c ==> !EndsBlank(events[i], true)
    ensures c < |events| ==> EndsBlank(events[c], true)
  {
    if events == [] || EndsBlank(events[0], true) then 0 else 1 + LaterBlankStop(events[1..])
  }

  /**
   * The empty-line mode (`end_with_ctrl_d=False`): the lines up to the first
   * empty line that follows some content, or up to Ctrl+D, joined by
   * newlines.  An empty first line is kept.
   */
  method ReadUntilBlank(events: seq<Event>) returns (text: string, used: nat)
    ensures var c := BlankStop(events);
      && used == (if c < |events| then c + 1 else c)
      && text == Join(Texts(events[..c]))
  {
    var lines: seq<string> := [];
    var i := 0;
    while i < |events|
      invariant 0 <= i <= BlankStop(events)
      invariant lines == Texts(events[..i])
      invariant (lines != []) == (i > 0)
    {
      var e := events[i];
      if e.Eof? {
        break;
      }
      var line := e.text;
      if line == "" && lines != [] {
        break;
      }
      TextsSnoc(events[..i], e);
      assert events[..i + 1] == events[..i] + [e];
      lines := lines + [line];
      i := i + 1;
    }
    text := Join(lines);
    used := if i < |events| then i + 1 else i;
  }

  /** The events of some typed lines. */
  function Lines(lines: seq<string>): (r: seq<Event>)
    ensures |r| == |lines| && forall i :: 0 <= i < |lines| ==> r[i] == Line(lines[i])
  {
    seq(|lines|, i requires 0 <= i < |lines| => Line(lines[i]))
  }

  /** The stop is the first event that ends the text. */
  lemma SendStopIs(events: seq<Event>, n: nat)
    requires n <= |events| && forall i :: 0 <= i < n ==> !EndsSend(events[i])
    requires n == |events| || EndsSend(events[n])
    ensures SendStop(events) == n
  {
    SendStopSpec(events);
  }

  /** A command typed after some text ends the reading with the marker and the command; the text before it is dropped. */
  lemma CommandDiscardsText(before: seq<string>, command: string, after: seq<Event>)
    requires forall i :: 0 <= i < |before| ==> !IsSend(before[i]) && !IsCommand(before[i])
    requires IsCommand(command)
    ensures var events := Lines(before) + [Line(command)] + after;
      && SendStop(events) == |before|
      && SendCommand(events) && events[SendStop(events)].text == command
  {
    var events := Lines(before) + [Line(command)] + after;
    assert forall i :: 0 <= i < |before| ==> events[i] == Line(before[i]);
    assert events[|before|] == Line(command);
    SendStopIs(events, |before|);
  }

  /** `/send` on a line of its own, blanks around it allowed, ends the text, which is the lines typed before it. */
  lemma SendEndsText(before: seq<string>, after: seq<Event>)
    requires forall i :: 0 <= i < |before| ==> !IsSend(before[i]) && !IsCommand(before[i])
    ensures var events := Lines(before) + [Line(" /send ")] + after;
      && SendStop(events) == |before| && !SendCommand(events)
      && Texts(events[..SendStop(events)]) == before
  {
    var events := Lines(before) + [Line(" /send ")] + after;
    assert forall i :: 0 <= i < |before| ==> events[i] == Line(before[i]);
    assert events[|before|] == Line(" /send ");
    assert Strip(" /send ") == "/send" by {
      assert " /send "[1..] == "/send ";
      assert StripLeft(" /send ") == "/send ";
      assert "/send "[..5] == "/send";
      assert StripRight("/send ") == "/send";
    }
    SendStopIs(events, |before|);
    assert events[..|before|] == Lines(before);
    TextsOfLines(Lines(before));
  }

  /** In empty-line mode an empty first line is kept: an empty line, a word and an empty line read as a newline and the word. */
  lemma LeadingBlankKept(word: string, after: seq<Event>)
    requires word != ""
    ensures var events := [Line(""), Line(word), Line("")] + after;
      BlankStop(events) == 2 && Join(Texts(events[..2])) == "\n" + word
  {
    var events := [Line(""), Line(word), Line("")] + after;
    assert events[1..][1..] == [Line("")] + after;
    assert LaterBlankStop(events[1..][1..]) == 0;
    assert LaterBlankStop(events[1..]) == 1;
    assert events[..2] == [Line(""), Line(word)];
    assert Texts(events[..2]) == ["", word] by {
      TextsOfLines(events[..2]);
    }
  }
}
