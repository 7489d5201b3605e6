// Session logs as a program writes them: one turn after another, each begun,
// with messages in between, and completed or stopped. What the tail reader
// makes of such a log is stated turn by turn.

module TurnLog {
  import opened Basics
  import opened LineSplitting
  import opened ResponseTail

  /** What is said in the course of a turn, and records of any other kind. */
  datatype Note = Said(text: string, time: string) | Silent

  datatype End = Completed(explicit: Option<string>, time: string) | Stopped

  datatype Turn = Turn(id: string, notes: seq<Note>, end: End)

  function NoteEvents(notes: seq<Note>): (r: seq<Event>)
    ensures |r| == |notes|
  {
    seq(|notes|, i requires 0 <= i < |notes| =>
          if notes[i].Said? then Message(notes[i].text, notes[i].time) else Other)
  }

  function EndEvent(t: Turn): Event {
    if t.end.Completed? then Finished(t.id, t.end.explicit, t.end.time) else Aborted
  }

  function TurnEvents(t: Turn): seq<Event> {
    [Started(t.id)] + NoteEvents(t.notes) + [EndEvent(t)]
  }

  function LogEvents(turns: seq<Turn>): seq<Event> {
    if turns == [] then [] else TurnEvents(turns[0]) + LogEvents(turns[1..])
  }

  // ----- The answers of a log -----

  /** The last message of a turn decides, even when it is blank. */
  function LastSaid(notes: seq<Note>): Option<Note> {
    if notes == [] then None
    else if notes[|notes| - 1].Said? then Some(notes[|notes| - 1])
    else LastSaid(notes[..|notes| - 1])
  }

  /** A completed turn answers with the text of its completion, or else with its last message. */
  function TurnAnswer(t: Turn): Option<Response> {
    match t.end
    case Stopped => None
    case Completed(explicit, time) =>
      if explicit.Some? && !Blank(explicit.value) then Some(Response(explicit.value, time, t.id))
      else match LastSaid(t.notes)
        case Some(Said(text, said)) => if Blank(text) then None else Some(Response(text, said, t.id))
        case _ => None
  }

  function LogAnswers(turns: seq<Turn>): seq<Response> {
    if turns == [] then []
    else match TurnAnswer(turns[0])
      case None => LogAnswers(turns[1..])
      case Some(r) => [r] + LogAnswers(turns[1..])
  }

  // ----- The reader finds them -----

  function Pending(id: string, said: Option<Note>): Head {
    match said
    case Some(Said(text, time)) => Head(Some(Response(text, time, id)), id)
    case _ => Head(None, id)
  }

  lemma {:induction false} NotesAreRead(id: string, notes: seq<Note>)
    ensures Answers(Head(None, id), NoteEvents(notes)) == []
    ensures HeadAfter(Head(None, id), NoteEvents(notes)) == Pending(id, LastSaid(notes))
  {
    if notes == [] {
    } else {
      var front, last := notes[..|notes| - 1], NoteEvents(notes)[|notes| - 1];
      assert NoteEvents(notes) == NoteEvents(front) + [last];
      NotesAreRead(id, front);
      AnswersConcat(Head(None, id), NoteEvents(front), [last]);
      HeadAfterConcat(Head(None, id), NoteEvents(front), [last]);
      OneAnswer(Pending(id, LastSaid(front)), last);
    }
  }

  lemma {:induction false} HeadAfterConcat(h: Head, x: seq<Event>, y: seq<Event>)
    ensures HeadAfter(h, x + y) == HeadAfter(HeadAfter(h, x), y)
    decreases |x|
  {
    hide NextHead;
    if x == [] {
      assert x + y == y;
    } else {
      assert (x + y)[1..] == x[1..] + y;
      HeadAfterConcat(NextHead(h, x[0]), x[1..], y);
    }
  }

  lemma OneAnswer(h: Head, e: Event)
    ensures Answers(h, [e]) == One(Emitted(h, e)) && HeadAfter(h, [e]) == NextHead(h, e)
  {
    assert [e][1..] == [] && One(Emitted(h, e)) + [] == One(Emitted(h, e));
  }

  lemma EndIsRead(t: Turn)
    ensures Emitted(Pending(t.id, LastSaid(t.notes)), EndEvent(t)) == TurnAnswer(t)
  {
    SaidOnly(t.notes);
  }

  lemma {:induction false} SaidOnly(notes: seq<Note>)
    ensures LastSaid(notes).Some? ==> LastSaid(notes).value.Said?
  {
    if notes != [] {
      SaidOnly(notes[..|notes| - 1]);
    }
  }

  lemma TurnIsRead(h: Head, t: Turn)
    ensures Answers(h, TurnEvents(t)) == One(TurnAnswer(t))
  {
    hide NoteEvents, Emitted, TurnAnswer, LastSaid, EndEvent;
    var e0, notes, e1 := Started(t.id), NoteEvents(t.notes), EndEvent(t);
    AnswersConcat(h, [e0] + notes, [e1]);
    AnswersConcat(h, [e0], notes);
    HeadAfterConcat(h, [e0], notes);
    OneAnswer(h, e0);
    StartAnswersNothing(h, t.id);
    NotesAreRead(t.id, t.notes);
    EndIsRead(t);
    OneAnswer(Pending(t.id, LastSaid(t.notes)), e1);
    assert [] + [] + One(TurnAnswer(t)) == One(TurnAnswer(t));
  }

  lemma StartAnswersNothing(h: Head, id: string)
    ensures Emitted(h, Started(id)) == None && NextHead(h, Started(id)) == Head(None, id)
  {
  }

  /** Wherever reading began, a log of turns gives the answers of its turns in order. */
  lemma {:induction false} LogIsRead(h: Head, turns: seq<Turn>)
    ensures Answers(h, LogEvents(turns)) == LogAnswers(turns)
    decreases |turns|
  {
    hide TurnEvents, TurnAnswer, HeadAfter;
    if turns != [] {
      TurnIsRead(h, turns[0]);
      AnswersConcat(h, TurnEvents(turns[0]), LogEvents(turns[1..]));
      LogIsRead(HeadAfter(h, TurnEvents(turns[0])), turns[1..]);
      assert [] + LogAnswers(turns[1..]) == LogAnswers(turns[1..]);
    }
  }

  predicate DistinctIds(turns: seq<Turn>) {
    forall i, j | 0 <= i < j < |turns| :: turns[i].id == "" || turns[i].id != turns[j].id
  }

  lemma {:induction false} AnswersAreDistinct(turns: seq<Turn>, n: nat)
    requires DistinctIds(turns)
    ensures Spread(LogAnswers(turns), n)
    ensures forall r <- LogAnswers(turns) :: exists t <- turns :: t.id == r.turnId
  {
    hide TurnAnswer;
    if turns != [] {
      var rest := turns[1..];
      assert forall t <- rest :: exists j :: 0 < j < |turns| && turns[j] == t;
      AnswersAreDistinct(rest, n);
      AnswerNamesTurn(turns[0]);
      assert forall t <- rest :: t in turns;
      assert turns[0] in turns;
    }
  }

  lemma AnswerNamesTurn(t: Turn)
    ensures TurnAnswer(t).Some? ==> TurnAnswer(t).value.turnId == t.id
  {
  }

  /** A window that begins between turns shows the newest answers of its turns, newest first. */
  lemma WindowShowsTurns(c: Classifier, limit: nat, file: seq<byte>, tail: nat, turns: seq<Turn>)
    requires SmallRecords(WindowText(file, tail)) && EventsOf(c, WindowText(file, tail)) == LogEvents(turns)
    requires DistinctIds(turns)
    ensures WindowOf(c, limit, file, tail) == Ok((Reverse(Newest(LogAnswers(turns), limit)), |file| > tail))
  {
    hide EventsOf, SmallRecords, WindowText, WindowOf, LogEvents, LogAnswers, Spread, DistinctIds;
    LogIsRead(START, turns);
    AnswersAreDistinct(turns, limit);
    WindowIsNewest(c, limit, file, tail);
  }

  // ----- Which windows are refused -----

  predicate BreakFrom(text: seq<byte>, i: nat) {
    exists k | i <= k < i + MAX_RECORD_BYTES && k < |text| :: text[k] == NEWLINE
  }

  /** A line break comes within the limit, from wherever one looks. */
  ghost predicate BreaksInTime(text: seq<byte>) {
    forall i: nat | i + MAX_RECORD_BYTES < |text| :: BreakFrom(text, i)
  }

  /** A window is refused exactly if somewhere no line break comes within the limit. */
  lemma {:induction false} RefusedExactly(text: seq<byte>)
    ensures SmallRecords(text) <==> BreaksInTime(text)
    decreases |text|
  {
    hide SmallRecords, Find, BreaksInTime;
    match Find(text, [NEWLINE])
    case None =>
      NoBreak(text);
    case Some(i) =>
      MatchesSeparator(text, NEWLINE, i);
      SmallStep(text, i);
      RefusedExactly(text[i + 1..]);
      FirstBreak(text, i);
  }

  lemma NoBreak(text: seq<byte>)
    requires Find(text, [NEWLINE]) == None
    ensures SmallRecords(text) <==> BreaksInTime(text)
  {
    forall k | 0 <= k < |text| ensures text[k] != NEWLINE {
      MatchesSeparator(text, NEWLINE, k);
    }
    if |text| > MAX_RECORD_BYTES {
      assert !BreakFrom(text, 0);
    }
  }

  lemma FirstBreak(text: seq<byte>, i: nat)
    requires i < |text| && Find(text, [NEWLINE]) == Some(i) && text[i] == NEWLINE
    ensures BreaksInTime(text) <==> i + 1 <= MAX_RECORD_BYTES && BreaksInTime(text[i + 1..])
  {
    forall k | 0 <= k < i ensures text[k] != NEWLINE {
      MatchesSeparator(text, NEWLINE, k);
    }
    hide Find;
    var rest := text[i + 1..];
    forall j: nat | j + MAX_RECORD_BYTES < |rest| ensures BreakFrom(rest, j) <==> BreakFrom(text, i + 1 + j) {
      LaterBreak(text, i + 1, j);
    }
    if i + 1 > MAX_RECORD_BYTES {
      assert !BreakFrom(text, 0);
    } else {
      forall j: nat | j <= i ensures BreakFrom(text, j) {
        assert text[i] == NEWLINE;
      }
      if BreaksInTime(rest) {
        forall j: nat | j + MAX_RECORD_BYTES < |text| ensures BreakFrom(text, j) {
          if j > i {
            assert BreakFrom(rest, j - i - 1);
          }
        }
      }
    }
  }

  lemma LaterBreak(text: seq<byte>, from: nat, j: nat)
    requires from <= |text|
    ensures BreakFrom(text[from..], j) <==> BreakFrom(text, from + j)
  {
    var rest := text[from..];
    if BreakFrom(rest, j) {
      var k :| j <= k < j + MAX_RECORD_BYTES && k < |rest| && rest[k] == NEWLINE;
      assert text[from + k] == NEWLINE;
    }
    if BreakFrom(text, from + j) {
      var k :| from + j <= k < from + j + MAX_RECORD_BYTES && k < |text| && text[k] == NEWLINE;
      assert rest[k - from] == NEWLINE;
    }
  }
}
