// Reading the newest answers of a session log from its end: a window that
// starts small and grows must give the answers of the largest window.
// What a record of the log means is an arbitrary classifier.

module ResponseTail {
  import opened Basics
  import opened LineSplitting

  const INITIAL_TAIL_BYTES: nat := 256 * 1024
  const MAX_TAIL_BYTES: nat := 32 * 1024 * 1024
  const MAX_RECORD_BYTES: nat := 4 * 1024 * 1024

  datatype Response = Response(text: string, timestamp: string, turnId: string)

  /** What a record means: a final answer of the assistant is a `Message`. */
  datatype Event =
    | Started(turnId: string)
    | Message(text: string, timestamp: string)
    | Finished(turnId: string, explicit: Option<string>, timestamp: string)
    | Aborted
    | Other

  type Classifier = seq<byte> -> Event

  datatype Problem = OversizedRecord

  // ----- One record after the other -----

  predicate Blank(text: string) {
    forall c <- text :: IsSpace(c)
  }

  /** The last message seen, and the turn it belongs to as far as the window shows. */
  datatype Head = Head(pending: Option<Response>, turnId: string)

  const START: Head := Head(None, "")

  function NextHead(h: Head, e: Event): Head {
    match e
    case Started(id) => Head(None, id)
    case Message(text, timestamp) => Head(Some(Response(text, timestamp, h.turnId)), h.turnId)
    case Finished(_, _, _) => Head(None, h.turnId)
    case Aborted => Head(None, h.turnId)
    case Other => h
  }

  /** The answer that the end of a turn yields: its own text, or the pending message of the turn. */
  function Emitted(h: Head, e: Event): Option<Response> {
    if !e.Finished? then None
    else
      var candidate :=
        if e.explicit.Some? && !Blank(e.explicit.value) then Some(Response(e.explicit.value, e.timestamp, e.turnId))
        else if h.pending.Some? && (h.pending.value.turnId == "" || h.pending.value.turnId == e.turnId) then h.pending
        else None;
      if candidate.Some? && !Blank(candidate.value.text) then candidate else None
  }

  predicate Repeated(responses: seq<Response>, r: Response) {
    r.turnId != "" && exists x <- responses :: x.turnId == r.turnId
  }

  function Collect(limit: nat, responses: seq<Response>, r: Option<Response>): seq<Response> {
    if r.None? || Repeated(responses, r.value) then responses
    else
      var all := responses + [r.value];
      if |all| > limit then all[1..] else all
  }

  datatype Scan = Scan(head: Head, responses: seq<Response>)

  function OnEvent(limit: nat, s: Scan, e: Event): Scan {
    Scan(NextHead(s.head, e), Collect(limit, s.responses, Emitted(s.head, e)))
  }

  function ScanEvents(limit: nat, s: Scan, events: seq<Event>): Scan
    decreases |events|
  {
    if events == [] then s else ScanEvents(limit, OnEvent(limit, s, events[0]), events[1..])
  }

  // ----- Windows of the log -----

  function AfterFirstLine(s: seq<byte>): seq<byte> {
    match Find(s, [NEWLINE])
    case None => []
    case Some(i) => s[i + 1..]
  }

  /** The whole records of a window; a partial first record is not among them. */
  function WindowText(file: seq<byte>, tail: nat): seq<byte> {
    if |file| <= tail then file else AfterFirstLine(file[|file| - tail..])
  }

  function Reverse<T>(s: seq<T>): (r: seq<T>)
    ensures |r| == |s| && forall i | 0 <= i < |s| :: r[i] == s[|s| - 1 - i]
  {
    seq(|s|, i requires 0 <= i < |s| => s[|s| - 1 - i])
  }

  /** Terminated records in order; a trailing partial record is still being written. */
  function EventsOf(c: Classifier, text: seq<byte>): seq<Event>
    decreases |text|
  {
    match Find(text, [NEWLINE])
    case None => []
    case Some(i) => [c(text[..i + 1])] + EventsOf(c, text[i + 1..])
  }

  /** No record, not even the partial one at the end, exceeds the safe limit. */
  predicate SmallRecords(text: seq<byte>)
    decreases |text|
  {
    match Find(text, [NEWLINE])
    case None => |text| <= MAX_RECORD_BYTES
    case Some(i) => i + 1 <= MAX_RECORD_BYTES && SmallRecords(text[i + 1..])
  }

  /** Newest first, with whether older text was left out. */
  function WindowOf(c: Classifier, limit: nat, file: seq<byte>, tail: nat): Result<(seq<Response>, bool), Problem> {
    var text := WindowText(file, tail);
    if !SmallRecords(text) then Err(OversizedRecord)
    else Ok((Reverse(ScanEvents(limit, Scan(START, []), EventsOf(c, text)).responses), |file| > tail))
  }

  /** Length of the next record with its line break, or of what there is up to one byte over the limit. */
  method NextRecord(text: seq<byte>, at: nat) returns (end: nat, terminated: bool)
    requires at < |text|
    ensures at < end <= |text|
    ensures terminated ==> end - at <= MAX_RECORD_BYTES && Find(text[at..], [NEWLINE]) == Some(end - at - 1)
    ensures !terminated && end - at <= MAX_RECORD_BYTES ==> end == |text| && Find(text[at..], [NEWLINE]) == None
    ensures end - at > MAX_RECORD_BYTES ==> !SmallRecords(text[at..])
  {
    hide Find, Split, SmallRecords;
    var rest := text[at..];
    end := at;
    while end < |text| && end - at < MAX_RECORD_BYTES && text[end] != NEWLINE
      invariant at <= end <= |text| && end - at <= MAX_RECORD_BYTES
      invariant forall k | at <= k < end :: text[k] != NEWLINE
    {
      end := end + 1;
    }
    assert forall k | 0 <= k < end - at :: rest[k] == text[at + k];
    if end - at == MAX_RECORD_BYTES && end < |text| {
      TooLong(rest);
      return end + 1, false;
    } else if end == |text| {
      NoSeparator(rest, NEWLINE);
      return end, false;
    } else {
      assert rest[end - at] == NEWLINE;
      FirstSeparator(rest, NEWLINE, end - at);
      return end + 1, true;
    }
  }

  lemma TooLong(rest: seq<byte>)
    requires |rest| > MAX_RECORD_BYTES && forall k | 0 <= k < MAX_RECORD_BYTES :: rest[k] != NEWLINE
    ensures !SmallRecords(rest)
  {
    var found := Find(rest, [NEWLINE]);
    if found.Some? {
      MatchesSeparator(rest, NEWLINE, found.value);
    }
  }

  method ReadResponseWindow(c: Classifier, limit: nat, file: seq<byte>, tail: nat)
    returns (r: Result<(seq<Response>, bool), Problem>)
    ensures r == WindowOf(c, limit, file, tail)
  {
    hide OnEvent, Find, WindowText, EventsOf, ScanEvents, SmallRecords;
    var text := WindowText(file, tail);
    var s := Scan(START, []);
    var at := 0;
    assert text[0..] == text;
    while at < |text|
      invariant at <= |text|
      invariant SmallRecords(text) <==> SmallRecords(text[at..])
      invariant ScanEvents(limit, Scan(START, []), EventsOf(c, text)) == ScanEvents(limit, s, EventsOf(c, text[at..]))
    {
      var end, terminated := NextRecord(text, at);
      if end - at > MAX_RECORD_BYTES {
        return Err(OversizedRecord);
      }
      assert text[at..][..end - at] == text[at..end] && text[at..][end - at..] == text[end..];
      if !terminated {
        break;
      }
      SmallStep(text[at..], end - at - 1);
      RecordStep(c, limit, s, text[at..], end - at - 1);
      s := OnEvent(limit, s, c(text[at..end]));
      at := end;
    }
    NoMoreRecords(c, limit, s, text[at..]);
    return Ok((Reverse(s.responses), |file| > tail));
  }

  lemma NoMoreRecords(c: Classifier, limit: nat, s: Scan, rest: seq<byte>)
    requires rest == [] || Find(rest, [NEWLINE]) == None
    ensures ScanEvents(limit, s, EventsOf(c, rest)) == s
    ensures SmallRecords(rest) <==> |rest| <= MAX_RECORD_BYTES
  {
    hide OnEvent, Find;
    if rest == [] {
      NoSeparator(rest, NEWLINE);
    }
  }

  lemma RecordStep(c: Classifier, limit: nat, s: Scan, rest: seq<byte>, i: nat)
    requires i < |rest| && Find(rest, [NEWLINE]) == Some(i)
    ensures ScanEvents(limit, s, EventsOf(c, rest))
            == ScanEvents(limit, OnEvent(limit, s, c(rest[..i + 1])), EventsOf(c, rest[i + 1..]))
  {
    hide OnEvent;
    assert EventsOf(c, rest)[1..] == EventsOf(c, rest[i + 1..]);
  }

  // ----- A smaller window is a suffix of a larger one -----

  ghost predicate IsSuffix<T>(a: seq<T>, b: seq<T>) {
    |a| <= |b| && b[|b| - |a|..] == a
  }

  lemma EventsStep(c: Classifier, text: seq<byte>, i: nat)
    requires i < |text| && Find(text, [NEWLINE]) == Some(i)
    ensures EventsOf(c, text) == [c(text[..i + 1])] + EventsOf(c, text[i + 1..])
  {
    hide Find, MatchAt, SmallRecords, Split;
  }

  lemma SmallStep(text: seq<byte>, i: nat)
    requires i < |text| && Find(text, [NEWLINE]) == Some(i)
    ensures SmallRecords(text) <==> i + 1 <= MAX_RECORD_BYTES && SmallRecords(text[i + 1..])
  {
    hide Find, MatchAt, EventsOf, Split;
  }

  lemma {:induction false} EventsAfterComplete(c: Classifier, a: seq<byte>, b: seq<byte>)
    requires Complete(a, NEWLINE)
    ensures EventsOf(c, a + b) == EventsOf(c, a) + EventsOf(c, b)
    ensures SmallRecords(a + b) ==> SmallRecords(b)
    decreases |a|
  {
    hide EventsOf, SmallRecords, Split, Find;
    if a == [] {
      assert a + b == b && [] + EventsOf(c, b) == EventsOf(c, b);
      NothingLeft(c);
    } else {
      var i := FirstIn(a, NEWLINE);
      var rest := a[i + 1..];
      FirstSeparator(a, NEWLINE, i);
      FirstSeparator(a + b, NEWLINE, i);
      assert (a + b)[..i + 1] == a[..i + 1] && (a + b)[i + 1..] == rest + b;
      EventsStep(c, a, i);
      EventsStep(c, a + b, i);
      SmallStep(a + b, i);
      EventsAfterComplete(c, rest, b);
      assert [c(a[..i + 1])] + (EventsOf(c, rest) + EventsOf(c, b))
          == [c(a[..i + 1])] + EventsOf(c, rest) + EventsOf(c, b);
    }
  }

  lemma BehindLine(file: seq<byte>, start: nat, i: nat)
    requires start <= |file| && Find(file[start..], [NEWLINE]) == Some(i)
    ensures start + i < |file| && file[start + i] == NEWLINE
    ensures file[start..][i + 1..] == file[start + i + 1..]
  {
    hide Find;
    MatchesSeparator(file[start..], NEWLINE, i);
  }

  /** Where the whole records of a window begin. */
  function Begin(file: seq<byte>, tail: nat): (p: nat)
    ensures p <= |file|
    ensures p > 0 ==> p == |file| || file[p - 1] == NEWLINE
    ensures WindowText(file, tail) == file[p..]
  {
    if |file| <= tail then 0
    else
      var start := |file| - tail;
      match Find(file[start..], [NEWLINE])
      case None => |file|
      case Some(i) =>
        BehindLine(file, start, i);
        start + i + 1
  }

  lemma BeginIsMonotone(file: seq<byte>, small: nat, large: nat)
    requires small <= large
    ensures Begin(file, large) <= Begin(file, small)
  {
    if |file| > large {
      var near, far := |file| - small, |file| - large;
      var rest := file[far..];
      var found := Find(file[near..], [NEWLINE]);
      if found.Some? {
        MatchesSeparator(file[near..], NEWLINE, found.value);
        MatchesSeparator(rest, NEWLINE, near - far + found.value);
      }
    }
  }

  /** The events of a smaller window end those of a larger one, which end those of the log. */
  lemma WindowsNest(c: Classifier, file: seq<byte>, small: nat, large: nat) returns (before: seq<Event>)
    requires small <= large
    ensures EventsOf(c, WindowText(file, large)) == before + EventsOf(c, WindowText(file, small))
    ensures SmallRecords(WindowText(file, large)) ==> SmallRecords(WindowText(file, small))
  {
    hide EventsOf, SmallRecords, WindowText;
    BeginIsMonotone(file, small, large);
    var p, q := Begin(file, large), Begin(file, small);
    hide Begin;
    if q == |file| {
      before := EventsOf(c, file[p..]);
      NothingLeft(c);
      assert file[q..] == [];
      assert before + [] == before;
    } else {
      assert file[p..] == file[p..q] + file[q..];
      EventsAfterComplete(c, file[p..q], file[q..]);
      before := EventsOf(c, file[p..q]);
    }
  }

  lemma NothingLeft(c: Classifier)
    ensures EventsOf(c, []) == [] && SmallRecords([])
  {
    NoSeparator([], NEWLINE);
  }

  // ----- All answers, and those a scan keeps -----

  /** All answers of the events, without limit or deduplication. */
  function Answers(h: Head, events: seq<Event>): seq<Response>
    decreases |events|
  {
    if events == [] then []
    else One(Emitted(h, events[0])) + Answers(NextHead(h, events[0]), events[1..])
  }

  function One<T>(r: Option<T>): seq<T> {
    if r.None? then [] else [r.value]
  }

  function HeadAfter(h: Head, events: seq<Event>): Head
    decreases |events|
  {
    if events == [] then h else HeadAfter(NextHead(h, events[0]), events[1..])
  }

  function Newest<T>(s: seq<T>, n: nat): seq<T> {
    if |s| <= n then s else s[|s| - n..]
  }

  /** No two answers at most `n` places apart are of one turn. */
  ghost predicate Spread(answers: seq<Response>, n: nat) {
    forall i, j | 0 <= i < j < |answers| && j - i <= n ::
      answers[i].turnId == "" || answers[i].turnId != answers[j].turnId
  }

  /** No two answers are of one turn, as far as their turns are known. */
  ghost predicate DistinctTurns(answers: seq<Response>) {
    forall i, j | 0 <= i < j < |answers| :: answers[i].turnId == "" || answers[i].turnId != answers[j].turnId
  }

  lemma CollectSpread(limit: nat, before: seq<Response>, r: Response, later: seq<Response>)
    requires Spread(before + ([r] + later), limit)
    ensures Collect(limit, Newest(before, limit), Some(r)) == Newest(before + [r], limit)
  {
    var all, kept := before + ([r] + later), Newest(before, limit);
    var from := |before| - |kept|;
    assert all[|before|] == r;
    forall x | x in kept ensures x.turnId != r.turnId || r.turnId == "" {
      var i :| 0 <= i < |kept| && kept[i] == x;
      assert all[from + i] == x;
    }
  }

  /** Where repetitions are more than the limit apart, a scan keeps the newest answers. */
  lemma {:induction false} ScanKeepsNewest(limit: nat, s: Scan, before: seq<Response>, events: seq<Event>)
    requires s.responses == Newest(before, limit) && Spread(before + Answers(s.head, events), limit)
    ensures ScanEvents(limit, s, events).responses == Newest(before + Answers(s.head, events), limit)
    decreases |events|
  {
    hide Emitted, NextHead, Collect, Newest, Spread;
    if events == [] {
      assert before + [] == before;
    } else {
      var r := Emitted(s.head, events[0]);
      var later := Answers(NextHead(s.head, events[0]), events[1..]);
      if r.Some? {
        CollectSpread(limit, before, r.value, later);
        assert before + ([r.value] + later) == before + [r.value] + later;
        ScanKeepsNewest(limit, OnEvent(limit, s, events[0]), before + [r.value], events[1..]);
      } else {
        NothingCollected(limit, s.responses);
        assert [] + later == later;
        ScanKeepsNewest(limit, OnEvent(limit, s, events[0]), before, events[1..]);
      }
    }
  }

  lemma NothingCollected(limit: nat, responses: seq<Response>)
    ensures Collect(limit, responses, None) == responses
  {
  }

  /** A scan never keeps more than there is. */
  lemma {:induction false} ScanBound(limit: nat, s: Scan, events: seq<Event>)
    ensures |ScanEvents(limit, s, events).responses| <= |s.responses| + |Answers(s.head, events)|
    decreases |events|
  {
    hide Emitted, NextHead, Repeated;
    if events != [] {
      ScanBound(limit, OnEvent(limit, s, events[0]), events[1..]);
    }
  }

  /** A repeated turn loses its later answer; any other answer is added. */
  lemma CollectOne(limit: nat, responses: seq<Response>, r: Response, later: seq<Response>)
    requires DistinctTurns(responses) && |responses| < limit
    ensures if Repeated(responses, r)
            then !DistinctTurns(responses + ([r] + later)) && Collect(limit, responses, Some(r)) == responses
            else DistinctTurns(responses + [r]) && Collect(limit, responses, Some(r)) == responses + [r]
  {
    var all := responses + ([r] + later);
    assert all[|responses|] == r;
    if Repeated(responses, r) {
      var x :| x in responses && x.turnId == r.turnId;
      var i :| 0 <= i < |responses| && responses[i] == x;
      assert all[i] == x;
    }
  }

  lemma {:induction false} KeptFrom(limit: nat, s: Scan, events: seq<Event>)
    requires DistinctTurns(s.responses) && |s.responses| + |Answers(s.head, events)| <= limit
    ensures ScanEvents(limit, s, events).responses == s.responses + Answers(s.head, events)
            <==> DistinctTurns(s.responses + Answers(s.head, events))
    decreases |events|
  {
    hide Emitted, NextHead, Collect, Repeated, DistinctTurns;
    if events == [] {
      assert s.responses + [] == s.responses;
    } else {
      var r := Emitted(s.head, events[0]);
      var later := Answers(NextHead(s.head, events[0]), events[1..]);
      var next := OnEvent(limit, s, events[0]);
      if r.None? {
        NothingCollected(limit, s.responses);
        assert [] + later == later;
        KeptFrom(limit, next, events[1..]);
      } else {
        CollectOne(limit, s.responses, r.value, later);
        assert s.responses + ([r.value] + later) == s.responses + [r.value] + later;
        if Repeated(s.responses, r.value) {
          ScanBound(limit, next, events[1..]);
        } else {
          KeptFrom(limit, next, events[1..]);
        }
      }
    }
  }

  /** Where the limit leaves room, a scan keeps all answers exactly if no two are of one turn. */
  lemma ScanKeepsAllExactly(limit: nat, events: seq<Event>)
    requires |Answers(START, events)| <= limit
    ensures ScanEvents(limit, Scan(START, []), events).responses == Answers(START, events)
            <==> DistinctTurns(Answers(START, events))
  {
    KeptFrom(limit, Scan(START, []), events);
    assert [] + Answers(START, events) == Answers(START, events);
  }

  // ----- Logs whose completions name the turn begun last -----

  /** `last` is the turn begun last, when one was. */
  predicate InOrder(last: Option<string>, e: Event) {
    e.Finished? && last.Some? ==> e.turnId == last.value
  }

  function Advance(last: Option<string>, e: Event): Option<string> {
    if e.Started? then Some(e.turnId) else last
  }

  /** Each turn that finishes is the one begun last; ids may recur. */
  predicate InOrderAll(last: Option<string>, events: seq<Event>)
    decreases |events|
  {
    events == [] || (InOrder(last, events[0]) && InOrderAll(Advance(last, events[0]), events[1..]))
  }

  /** What a window that may have begun inside a turn knows of it is not wrong. */
  ghost predicate Consistent(h: Head, last: Option<string>) {
    && (h.turnId == "" || last == Some(h.turnId))
    && (h.pending.Some? ==> h.pending.value.turnId == "" || last == Some(h.pending.value.turnId))
  }

  lemma HeadStep(h: Head, last: Option<string>, e: Event)
    requires InOrder(last, e) && Consistent(h, last)
    ensures Consistent(NextHead(h, e), Advance(last, e))
  {
  }

  lemma StartConsistent(last: Option<string>)
    ensures Consistent(START, last)
  {
  }

  lemma {:induction false} AnswersConcat(h: Head, x: seq<Event>, y: seq<Event>)
    ensures Answers(h, x + y) == Answers(h, x) + Answers(HeadAfter(h, x), y)
    decreases |x|
  {
    hide Emitted, NextHead;
    if x == [] {
      assert x + y == y;
    } else {
      assert (x + y)[1..] == x[1..] + y;
      AnswersConcat(NextHead(h, x[0]), x[1..], y);
    }
  }

  lemma {:induction false} ConsistentAfter(h: Head, last: Option<string>, x: seq<Event>, y: seq<Event>)
    returns (u: Option<string>)
    requires InOrderAll(last, x + y) && Consistent(h, last)
    ensures InOrderAll(u, y) && Consistent(HeadAfter(h, x), u)
    decreases |x|
  {
    hide InOrder, Advance, Consistent, NextHead;
    if x == [] {
      assert x + y == y;
      u := last;
    } else {
      assert (x + y)[0] == x[0] && (x + y)[1..] == x[1..] + y;
      HeadStep(h, last, x[0]);
      u := ConsistentAfter(NextHead(h, x[0]), Advance(last, x[0]), x[1..], y);
    }
  }

  // ----- What a window loses by beginning late -----

  /** The text and time of an answer; a late window may not know its turn. */
  function Said(r: Response): (string, string) {
    (r.text, r.timestamp)
  }

  function AllSaid(responses: seq<Response>): (r: seq<(string, string)>)
    ensures |r| == |responses| && forall i | 0 <= i < |r| :: r[i] == Said(responses[i])
  {
    seq(|responses|, i requires 0 <= i < |responses| => Said(responses[i]))
  }

  /** The same answer, of which the late window may not know the turn. */
  ghost predicate SeenLate(late: Response, full: Response) {
    Said(late) == Said(full) && (late.turnId == "" || late.turnId == full.turnId)
  }

  ghost predicate AllSeenLate(late: seq<Response>, full: seq<Response>) {
    |late| == |full| && forall i | 0 <= i < |late| :: SeenLate(late[i], full[i])
  }

  ghost predicate OneSeenLate(late: Option<Response>, full: Option<Response>) {
    if full.None? then late.None? else late.Some? && SeenLate(late.value, full.value)
  }

  /** The late window knows the pending message, and the turn or nothing of it. */
  ghost predicate InStep(late: Head, full: Head) {
    (late.turnId == "" || late.turnId == full.turnId) && OneSeenLate(late.pending, full.pending)
  }

  lemma EmitSame(late: Head, full: Head, last: Option<string>, e: Event)
    requires InOrder(last, e) && Consistent(late, last) && Consistent(full, last) && InStep(late, full)
    ensures OneSeenLate(Emitted(late, e), Emitted(full, e)) && InStep(NextHead(late, e), NextHead(full, e))
  {
  }

  /** A window that has not seen the running turn's message may miss that one answer, and no other. */
  lemma EmitLess(late: Head, full: Head, last: Option<string>, e: Event)
    requires InOrder(last, e) && Consistent(late, last) && Consistent(full, last)
    requires late.pending.None? && (late.turnId == "" || late.turnId == full.turnId)
    ensures if InStep(NextHead(late, e), NextHead(full, e))
            then OneSeenLate(Emitted(late, e), Emitted(full, e)) || Emitted(late, e).None?
            else NextHead(late, e).pending.None? && Emitted(full, e).None? && Emitted(late, e).None?
                 && (NextHead(late, e).turnId == "" || NextHead(late, e).turnId == NextHead(full, e).turnId)
  {
  }

  lemma JoinSeenLate(a: Option<Response>, b: Option<Response>, x: seq<Response>, y: seq<Response>)
    requires OneSeenLate(a, b) && AllSeenLate(x, y)
    ensures AllSeenLate(One(a) + x, One(b) + y)
  {
    hide SeenLate;
  }

  lemma {:induction false} StaysInStep(late: Head, full: Head, last: Option<string>, events: seq<Event>)
    requires InOrderAll(last, events) && Consistent(late, last) && Consistent(full, last) && InStep(late, full)
    ensures AllSeenLate(Answers(late, events), Answers(full, events))
    decreases |events|
  {
    hide InOrder, Advance, Consistent, Emitted, NextHead, InStep, OneSeenLate, AllSeenLate, One;
    if events == [] {
      NothingSeen();
    } else {
      var e := events[0];
      EmitSame(late, full, last, e);
      HeadStep(late, last, e);
      HeadStep(full, last, e);
      StaysInStep(NextHead(late, e), NextHead(full, e), Advance(last, e), events[1..]);
      JoinSeenLate(Emitted(late, e), Emitted(full, e), Answers(NextHead(late, e), events[1..]),
                   Answers(NextHead(full, e), events[1..]));
    }
  }

  lemma NothingSeen()
    ensures AllSeenLate([], [])
  {
  }

  /** The answers but the first so many. */
  ghost predicate SeenLateAfter(late: seq<Response>, full: seq<Response>) {
    |late| <= |full| && AllSeenLate(late, full[|full| - |late|..])
  }

  lemma DropFirst(late: seq<Response>, front: seq<Response>, full: seq<Response>)
    requires SeenLateAfter(late, full)
    ensures SeenLateAfter(late, front + full)
  {
    hide AllSeenLate;
    assert (front + full)[|front + full| - |late|..] == full[|full| - |late|..];
  }

  lemma SeenWhole(late: seq<Response>, full: seq<Response>)
    requires AllSeenLate(late, full)
    ensures SeenLateAfter(late, full)
  {
    assert full[0..] == full;
  }

  /** Beginning later loses at most the first answer. */
  lemma {:induction false} LateHead(late: Head, full: Head, last: Option<string>, events: seq<Event>)
    requires InOrderAll(last, events) && Consistent(late, last) && Consistent(full, last)
    requires late.pending.None? && (late.turnId == "" || late.turnId == full.turnId)
    ensures SeenLateAfter(Answers(late, events), Answers(full, events))
    decreases |events|
  {
    hide InOrder, Advance, Consistent, Emitted, NextHead, InStep, OneSeenLate, AllSeenLate, SeenLateAfter;
    if events == [] {
      NothingSeen();
      SeenWhole([], []);
    } else {
      var e := events[0];
      var late1, full1 := NextHead(late, e), NextHead(full, e);
      var x, y := Answers(late1, events[1..]), Answers(full1, events[1..]);
      EmitLess(late, full, last, e);
      HeadStep(late, last, e);
      HeadStep(full, last, e);
      if InStep(late1, full1) {
        StaysInStep(late1, full1, Advance(last, e), events[1..]);
        if Emitted(late, e).None? {
          SeenWhole(x, y);
          DropFirst(x, One(Emitted(full, e)), y);
          assert [] + x == x;
        } else {
          JoinSeenLate(Emitted(late, e), Emitted(full, e), x, y);
          SeenWhole(One(Emitted(late, e)) + x, One(Emitted(full, e)) + y);
        }
      } else {
        LateHead(late1, full1, Advance(last, e), events[1..]);
        assert [] + x == x && [] + y == y;
      }
    }
  }

  lemma LateIsSpread(late: seq<Response>, full: seq<Response>, n: nat)
    requires SeenLateAfter(late, full) && Spread(full, n)
    ensures Spread(late, n) && IsSuffix(AllSaid(late), AllSaid(full))
  {
    var from := |full| - |late|;
    assert forall i | 0 <= i < |late| :: SeenLate(late[i], full[from..][i]) && full[from..][i] == full[from + i];
  }

  // ----- The main results -----

  /**
   * Completions of the window name the turn begun last, two answers of one turn
   * are more than the limit apart, and no record is oversized.
   */
  ghost predicate GoodWindow(c: Classifier, limit: nat, file: seq<byte>, tail: nat) {
    var text := WindowText(file, tail);
    InOrderAll(None, EventsOf(c, text)) && Spread(Answers(START, EventsOf(c, text)), limit) && SmallRecords(text)
  }

  function TextsOf(r: (seq<Response>, bool)): seq<(string, string)> {
    AllSaid(r.0)
  }

  lemma WindowIsNewest(c: Classifier, limit: nat, file: seq<byte>, tail: nat)
    requires SmallRecords(WindowText(file, tail))
    requires Spread(Answers(START, EventsOf(c, WindowText(file, tail))), limit)
    ensures WindowOf(c, limit, file, tail)
            == Ok((Reverse(Newest(Answers(START, EventsOf(c, WindowText(file, tail))), limit)), |file| > tail))
  {
    hide EventsOf, SmallRecords, WindowText, Answers, Spread;
    var events := EventsOf(c, WindowText(file, tail));
    assert [] + Answers(START, events) == Answers(START, events);
    ScanKeepsNewest(limit, Scan(START, []), [], events);
  }

  lemma WholeFile(file: seq<byte>, tail: nat)
    requires |file| <= tail
    ensures WindowText(file, tail) == file
  {
  }

  /** The answers of a smaller window are the newest of a larger one's, up to the limit. */
  lemma SmallerWindow(c: Classifier, limit: nat, file: seq<byte>, small: nat, large: nat)
    requires GoodWindow(c, limit, file, large) && small <= large
    ensures var s, l := WindowOf(c, limit, file, small), WindowOf(c, limit, file, large);
            && s.Ok? && l.Ok? && TextsOf(s.value) <= TextsOf(l.value)
            && (|s.value.0| >= limit || !s.value.1 ==> TextsOf(s.value) == TextsOf(l.value))
  {
    hide EventsOf, SmallRecords, Answers, WindowOf, InOrderAll, Spread, AllSaid, Consistent, SeenLateAfter;
    var before := WindowsNest(c, file, small, large);
    var few, many := EventsOf(c, WindowText(file, small)), EventsOf(c, WindowText(file, large));
    var x, y := Answers(START, few), Answers(START, many);
    AnswersConcat(START, before, few);
    StartConsistent(None);
    var last := ConsistentAfter(START, None, before, few);
    StartConsistent(last);
    LateHead(START, HeadAfter(START, before), last, few);
    DropFirst(x, Answers(START, before), Answers(HeadAfter(START, before), few));
    LateIsSpread(x, y, limit);
    WindowIsNewest(c, limit, file, small);
    WindowIsNewest(c, limit, file, large);
    NewestSuffix(x, y, limit);
    if |file| <= small {
      WholeFile(file, small);
      WholeFile(file, large);
    }
  }

  lemma NewestSuffix(x: seq<Response>, y: seq<Response>, limit: nat)
    requires IsSuffix(AllSaid(x), AllSaid(y))
    ensures AllSaid(Reverse(Newest(x, limit))) <= AllSaid(Reverse(Newest(y, limit)))
    ensures |Newest(x, limit)| >= limit ==> AllSaid(Reverse(Newest(x, limit))) == AllSaid(Reverse(Newest(y, limit)))
  {
    SaidReversed(x, limit);
    SaidReversed(y, limit);
    SuffixReversed(AllSaid(x), AllSaid(y), limit);
  }

  lemma SaidReversed(x: seq<Response>, limit: nat)
    ensures AllSaid(Reverse(Newest(x, limit))) == Reverse(Newest(AllSaid(x), limit))
  {
  }

  lemma SuffixReversed<T>(a: seq<T>, b: seq<T>, limit: nat)
    requires IsSuffix(a, b)
    ensures Reverse(Newest(a, limit)) <= Reverse(Newest(b, limit))
    ensures |Newest(a, limit)| >= limit ==> Reverse(Newest(a, limit)) == Reverse(Newest(b, limit))
  {
    var tail := b[|b| - |a|..];
    assert forall k | 0 <= k < |a| :: tail[k] == b[|b| - |a| + k];
  }

  // ----- Turns that finish twice -----

  lemma {:induction false} ScanConcat(limit: nat, s: Scan, x: seq<Event>, y: seq<Event>)
    ensures ScanEvents(limit, s, x + y) == ScanEvents(limit, ScanEvents(limit, s, x), y)
    decreases |x|
  {
    hide OnEvent;
    if x == [] {
      assert x + y == y;
    } else {
      assert (x + y)[0] == x[0] && (x + y)[1..] == x[1..] + y;
      ScanConcat(limit, OnEvent(limit, s, x[0]), x[1..], y);
    }
  }

  lemma {:induction false} ScanOthers(limit: nat, s: Scan, x: seq<Event>)
    requires forall e <- x :: e == Other
    ensures ScanEvents(limit, s, x) == s
    decreases |x|
  {
    if x != [] {
      assert x[0] in x && forall e <- x[1..] :: e in x;
      ScanOthers(limit, s, x[1..]);
    }
  }

  /** A turn that runs and answers. */
  function Ran(id: string, text: string, time: string): seq<Event> {
    [Started(id), Finished(id, Some(text), time)]
  }

  lemma RanOnce(s: Scan, id: string, text: string, time: string)
    requires id != "" && !Blank(text) && |s.responses| <= 1
    ensures var r := ScanEvents(1, s, Ran(id, text, time));
            && (s.responses == [] ==> r.responses == [Response(text, time, id)])
            && (s.responses != [] && s.responses[0].turnId == id ==> r.responses == s.responses)
  {
    hide Blank;
    var e0, e1 := Started(id), Finished(id, Some(text), time);
    var mid := OnEvent(1, s, e0);
    assert mid == Scan(Head(None, id), s.responses);
    assert Emitted(mid.head, e1) == Some(Response(text, time, id));
    TwoEvents(1, s, e0, e1);
  }

  lemma TwoEvents(limit: nat, s: Scan, e0: Event, e1: Event)
    ensures ScanEvents(limit, s, [e0, e1]) == OnEvent(limit, OnEvent(limit, s, e0), e1)
  {
    hide OnEvent;
    assert [e0, e1][1..] == [e1] && [e1][1..] == [];
    assert ScanEvents(limit, s, [e0, e1]) == ScanEvents(limit, OnEvent(limit, s, e0), [e1]);
  }

  /** Distinct turns are needed: of a turn that ran twice, a larger window shows the older answer. */
  lemma RepeatedTurnDiffers(c: Classifier, file: seq<byte>, small: nat, large: nat, id: string, between: seq<Event>,
                            older: string, before: string, newer: string, after: string)
    requires small <= large && SmallRecords(WindowText(file, large))
    requires id != "" && !Blank(older) && !Blank(newer) && forall e <- between :: e == Other
    requires EventsOf(c, WindowText(file, small)) == Ran(id, newer, after)
    requires EventsOf(c, WindowText(file, large)) == Ran(id, older, before) + between + Ran(id, newer, after)
    ensures WindowOf(c, 1, file, small) == Ok(([Response(newer, after, id)], |file| > small))
    ensures WindowOf(c, 1, file, large) == Ok(([Response(older, before, id)], |file| > large))
  {
    hide EventsOf, SmallRecords, WindowText, Blank, Ran, ScanEvents;
    var events := WindowsNest(c, file, small, large);
    var first := ScanEvents(1, Scan(START, []), Ran(id, older, before));
    ScanConcat(1, Scan(START, []), Ran(id, older, before) + between, Ran(id, newer, after));
    ScanConcat(1, Scan(START, []), Ran(id, older, before), between);
    ScanOthers(1, first, between);
    RanOnce(Scan(START, []), id, older, before);
    RanOnce(Scan(START, []), id, newer, after);
    RanOnce(first, id, newer, after);
    assert Reverse([Response(newer, after, id)]) == [Response(newer, after, id)];
    assert Reverse([Response(older, before, id)]) == [Response(older, before, id)];
  }

  // ----- Turns that finish while another one is the last begun -----

  lemma EventsAfterOther(limit: nat, s: Scan, between: seq<Event>, e0: Event, e1: Event)
    requires forall e <- between :: e == Other
    ensures ScanEvents(limit, s, between + [e0, e1]) == OnEvent(limit, OnEvent(limit, s, e0), e1)
  {
    hide OnEvent, ScanEvents;
    ScanConcat(limit, s, between, [e0, e1]);
    ScanOthers(limit, s, between);
    TwoEvents(limit, s, e0, e1);
  }

  /**
   * The order of turns is needed: when a turn finishes that is not the one begun
   * last, a smaller window shows an answer that a larger one does not.
   */
  lemma OtherTurnDiffers(c: Classifier, limit: nat, file: seq<byte>, small: nat, large: nat, begun: string,
                         finished: string, between: seq<Event>, text: string, said: string, time: string)
    requires 0 < limit && small <= large && SmallRecords(WindowText(file, large))
    requires begun != "" && begun != finished && !Blank(text) && forall e <- between :: e == Other
    requires EventsOf(c, WindowText(file, small)) == [Message(text, said), Finished(finished, None, time)]
    requires EventsOf(c, WindowText(file, large))
             == [Started(begun)] + between + [Message(text, said), Finished(finished, None, time)]
    ensures WindowOf(c, limit, file, small) == Ok(([Response(text, said, "")], |file| > small))
    ensures WindowOf(c, limit, file, large) == Ok(([], |file| > large))
  {
    hide EventsOf, SmallRecords, WindowText, Blank, ScanEvents;
    var events := WindowsNest(c, file, small, large);
    var e0, e1 := Message(text, said), Finished(finished, None, time);
    TwoEvents(limit, Scan(START, []), e0, e1);
    assert [] + [Response(text, said, "")] == [Response(text, said, "")];
    var all := [Started(begun)] + between + [e0, e1];
    assert all == [Started(begun)] + (between + [e0, e1]);
    FirstEvent(limit, Started(begun), between + [e0, e1]);
    EventsAfterOther(limit, Scan(Head(None, begun), []), between, e0, e1);
    assert Reverse([Response(text, said, "")]) == [Response(text, said, "")];
  }

  lemma FirstEvent(limit: nat, e: Event, later: seq<Event>)
    ensures ScanEvents(limit, Scan(START, []), [e] + later)
            == ScanEvents(limit, OnEvent(limit, Scan(START, []), e), later)
  {
    hide OnEvent;
    assert ([e] + later)[1..] == later;
  }

  // ----- Two logs -----

  lemma OneRecord(c: Classifier, line: seq<byte>, rest: seq<byte>)
    requires NEWLINE !in line && |line| < MAX_RECORD_BYTES
    ensures EventsOf(c, line + [NEWLINE] + rest) == [c(line + [NEWLINE])] + EventsOf(c, rest)
    ensures SmallRecords(line + [NEWLINE] + rest) <==> SmallRecords(rest)
  {
    hide EventsOf, SmallRecords;
    var text := line + [NEWLINE] + rest;
    assert text[|line|] == NEWLINE && text[..|line| + 1] == line + [NEWLINE] && text[|line| + 1..] == rest;
    FirstSeparator(text, NEWLINE, |line|);
    EventsStep(c, text, |line|);
    SmallStep(text, |line|);
  }

  /** Records of the two example logs. */
  function Example(line: seq<byte>): Event {
    if line == [1, NEWLINE] then Started("t")
    else if line == [2, NEWLINE] then Finished("t", Some("old"), "1")
    else if line == [3, NEWLINE] then Finished("t", Some("new"), "2")
    else if line == [4, NEWLINE] then Message("text", "1")
    else if line == [5, NEWLINE] then Finished("u", None, "2")
    else Other
  }

  function Padding(): (r: seq<byte>)
    ensures |r| == INITIAL_TAIL_BYTES - 4 && NEWLINE !in r
  {
    seq(INITIAL_TAIL_BYTES - 4, _ => 0)
  }

  /** A log of which the first window sees the last two records only. */
  function Padded(front: seq<byte>, back: seq<byte>): seq<byte> {
    front + (Padding() + [NEWLINE] + back)
  }

  const AGAIN: seq<byte> := [1] + [NEWLINE] + ([3] + [NEWLINE] + [])
  const LATE: seq<byte> := [4] + [NEWLINE] + ([5] + [NEWLINE] + [])

  function ExampleLog(): seq<byte> {
    Padded([1] + [NEWLINE] + ([2] + [NEWLINE]), AGAIN)
  }

  function LateLog(): seq<byte> {
    Padded([1] + [NEWLINE], LATE)
  }

  /** Such a log: the first window is content with the newer answer, the largest one shows the older. */
  lemma GrowingWindowMissesOlder()
    ensures WindowOf(Example, 1, ExampleLog(), INITIAL_TAIL_BYTES) == Ok(([Response("new", "2", "t")], true))
    ensures WindowOf(Example, 1, ExampleLog(), MAX_TAIL_BYTES) == Ok(([Response("old", "1", "t")], false))
  {
    hide EventsOf, SmallRecords, WindowText, WindowOf, Blank, Padded, Padding;
    ExampleEvents();
    PaddedWindows([1] + [NEWLINE] + ([2] + [NEWLINE]), AGAIN);
    NotBlank();
    RepeatedTurnDiffers(Example, ExampleLog(), INITIAL_TAIL_BYTES, MAX_TAIL_BYTES, "t", [Other],
                        "old", "1", "new", "2");
  }

  /** Such a log: the first window is content with an answer that the largest one does not show. */
  lemma FirstWindowShowsMore()
    ensures WindowOf(Example, 1, LateLog(), INITIAL_TAIL_BYTES) == Ok(([Response("text", "1", "")], true))
    ensures WindowOf(Example, 1, LateLog(), MAX_TAIL_BYTES) == Ok(([], false))
  {
    hide EventsOf, SmallRecords, WindowText, WindowOf, Blank, Padded, Padding;
    LateEvents();
    PaddedWindows([1] + [NEWLINE], LATE);
    NotBlank();
    OtherTurnDiffers(Example, 1, LateLog(), INITIAL_TAIL_BYTES, MAX_TAIL_BYTES, "t", "u", [Other], "text", "1", "2");
  }

  lemma NotBlank()
    ensures !Blank("old") && !Blank("new") && !Blank("text")
  {
    assert "old"[0] in "old" && "new"[0] in "new" && "text"[0] in "text";
  }

  lemma PaddedEvents(back: seq<byte>)
    ensures EventsOf(Example, Padding() + [NEWLINE] + back) == [Other] + EventsOf(Example, back)
    ensures SmallRecords(Padding() + [NEWLINE] + back) <==> SmallRecords(back)
  {
    hide EventsOf, SmallRecords, Padding;
    OneRecord(Example, Padding(), back);
    assert |Padding() + [NEWLINE]| > 2;
  }

  lemma TwoRecords(a: byte, b: byte)
    requires a != NEWLINE && b != NEWLINE
    ensures var text := [a] + [NEWLINE] + ([b] + [NEWLINE] + []);
            EventsOf(Example, text) == [Example([a, NEWLINE]), Example([b, NEWLINE])] && SmallRecords(text)
  {
    hide EventsOf, SmallRecords, Example;
    NothingLeft(Example);
    OneRecord(Example, [b], []);
    OneRecord(Example, [a], [b] + [NEWLINE] + []);
    assert [a] + [NEWLINE] == [a, NEWLINE] && [b] + [NEWLINE] == [b, NEWLINE];
    assert [Example([a, NEWLINE])] + ([Example([b, NEWLINE])] + []) == [Example([a, NEWLINE]), Example([b, NEWLINE])];
  }

  lemma ExampleEvents()
    ensures EventsOf(Example, AGAIN) == Ran("t", "new", "2")
    ensures EventsOf(Example, ExampleLog()) == Ran("t", "old", "1") + [Other] + Ran("t", "new", "2")
    ensures SmallRecords(ExampleLog())
  {
    hide EventsOf, SmallRecords, Padding;
    var rest := Padding() + [NEWLINE] + AGAIN;
    TwoRecords(1, 3);
    PaddedEvents(AGAIN);
    OneRecord(Example, [2], rest);
    OneRecord(Example, [1], [2] + [NEWLINE] + rest);
    assert ExampleLog() == [1] + [NEWLINE] + ([2] + [NEWLINE] + rest);
    assert [1] + [NEWLINE] == [1, NEWLINE] && [2] + [NEWLINE] == [2, NEWLINE];
  }

  lemma LateEvents()
    ensures EventsOf(Example, LATE) == [Message("text", "1"), Finished("u", None, "2")]
    ensures EventsOf(Example, LateLog())
            == [Started("t")] + [Other] + [Message("text", "1"), Finished("u", None, "2")]
    ensures SmallRecords(LateLog())
  {
    hide EventsOf, SmallRecords, Padding;
    TwoRecords(4, 5);
    PaddedEvents(LATE);
    OneRecord(Example, [1], Padding() + [NEWLINE] + LATE);
    assert [1] + [NEWLINE] == [1, NEWLINE];
  }

  /** The first window begins inside the padding, and the largest holds the whole log. */
  lemma PaddedWindows(front: seq<byte>, back: seq<byte>)
    requires |back| == 4 && 0 < |front| < 8
    ensures |Padded(front, back)| == INITIAL_TAIL_BYTES + 1 + |front|
    ensures WindowText(Padded(front, back), INITIAL_TAIL_BYTES) == back
    ensures WindowText(Padded(front, back), MAX_TAIL_BYTES) == Padded(front, back)
  {
    hide Padding;
    var pad := Padding()[1..];
    var near := Padded(front, back)[|front| + 1..];
    assert near == pad + [NEWLINE] + back;
    assert NEWLINE !in pad by {
      assert forall b <- pad :: b in Padding();
    }
    assert near[|pad|] == NEWLINE && near[|pad| + 1..] == back;
    FirstSeparator(near, NEWLINE, |pad|);
  }

  /** Grows the window until it holds enough; the answers are those of one read at the largest window. */
  method ReadResponses(c: Classifier, limit: nat, file: seq<byte>) returns (r: Result<(seq<Response>, bool), Problem>)
    ensures GoodWindow(c, limit, file, MAX_TAIL_BYTES) ==>
              && r.Ok? && WindowOf(c, limit, file, MAX_TAIL_BYTES).Ok?
              && TextsOf(r.value) == TextsOf(WindowOf(c, limit, file, MAX_TAIL_BYTES).value)
    ensures exists tail :: INITIAL_TAIL_BYTES <= tail <= MAX_TAIL_BYTES && r == WindowOf(c, limit, file, tail)
              && (r.Ok? ==> |r.value.0| >= limit || !r.value.1 || tail == MAX_TAIL_BYTES)
    ensures var first := WindowOf(c, limit, file, INITIAL_TAIL_BYTES);
            first.Ok? && |first.value.0| >= limit ==> r == first
  {
    hide WindowOf, GoodWindow, TextsOf;
    var tail := INITIAL_TAIL_BYTES;
    while true
      invariant INITIAL_TAIL_BYTES <= tail <= MAX_TAIL_BYTES
      invariant tail > INITIAL_TAIL_BYTES ==>
                  var first := WindowOf(c, limit, file, INITIAL_TAIL_BYTES); !(first.Ok? && |first.value.0| >= limit)
      decreases MAX_TAIL_BYTES - tail
    {
      r := ReadResponseWindow(c, limit, file, tail);
      if GoodWindow(c, limit, file, MAX_TAIL_BYTES) {
        SmallerWindow(c, limit, file, tail, MAX_TAIL_BYTES);
      }
      if r.Err? || |r.value.0| >= limit || !r.value.1 || tail == MAX_TAIL_BYTES {
        return;
      }
      tail := if tail * 4 < MAX_TAIL_BYTES then tail * 4 else MAX_TAIL_BYTES;
    }
  }
}
