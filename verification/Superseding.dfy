// The listener that reads whiteboard sessions with one worker: a newer request
// of the same kind supersedes one that still waits, and every request received
// is answered once, superseded once, waiting, or being worked on.

module Superseding {
  import opened Basics

  datatype Request = Request(id: nat, provider: string, sessionId: string)

  /** One kind for all histories, and one per provider for recent sessions. */
  datatype Kind = History | Recent(provider: string)

  function KindOf(r: Request): Kind {
    if r.sessionId == "" then Recent(r.provider) else History
  }

  datatype Waiting = Waiting(recent: seq<Request>, history: Option<Request>)

  /** Position of the first waiting request of a provider. */
  function IndexOf(recent: seq<Request>, provider: string): (k: Option<nat>)
    ensures k.Some? ==> k.value < |recent| && recent[k.value].provider == provider
    ensures k.None? ==> forall r <- recent :: r.provider != provider
  {
    if recent == [] then None
    else if recent[0].provider == provider then Some(0)
    else match IndexOf(recent[1..], provider)
      case None => None
      case Some(k) => Some(k + 1)
  }

  lemma {:induction false} IndexIs(recent: seq<Request>, provider: string, k: nat)
    requires k <= |recent| && forall i | 0 <= i < k :: recent[i].provider != provider
    requires k < |recent| ==> recent[k].provider == provider
    ensures IndexOf(recent, provider) == if k < |recent| then Some(k) else None
  {
    if k > 0 {
      IndexIs(recent[1..], provider, k - 1);
    }
  }

  function Replaced(w: Waiting, r: Request): (Waiting, Option<Request>) {
    if r.sessionId == "" then
      match IndexOf(w.recent, r.provider)
      case None => (w.(recent := w.recent + [r]), None)
      case Some(k) => (w.(recent := w.recent[..k] + w.recent[k + 1..] + [r]), Some(w.recent[k]))
    else (w.(history := Some(r)), w.history)
  }

  function Taken(w: Waiting): (Waiting, Option<Request>) {
    if w.history.Some? then (w.(history := None), w.history)
    else if w.recent != [] then (w.(recent := w.recent[1..]), Some(w.recent[0]))
    else (w, None)
  }

  class PendingReads {
    var recent: seq<Request>
    var history: Option<Request>

    ghost function View(): Waiting
      reads this
    {
      Waiting(recent, history)
    }

    constructor ()
      ensures View() == Waiting([], None)
    {
      recent, history := [], None;
    }

    method Replace(r: Request) returns (replaced: Option<Request>)
      modifies this
      ensures (View(), replaced) == Replaced(old(View()), r)
    {
      if r.sessionId == "" {
        replaced := None;
        var k := 0;
        while k < |recent| && recent[k].provider != r.provider
          invariant k <= |recent| && recent == old(recent)
          invariant forall i | 0 <= i < k :: recent[i].provider != r.provider
        {
          k := k + 1;
        }
        IndexIs(recent, r.provider, k);
        if k < |recent| {
          replaced := Some(recent[k]);
          recent := recent[..k] + recent[k + 1..];
        }
        recent := recent + [r];
      } else {
        replaced := history;
        history := Some(r);
      }
    }

    /** A history goes first; recents go in the order of the queue. */
    method Take() returns (taken: Option<Request>)
      modifies this
      ensures (View(), taken) == Taken(old(View()))
      ensures old(history).Some? ==> taken == old(history) && history.None? && recent == old(recent)
      ensures old(history).None? && taken.Some? ==> [taken.value] + recent == old(recent)
      ensures taken.None? <==> old(history).None? && old(recent) == []
    {
      if history.Some? {
        taken := history;
        history := None;
      } else if recent != [] {
        taken := Some(recent[0]);
        recent := recent[1..];
      } else {
        taken := None;
      }
    }
  }

  // ----- The listener -----

  datatype Event = Receive(request: Request) | WorkerDone | Closed

  datatype Reply = Done(request: Request) | Superseded(request: Request, newer: Request)

  datatype Listener = Listener(waiting: Waiting, inFlight: Option<Request>, replies: seq<Reply>, stopped: bool)

  const IDLE: Listener := Listener(Waiting([], None), None, [], false)

  function OnEvent(s: Listener, e: Event): Listener {
    if s.stopped then s
    else match e
      case Receive(r) =>
        if s.inFlight.None? then s.(inFlight := Some(r))
        else
          var (waiting, replaced) := Replaced(s.waiting, r);
          s.(waiting := waiting, replies := s.replies + if replaced.Some? then [Superseded(replaced.value, r)] else [])
      case WorkerDone =>
        if s.inFlight.None? then s
        else
          var (waiting, next) := Taken(s.waiting);
          s.(waiting := waiting, inFlight := next, replies := s.replies + [Done(s.inFlight.value)])
      case Closed =>
        s.(inFlight := None, stopped := true,
           replies := s.replies + if s.inFlight.Some? then [Done(s.inFlight.value)] else [])
  }

  function Run(events: seq<Event>): Listener {
    if events == [] then IDLE else OnEvent(Run(events[..|events| - 1]), events[|events| - 1])
  }

  lemma RunStep(events: seq<Event>, i: nat)
    requires i < |events|
    ensures Run(events[..i + 1]) == OnEvent(Run(events[..i]), events[i])
  {
    assert events[..i + 1][..i] == events[..i];
  }

  /** The loop of the listener over what its channel and its worker do. */
  method Listen(events: seq<Event>) returns (replies: seq<Reply>)
    ensures replies == Run(events).replies
  {
    hide Run, Replaced, Taken;
    replies := [];
    var pending := new PendingReads();
    var worker: Option<Request> := None;
    var i := 0;
    assert Run([]) == IDLE by { RunOfNothing(); }
    assert events[..0] == [];
    while i < |events|
      invariant i <= |events| && fresh(pending)
      invariant Run(events[..i]) == Listener(pending.View(), worker, replies, false)
      invariant worker.None? ==> pending.View() == Waiting([], None)
    {
      RunStep(events, i);
      match events[i] {
      case Receive(r) =>
        if worker.None? {
          worker := Some(r);
        } else {
          var replaced := pending.Replace(r);
          if replaced.Some? {
            replies := replies + [Superseded(replaced.value, r)];
          }
        }
      case WorkerDone =>
        if worker.Some? {
          replies := replies + [Done(worker.value)];
          worker := pending.Take();
          TakenAll(Run(events[..i]).waiting);
        }
      case Closed =>
        if worker.Some? {
          replies := replies + [Done(worker.value)];
        }
        StoppedStays(events, i + 1);
        return;
      }
      i := i + 1;
    }
    assert events[..|events|] == events;
  }

  lemma RunOfNothing()
    ensures Run([]) == IDLE
  {
  }

  lemma TakenAll(w: Waiting)
    ensures Taken(w).1.None? ==> Taken(w).0 == w == Waiting([], None)
  {
  }

  lemma {:induction false} StoppedStays(events: seq<Event>, i: nat)
    requires i <= |events| && Run(events[..i]).stopped
    ensures Run(events) == Run(events[..i])
    decreases |events| - i
  {
    hide Run;
    if i < |events| {
      RunStep(events, i);
      StoppedStays(events, i + 1);
    } else {
      assert events[..i] == events;
    }
  }

  // ----- Every request is accounted for -----

  /** The requests taken from the channel, in order; a closed channel yields none. */
  function Received(events: seq<Event>): seq<Request> {
    if events == [] then []
    else
      var front, last := events[..|events| - 1], events[|events| - 1];
      Received(front) + if last.Receive? && !Run(front).stopped then [last.request] else []
  }

  function Replied(replies: seq<Reply>): multiset<Request> {
    if replies == [] then multiset{} else Replied(replies[..|replies| - 1]) + multiset{replies[|replies| - 1].request}
  }

  function Held(r: Option<Request>): multiset<Request> {
    if r.None? then multiset{} else multiset{r.value}
  }

  function Waits(w: Waiting): multiset<Request> {
    multiset(w.recent) + Held(w.history)
  }

  /** Answered, being worked on, or waiting. */
  function Accounted(s: Listener): multiset<Request> {
    Replied(s.replies) + Held(s.inFlight) + Waits(s.waiting)
  }

  lemma Shift(p: multiset<Request>, f: multiset<Request>, w: multiset<Request>, v: multiset<Request>,
              gone: multiset<Request>, r: multiset<Request>)
    requires v + gone == w + r
    ensures p + gone + f + v == p + f + w + r
  {
    forall x ensures (p + gone + f + v)[x] == (p + f + w + r)[x] {
      assert (v + gone)[x] == (w + r)[x];
    }
  }

  lemma RepliedOne(replies: seq<Reply>, r: Reply)
    ensures Replied(replies + [r]) == Replied(replies) + multiset{r.request}
    ensures Replied(replies + []) == Replied(replies)
  {
    assert (replies + [r])[..|replies|] == replies;
    assert replies + [] == replies;
  }

  lemma Moved(recent: seq<Request>, k: nat, r: Request)
    requires k < |recent|
    ensures multiset(recent[..k] + recent[k + 1..] + [r]) + multiset{recent[k]} == multiset(recent) + multiset{r}
  {
    assert recent == recent[..k] + [recent[k]] + recent[k + 1..];
  }

  lemma ReplacedKeeps(w: Waiting, r: Request)
    ensures var (v, gone) := Replaced(w, r);
            Waits(v) + Held(gone) == Waits(w) + multiset{r}
  {
    hide IndexOf;
    var k := IndexOf(w.recent, r.provider);
    if r.sessionId == "" {
      if k.Some? {
        Moved(w.recent, k.value, r);
      }
    }
  }

  lemma TakenKeeps(w: Waiting)
    ensures var (v, next) := Taken(w);
            Waits(v) + Held(next) == Waits(w)
  {
    if w.history.None? && w.recent != [] {
      assert w.recent == [w.recent[0]] + w.recent[1..];
    }
  }

  lemma ReceiveConserves(s: Listener, r: Request)
    requires !s.stopped
    ensures Accounted(OnEvent(s, Receive(r))) == Accounted(s) + multiset{r}
  {
    hide Replied, Replaced, Waits;
    var (v, replaced) := Replaced(s.waiting, r);
    if s.inFlight.Some? {
      ReplacedKeeps(s.waiting, r);
      Shift(Replied(s.replies), Held(s.inFlight), Waits(s.waiting), Waits(v), Held(replaced), multiset{r});
      if replaced.Some? {
        RepliedOne(s.replies, Superseded(replaced.value, r));
      } else {
        assert s.replies + [] == s.replies;
        assert Replied(s.replies) + Held(replaced) == Replied(s.replies);
      }
    }
  }

  lemma DoneConserves(s: Listener)
    requires !s.stopped
    ensures Accounted(OnEvent(s, WorkerDone)) == Accounted(s)
  {
    hide Replied, Taken, Waits;
    if s.inFlight.Some? {
      TakenKeeps(s.waiting);
      RepliedOne(s.replies, Done(s.inFlight.value));
    }
  }

  lemma EventConserves(s: Listener, e: Event)
    ensures Accounted(OnEvent(s, e))
            == Accounted(s) + if e.Receive? && !s.stopped then multiset{e.request} else multiset{}
  {
    hide Replied, Waits;
    if !s.stopped {
      match e
      case Receive(r) =>
        ReceiveConserves(s, r);
      case WorkerDone =>
        DoneConserves(s);
      case Closed =>
        if s.inFlight.Some? {
          RepliedOne(s.replies, Done(s.inFlight.value));
        } else {
          assert s.replies + [] == s.replies;
        }
    }
  }

  /** What was received is answered, in flight or waiting; what waits at a close is never answered. */
  lemma {:induction false} RequestsConserved(events: seq<Event>)
    ensures Accounted(Run(events)) == multiset(Received(events))
    ensures Run(events).stopped ==> Run(events).inFlight == None
  {
    hide Accounted, OnEvent;
    if events == [] {
      NothingYet();
    } else {
      var front, e := events[..|events| - 1], events[|events| - 1];
      RequestsConserved(front);
      EventConserves(Run(front), e);
      StoppedIsIdle(Run(front), e);
    }
  }

  lemma NothingYet()
    ensures Accounted(IDLE) == multiset{}
  {
  }

  lemma StoppedIsIdle(s: Listener, e: Event)
    requires s.stopped ==> s.inFlight.None?
    ensures OnEvent(s, e).stopped ==> OnEvent(s, e).inFlight.None?
  {
  }

  /** A request received once is answered at most once. */
  lemma AnsweredAtMostOnce(events: seq<Event>, r: Request)
    requires multiset(Received(events))[r] <= 1
    ensures Replied(Run(events).replies)[r] <= multiset(Received(events))[r]
    ensures Run(events).stopped && Run(events).waiting == Waiting([], None) ==>
              Replied(Run(events).replies)[r] == multiset(Received(events))[r]
  {
    hide Run, Received, Replied;
    RequestsConserved(events);
  }

  // ----- What waits is bounded, and superseded by newer requests of its kind only -----

  ghost predicate Bounded(w: Waiting) {
    && (forall r <- w.recent :: r.sessionId == "")
    && (forall i, j | 0 <= i < j < |w.recent| :: w.recent[i].provider != w.recent[j].provider)
    && (w.history.Some? ==> w.history.value.sessionId != "")
  }

  ghost predicate WorkingWhileWaiting(s: Listener) {
    !s.stopped && s.inFlight.None? ==> s.waiting == Waiting([], None)
  }

  ghost predicate In(events: seq<Event>, r: Request) {
    Receive(r) in events
  }

  /** Received earlier than another request of the same kind. */
  ghost predicate Older(events: seq<Event>, r: Request, newer: Request) {
    KindOf(r) == KindOf(newer)
    && exists i, j :: 0 <= i < j < |events| && events[i] == Receive(r) && events[j] == Receive(newer)
  }

  ghost predicate FromChannel(events: seq<Event>, s: Listener) {
    && (forall r <- s.waiting.recent :: In(events, r))
    && (s.waiting.history.Some? ==> In(events, s.waiting.history.value))
    && (forall x <- s.replies | x.Superseded? :: Older(events, x.request, x.newer))
  }

  lemma MoreEvents(events: seq<Event>, e: Event)
    ensures forall r :: In(events, r) ==> In(events + [e], r)
    ensures forall r, n :: Older(events, r, n) ==> Older(events + [e], r, n)
    ensures e.Receive? ==> In(events + [e], e.request)
    ensures e.Receive? ==>
              forall r | KindOf(r) == KindOf(e.request) && In(events, r) :: Older(events + [e], r, e.request)
  {
    var all := events + [e];
    forall r, n | Older(events, r, n) ensures Older(all, r, n) {
      var i, j :| 0 <= i < j < |events| && events[i] == Receive(r) && events[j] == Receive(n);
      assert all[i] == events[i] && all[j] == events[j];
    }
    if e.Receive? {
      forall r | KindOf(r) == KindOf(e.request) && In(events, r) ensures Older(all, r, e.request) {
        var i :| 0 <= i < |events| && events[i] == Receive(r);
        assert all[i] == Receive(r) && all[|events|] == Receive(e.request);
      }
    }
  }

  lemma ReplacedIs(w: Waiting, r: Request)
    requires Bounded(w)
    ensures var (v, replaced) := Replaced(w, r);
            && Bounded(v)
            && (forall x <- v.recent :: x in w.recent || x == r)
            && (v.history == w.history || v.history == Some(r))
            && (replaced.Some? ==> replaced.value in w.recent || w.history == replaced)
            && (replaced.Some? ==> KindOf(replaced.value) == KindOf(r))
  {
    var k := IndexOf(w.recent, r.provider);
    hide IndexOf;
    if r.sessionId == "" {
      if k.Some? {
        RestBounded(w.recent, k.value, r);
      } else {
        AddedBounded(w.recent, r);
      }
    }
  }

  lemma AddedBounded(recent: seq<Request>, r: Request)
    requires Bounded(Waiting(recent, None)) && r.sessionId == "" && forall x <- recent :: x.provider != r.provider
    ensures Bounded(Waiting(recent + [r], None)) && forall x <- recent + [r] :: x in recent || x == r
  {
  }

  lemma RestBounded(recent: seq<Request>, k: nat, r: Request)
    requires Bounded(Waiting(recent, None)) && r.sessionId == "" && k < |recent| && recent[k].provider == r.provider
    ensures var next := recent[..k] + recent[k + 1..] + [r];
            Bounded(Waiting(next, None)) && forall x <- next :: x in recent || x == r
  {
    var rest := recent[..k] + recent[k + 1..];
    forall j | 0 <= j < |rest| ensures rest[j] in recent && rest[j].provider != r.provider {
      assert rest[j] == if j < k then recent[j] else recent[j + 1];
    }
    assert Bounded(Waiting(rest, None));
    AddedBounded(rest, r);
  }

  lemma TakenIs(w: Waiting)
    requires Bounded(w)
    ensures var (v, next) := Taken(w);
            && Bounded(v) && (forall x <- v.recent :: x in w.recent) && (v.history == w.history || v.history.None?)
  {
  }

  /** At most one waiting history and one recent per provider; only newer requests of a kind supersede. */
  lemma {:induction false} OnlyNewerSupersedes(events: seq<Event>)
    ensures Bounded(Run(events).waiting) && WorkingWhileWaiting(Run(events))
    ensures FromChannel(events, Run(events))
  {
    if events != [] {
      hide Run, OnEvent, FromChannel, Bounded, WorkingWhileWaiting;
      var front, e := events[..|events| - 1], events[|events| - 1];
      OnlyNewerSupersedes(front);
      assert events == front + [e] && events[..|events|] == events;
      RunStep(events, |events| - 1);
      EventKeeps(front, Run(front), e);
    }
  }

  lemma EventKeeps(front: seq<Event>, s: Listener, e: Event)
    requires Bounded(s.waiting) && WorkingWhileWaiting(s) && FromChannel(front, s)
    ensures Bounded(OnEvent(s, e).waiting) && WorkingWhileWaiting(OnEvent(s, e))
            && FromChannel(front + [e], OnEvent(s, e))
  {
    hide In, Older, Replaced, Taken, Bounded;
    MoreEvents(front, e);
    TakenIs(s.waiting);
    TakenAll(s.waiting);
    if e.Receive? {
      ReplacedIs(s.waiting, e.request);
    }
  }

  // ----- The worker takes what waits in order of arrival -----

  /** The request was received at this position, and none of its kind after that. */
  ghost predicate NewestOfKind(events: seq<Event>, r: Request, at: nat) {
    at < |events| && events[at] == Receive(r)
    && forall m | at < m < |events| && events[m].Receive? :: KindOf(events[m].request) != KindOf(r)
  }

  /** What waits is the newest of its kind, and recents wait in the order they were received in. */
  ghost predicate InOrder(events: seq<Event>, w: Waiting, at: seq<nat>) {
    && |at| == |w.recent|
    && (forall k | 0 <= k < |at| :: NewestOfKind(events, w.recent[k], at[k]))
    && (forall j, k | 0 <= j < k < |at| :: at[j] < at[k])
    && (w.history.Some? ==> exists m :: NewestOfKind(events, w.history.value, m))
  }

  lemma StillNewest(events: seq<Event>, r: Request, at: nat, e: Event)
    requires NewestOfKind(events, r, at)
    requires e.Receive? ==> KindOf(e.request) != KindOf(r)
    ensures NewestOfKind(events + [e], r, at)
  {
    forall m | at < m < |events + [e]| && (events + [e])[m].Receive?
      ensures KindOf((events + [e])[m].request) != KindOf(r)
    {
      if m < |events| {
        assert (events + [e])[m] == events[m];
      }
    }
  }

  lemma NowNewest(events: seq<Event>, r: Request)
    ensures NewestOfKind(events + [Receive(r)], r, |events|)
  {
  }

  lemma OthersStillNewest(events: seq<Event>, w: Waiting, at: seq<nat>, r: Request)
    requires InOrder(events, w, at) && Bounded(w) && r.sessionId == ""
    ensures |at| == |w.recent|
    ensures var k, all := IndexOf(w.recent, r.provider), events + [Receive(r)];
            && (forall j | 0 <= j < |at| && Some(j) != k :: NewestOfKind(all, w.recent[j], at[j]))
            && (w.history.Some? ==> exists m :: NewestOfKind(all, w.history.value, m))
  {
    hide NewestOfKind;
    var k := IndexOf(w.recent, r.provider);
    forall j | 0 <= j < |at| && Some(j) != k ensures NewestOfKind(events + [Receive(r)], w.recent[j], at[j]) {
      assert w.recent[j] in w.recent;
      StillNewest(events, w.recent[j], at[j], Receive(r));
    }
    if w.history.Some? {
      var m :| NewestOfKind(events, w.history.value, m);
      StillNewest(events, w.history.value, m, Receive(r));
    }
  }

  lemma RecentInOrder(events: seq<Event>, w: Waiting, at: seq<nat>, r: Request)
    requires InOrder(events, w, at) && Bounded(w) && r.sessionId == ""
    ensures exists next :: InOrder(events + [Receive(r)], Replaced(w, r).0, next)
  {
    OthersStillNewest(events, w, at, r);
    NowNewest(events, r);
    PositionsBefore(events, w, at);
    hide NewestOfKind, IndexOf, InOrder;
    var all, k := events + [Receive(r)], IndexOf(w.recent, r.provider);
    if k.None? {
      AllInOrder(all, w, at);
      AddedInOrder(all, w, at, r, |events|);
      assert InOrder(all, Replaced(w, r).0, at + [|events|]);
    } else {
      var rest := Waiting(w.recent[..k.value] + w.recent[k.value + 1..], w.history);
      var left := at[..k.value] + at[k.value + 1..];
      TakenOut(all, w, at, k.value);
      AddedInOrder(all, rest, left, r, |events|);
      assert InOrder(all, Replaced(w, r).0, left + [|events|]);
    }
  }

  lemma AllInOrder(events: seq<Event>, w: Waiting, at: seq<nat>)
    requires |at| == |w.recent| && forall j | 0 <= j < |at| :: NewestOfKind(events, w.recent[j], at[j])
    requires forall i, j | 0 <= i < j < |at| :: at[i] < at[j]
    requires w.history.Some? ==> exists m :: NewestOfKind(events, w.history.value, m)
    ensures InOrder(events, w, at)
  {
    hide NewestOfKind;
  }

  lemma PositionsBefore(events: seq<Event>, w: Waiting, at: seq<nat>)
    requires InOrder(events, w, at)
    ensures |at| == |w.recent| && forall j | 0 <= j < |at| :: at[j] < |events|
    ensures forall j, k | 0 <= j < k < |at| :: at[j] < at[k]
  {
  }

  lemma AddedInOrder(events: seq<Event>, w: Waiting, at: seq<nat>, r: Request, last: nat)
    requires InOrder(events, w, at) && NewestOfKind(events, r, last)
    requires forall j | 0 <= j < |at| :: at[j] < last
    ensures InOrder(events, w.(recent := w.recent + [r]), at + [last])
  {
    hide NewestOfKind;
    forall k | 0 <= k < |at + [last]| ensures NewestOfKind(events, (w.recent + [r])[k], (at + [last])[k]) {
      if k < |at| {
        assert (w.recent + [r])[k] == w.recent[k] && (at + [last])[k] == at[k];
      }
    }
  }

  /** One request less: the others wait in the same order. */
  lemma TakenOut(events: seq<Event>, w: Waiting, at: seq<nat>, k: nat)
    requires |at| == |w.recent| && k < |at|
    requires forall j | 0 <= j < |at| && j != k :: NewestOfKind(events, w.recent[j], at[j])
    requires forall i, j | 0 <= i < j < |at| :: at[i] < at[j]
    requires w.history.Some? ==> exists m :: NewestOfKind(events, w.history.value, m)
    ensures InOrder(events, Waiting(w.recent[..k] + w.recent[k + 1..], w.history), at[..k] + at[k + 1..])
  {
    hide NewestOfKind;
    var rest, left := w.recent[..k] + w.recent[k + 1..], at[..k] + at[k + 1..];
    forall j | 0 <= j < |left| ensures NewestOfKind(events, rest[j], left[j]) {
      var from := if j < k then j else j + 1;
      assert rest[j] == w.recent[from] && left[j] == at[from];
    }
  }

  lemma HistoryInOrder(events: seq<Event>, w: Waiting, at: seq<nat>, r: Request)
    requires InOrder(events, w, at) && Bounded(w) && r.sessionId != ""
    ensures InOrder(events + [Receive(r)], Replaced(w, r).0, at)
  {
    hide NewestOfKind;
    forall j | 0 <= j < |at| ensures NewestOfKind(events + [Receive(r)], w.recent[j], at[j]) {
      assert w.recent[j] in w.recent;
      StillNewest(events, w.recent[j], at[j], Receive(r));
    }
    NowNewest(events, r);
  }

  lemma DoneInOrder(events: seq<Event>, w: Waiting, at: seq<nat>)
    requires InOrder(events, w, at)
    ensures InOrder(events + [WorkerDone], w, at)
    ensures exists next :: InOrder(events + [WorkerDone], Taken(w).0, next)
  {
    hide NewestOfKind;
    forall j | 0 <= j < |at| ensures NewestOfKind(events + [WorkerDone], w.recent[j], at[j]) {
      StillNewest(events, w.recent[j], at[j], WorkerDone);
    }
    if w.history.Some? {
      var m :| NewestOfKind(events, w.history.value, m);
      StillNewest(events, w.history.value, m, WorkerDone);
      assert InOrder(events + [WorkerDone], Taken(w).0, at);
    } else if w.recent != [] {
      TakenOut(events + [WorkerDone], w, at, 0);
      assert w.recent[..0] + w.recent[0 + 1..] == w.recent[1..];
      assert InOrder(events + [WorkerDone], Taken(w).0, at[..0] + at[0 + 1..]);
    } else {
      assert InOrder(events + [WorkerDone], Taken(w).0, at);
    }
  }

  lemma NothingInOrder(events: seq<Event>)
    ensures InOrder(events, Waiting([], None), [])
  {
  }

  /** While the channel is open, what waits is the newest of its kind, in order of arrival. */
  lemma {:induction false} WaitingIsNewest(events: seq<Event>)
    requires !Run(events).stopped
    ensures exists at :: InOrder(events, Run(events).waiting, at)
  {
    hide InOrder, Replaced, Taken, Bounded;
    NothingInOrder(events);
    if events != [] {
      var front, e := events[..|events| - 1], events[|events| - 1];
      WaitingIsNewest(front);
      OnlyNewerSupersedes(front);
      assert events == front + [e];
      var s := Run(front);
      var at :| InOrder(front, s.waiting, at);
      if e == WorkerDone {
        DoneInOrder(front, s.waiting, at);
      } else if e.request.sessionId == "" {
        RecentInOrder(front, s.waiting, at, e.request);
      } else {
        HistoryInOrder(front, s.waiting, at, e.request);
      }
    }
  }

  /** The worker goes on with a waiting history, and otherwise with the recent received first. */
  lemma ServedInOrder(events: seq<Event>)
    requires !Run(events).stopped && Run(events).inFlight.Some?
    ensures var w, next := Run(events).waiting, Run(events + [WorkerDone]).inFlight;
            && (w.history.Some? ==> next == w.history)
            && (w.history.None? && w.recent != [] ==>
                  exists at :: InOrder(events, w, at) && next == Some(events[at[0]].request)
                               && forall k | 0 < k < |at| :: at[0] < at[k])
            && (next.None? <==> w == Waiting([], None))
  {
    hide NewestOfKind;
    WaitingIsNewest(events);
    assert (events + [WorkerDone])[..|events|] == events;
    var w := Run(events).waiting;
    var at :| InOrder(events, w, at);
    if w.recent != [] {
      ReceivedAt(events, w.recent[0], at[0]);
    }
  }

  lemma ReceivedAt(events: seq<Event>, r: Request, at: nat)
    requires NewestOfKind(events, r, at)
    ensures at < |events| && events[at] == Receive(r)
  {
  }

  // ----- The worker gets through what waits -----

  function Pending(s: Listener): nat {
    |s.waiting.recent| + (if s.waiting.history.Some? then 1 else 0) + (if s.inFlight.Some? then 1 else 0)
  }

  function Drain(s: Listener, n: nat): Listener
    decreases n
  {
    if n == 0 then s else Drain(OnEvent(s, WorkerDone), n - 1)
  }

  /** Without new requests, one completion for each request pending leaves nobody unanswered. */
  lemma {:induction false} DrainAnswersAll(s: Listener)
    requires !s.stopped && WorkingWhileWaiting(s)
    ensures var r := Drain(s, Pending(s));
            Pending(r) == 0 && Replied(r.replies) == Accounted(s)
    decreases Pending(s)
  {
    hide OnEvent, Accounted, Replied, Pending, WorkingWhileWaiting;
    DrainStep(s);
    if Pending(s) > 0 {
      DrainAnswersAll(OnEvent(s, WorkerDone));
    }
  }

  lemma DrainStep(s: Listener)
    requires !s.stopped && WorkingWhileWaiting(s)
    ensures Pending(s) == 0 ==> Accounted(s) == Replied(s.replies)
    ensures var next := OnEvent(s, WorkerDone);
            Pending(s) > 0 ==> (!next.stopped && WorkingWhileWaiting(next) && Pending(next) == Pending(s) - 1
                                && Accounted(next) == Accounted(s))
  {
    hide Accounted, Replied;
    TakenAll(s.waiting);
    DoneConserves(s);
    if Pending(s) == 0 {
      NonePending(s);
    }
  }

  lemma NonePending(s: Listener)
    requires Pending(s) == 0
    ensures Accounted(s) == Replied(s.replies)
  {
    hide Replied;
    assert s.waiting == Waiting([], None) && s.inFlight == None;
  }
}
