// The refresh half of the hub's context actor: four loaders whose requests are
// coalesced, path generations that discard results of an earlier sessions file,
// and a revision that protects a manual reset edit from an older load.
// Handlers run one at a time; a load completes at any later step.

module RefreshActor {
  import opened Basics

  datatype Provider = Codex | Muse | Zcode | Recent

  /** One loaded row: an account, or a recent session. */
  datatype Account = Account(slot: string, manualReset: Option<int>)

  /** What the interface shows, and the sessions file it was computed for. */
  datatype Shown = Nothing | For(path: string, accounts: seq<Account>)

  /** Recents have a single flag; for them `refreshing` and `busy` are that flag. */
  datatype Loader = Loader(refreshing: bool, busy: bool, requests: seq<nat>, shown: Shown)

  datatype Loaders = Loaders(codex: Loader, muse: Loader, zcode: Loader, recent: Loader) {
    function At(p: Provider): Loader {
      match p case Codex => codex case Muse => muse case Zcode => zcode case Recent => recent
    }

    function With(p: Provider, l: Loader): (r: Loaders)
      ensures r.At(p) == l && forall q | q != p :: r.At(q) == At(q)
    {
      match p
      case Codex => this.(codex := l)
      case Muse => this.(muse := l)
      case Zcode => this.(zcode := l)
      case Recent => this.(recent := l)
    }
  }

  /** A load in flight, with what the actor knew when it began. */
  datatype Task = Task(provider: Provider, path: string, generation: nat, revision: nat)

  datatype Answer = Answer(id: nat, ok: bool)

  /** A manual reset that was set (or cleared) in a sessions file. */
  datatype Edit = Edit(path: string, value: Option<int>)

  datatype State = State(
    path: string, generation: nat, initialized: bool, busy: bool, loaders: Loaders,
    manualReset: Option<int>, revision: nat, tasks: seq<Task>, answered: seq<Answer>, edits: seq<Edit>)

  // ----- Pieces of a handler -----

  function Finish(s: State, id: nat, ok: bool): State {
    if id == 0 then s else s.(answered := s.answered + [Answer(id, ok)])
  }

  function Answers(ids: seq<nat>, ok: bool): (r: seq<Answer>)
    ensures |r| == |ids| && forall i | 0 <= i < |ids| :: r[i] == Answer(ids[i], ok)
  {
    seq(|ids|, i requires 0 <= i < |ids| => Answer(ids[i], ok))
  }

  function Emptied(l: Loader): Loader {
    l.(requests := [], shown := Nothing)
  }

  function AllEmptied(l: Loaders): (r: Loaders)
    ensures forall p: Provider :: r.At(p) == Emptied(l.At(p))
  {
    Loaders(Emptied(l.codex), Emptied(l.muse), Emptied(l.zcode), Emptied(l.recent))
  }

  function AllRequests(l: Loaders): seq<nat> {
    l.codex.requests + l.muse.requests + l.zcode.requests + l.recent.requests
  }

  function SetPath(s: State, path: string): State {
    var next := TrimSpace(path);
    if next == s.path then s
    else
      s.(path := next, generation := s.generation + 1, manualReset := None,
         answered := s.answered + Answers(AllRequests(s.loaders), false),
         loaders := AllEmptied(s.loaders))
  }

  function Override(s: State, path: Option<string>): State {
    if path.None? then s else SetPath(s, path.value)
  }

  function Push(s: State, p: Provider, id: nat): State {
    var l := s.loaders.At(p);
    if id == 0 then s else s.(loaders := s.loaders.With(p, l.(requests := l.requests + [id])))
  }

  /** Begins a load unless one is already in flight. */
  function Start(s: State, p: Provider): State {
    var l := s.loaders.At(p);
    if l.refreshing then s
    else s.(loaders := s.loaders.With(p, l.(refreshing := true, busy := true)),
            tasks := s.tasks + [Task(p, s.path, s.generation, s.revision)])
  }

  function RequestAccounts(s: State, p: Provider, path: Option<string>, id: nat): State {
    var l := s.loaders.At(p);
    if l.busy && !l.refreshing then Finish(s, id, false)
    else Start(Push(Override(s, path), p, id), p)
  }

  function RequestRecent(s: State, path: Option<string>, id: nat): State {
    if s.busy || !s.initialized then Finish(s, id, true)
    else
      var moved := Override(s, path);
      var pushed := Push(moved, Recent, id);
      Start(if moved.path != s.path then RequestAccounts(pushed, Codex, None, 0) else pushed, Recent)
  }

  function Request(s: State, p: Provider, path: Option<string>, id: nat): State {
    if p == Recent then RequestRecent(s, path, id) else RequestAccounts(s, p, path, id)
  }

  function SetResets(accounts: seq<Account>, reset: Option<int>): (r: seq<Account>)
    ensures |r| == |accounts|
    ensures forall i | 0 <= i < |r| :: r[i] == Account(accounts[i].slot, reset)
  {
    seq(|accounts|, i requires 0 <= i < |accounts| => accounts[i].(manualReset := reset))
  }

  /** Installs a result; for Codex the newer of edit and load decides the reset. */
  function Install(s: State, t: Task, accounts: seq<Account>): State {
    var l := s.loaders.At(t.provider);
    if t.provider != Codex then s.(loaders := s.loaders.With(t.provider, l.(shown := For(t.path, accounts))))
    else if t.revision != s.revision then
      s.(loaders := s.loaders.With(Codex, l.(shown := For(t.path, SetResets(accounts, s.manualReset)))))
    else
      s.(loaders := s.loaders.With(Codex, l.(shown := For(t.path, accounts))),
         manualReset := if accounts == [] then None else accounts[0].manualReset)
  }

  function AnswerAll(s: State, p: Provider, ok: bool): State {
    var l := s.loaders.At(p);
    s.(answered := s.answered + Answers(l.requests, ok), loaders := s.loaders.With(p, l.(requests := [])))
  }

  function Others(tasks: seq<Task>, k: nat): seq<Task>
    requires k < |tasks|
  {
    tasks[..k] + tasks[k + 1..]
  }

  /** The loader is free again and its task gone. */
  function Landed(s: State, k: nat): State
    requires k < |s.tasks|
  {
    var p := s.tasks[k].provider;
    s.(tasks := Others(s.tasks, k),
       loaders := s.loaders.With(p, s.loaders.At(p).(refreshing := false, busy := false)))
  }

  function Complete(s: State, k: nat, result: Option<seq<Account>>): State
    requires k < |s.tasks|
  {
    var t := s.tasks[k];
    var landed := Landed(s, k);
    if t.generation != s.generation then Request(landed, t.provider, None, 0)
    else AnswerAll(if result.Some? then Install(landed, t, result.value) else landed, t.provider, result.Some?)
  }

  function LoadConfig(s: State, path: Option<string>): State {
    if s.busy || !s.initialized then s else RequestAccounts(Override(s, path), Codex, None, 0)
  }

  function SaveConfig(s: State, path: string, itemsOk: bool): State {
    if !itemsOk then s
    else
      var moved := SetPath(s, path).(busy := false);
      if moved.path != s.path then RequestAccounts(moved, Codex, None, 0) else moved
  }

  function EditReset(s: State, path: string, value: Option<int>, ok: bool): State {
    var moved := SetPath(s, path);
    var l := moved.loaders.codex;
    if !ok then moved
    else
      moved.(revision := moved.revision + 1, manualReset := value, edits := moved.edits + [Edit(moved.path, value)],
             loaders := moved.loaders.With(Codex,
               if l.shown.Nothing? then l else l.(shown := For(l.shown.path, SetResets(l.shown.accounts, value)))))
  }

  /** Save, switch, rename or delete of a Codex account. */
  function EditAccounts(s: State, path: string, valid: bool, result: Option<seq<Account>>): State {
    if s.loaders.codex.busy || !valid then s
    else
      var moved := SetPath(s, path);
      if result.None? then moved
      else moved.(loaders := moved.loaders.With(Codex, moved.loaders.codex.(shown := For(moved.path, result.value))))
  }

  // ----- Messages and runs -----

  datatype Step =
    | Init(path: string)
    | Load(path: string, id: nat, ok: bool)
    | Save(path: string, id: nat, itemsOk: bool, ok: bool)
    | Ask(provider: Provider, path: string, id: nat)
    | EditManualReset(path: string, id: nat, value: Option<int>, ok: bool)
    | EditAccountFiles(path: string, id: nat, valid: bool, result: Option<seq<Account>>)
    | Completed(k: nat, result: Option<seq<Account>>)

  /** One handler, from the message to the next message. */
  function Do(s: State, step: Step): State {
    match step
    case Init(path) => LoadConfig(SetPath(s, path).(initialized := true), None)
    case Load(path, id, ok) => Finish(LoadConfig(s, Some(path)), id, s.busy || !s.initialized || ok)
    case Save(path, id, itemsOk, ok) => Finish(SaveConfig(s, path, itemsOk), id, itemsOk && ok)
    case Ask(p, path, id) => Request(s, p, Some(path), id)
    case EditManualReset(path, id, value, ok) => Finish(EditReset(s, path, value, ok), id, ok)
    case EditAccountFiles(path, id, valid, result) =>
      Finish(EditAccounts(s, path, valid, result), id, !s.loaders.codex.busy && valid && result.Some?)
    case Completed(k, result) => if k < |s.tasks| then Complete(s, k, result) else s
  }

  const IDLE: Loader := Loader(false, false, [], Nothing)
  const INITIAL: State := State("", 0, false, false, Loaders(IDLE, IDLE, IDLE, IDLE), None, 0, [], [], [])

  function RunFrom(s: State, steps: seq<Step>): State
    decreases |steps|
  {
    if steps == [] then s else RunFrom(Do(s, steps[0]), steps[1..])
  }

  // ----- The invariant between handlers -----

  ghost predicate InFlight(tasks: seq<Task>, p: Provider) {
    exists t <- tasks :: t.provider == p
  }

  /** One load in flight exactly when the loader says so, and whenever someone waits. */
  ghost predicate Coalesced(l: Loaders, tasks: seq<Task>, open: set<Provider>) {
    && (forall p: Provider :: l.At(p).busy == l.At(p).refreshing)
    && (forall p: Provider :: l.At(p).refreshing <==> InFlight(tasks, p))
    && (forall i, j | 0 <= i < j < |tasks| :: tasks[i].provider != tasks[j].provider)
    && (forall p: Provider | p !in open :: l.At(p).requests != [] ==> l.At(p).refreshing)
  }

  /** The generation determines the sessions file of a load. */
  ghost predicate TasksCurrent(tasks: seq<Task>, generation: nat, path: string) {
    forall t <- tasks :: t.generation <= generation && (t.generation == generation ==> t.path == path)
  }

  /** What is shown was computed for the current sessions file. */
  ghost predicate ShownCurrent(l: Loaders, path: string) {
    forall p: Provider :: l.At(p).shown.For? ==> l.At(p).shown.path == path
  }

  /** A load older than the last edit finds that edit in the actor. */
  ghost predicate EditKept(tasks: seq<Task>, generation: nat, edits: seq<Edit>, reset: Edit) {
    forall t <- tasks | t.provider == Codex && t.generation == generation ::
      && t.revision <= |edits|
      && (t.revision < |edits| ==> edits[|edits| - 1] == reset)
  }

  /** Holds between handlers for `open == {}`; inside one, an open queue may wait for its load. */
  ghost predicate Invariant(s: State, open: set<Provider>) {
    && !s.busy
    && s.revision == |s.edits|
    && (s.loaders.recent.refreshing || Recent in open ==> s.initialized)
    && Coalesced(s.loaders, s.tasks, open)
    && TasksCurrent(s.tasks, s.generation, s.path)
    && ShownCurrent(s.loaders, s.path)
    && EditKept(s.tasks, s.generation, s.edits, Edit(s.path, s.manualReset))
  }

  function Ids(answers: seq<Answer>): multiset<nat> {
    if answers == [] then multiset{} else Ids(answers[..|answers| - 1]) + multiset{answers[|answers| - 1].id}
  }

  function Waiting(l: Loaders): multiset<nat> {
    multiset(l.codex.requests) + multiset(l.muse.requests) + multiset(l.zcode.requests) + multiset(l.recent.requests)
  }

  /** Every request the actor has, answered or waiting. */
  function Accounted(s: State): multiset<nat> {
    Ids(s.answered) + Waiting(s.loaders)
  }

  function One(id: nat): multiset<nat> {
    if id == 0 then multiset{} else multiset{id}
  }

  // ----- Each piece keeps the invariant and loses no request -----

  lemma {:induction false} IdsConcat(a: seq<Answer>, b: seq<Answer>)
    ensures Ids(a + b) == Ids(a) + Ids(b)
  {
    if b == [] {
      assert a + b == a;
    } else {
      var front := b[..|b| - 1];
      assert (a + b)[..|a + b| - 1] == a + front;
      IdsConcat(a, front);
    }
  }

  lemma {:induction false} IdsOfAnswers(ids: seq<nat>, ok: bool)
    ensures Ids(Answers(ids, ok)) == multiset(ids)
  {
    if ids != [] {
      var front := ids[..|ids| - 1];
      IdsOfAnswers(front, ok);
      assert Answers(ids, ok)[..|ids| - 1] == Answers(front, ok);
      assert ids == front + [ids[|ids| - 1]];
    }
  }

  lemma WaitingWith(l: Loaders, p: Provider, x: Loader)
    ensures Waiting(l.With(p, x)) + multiset(l.At(p).requests) == Waiting(l) + multiset(x.requests)
  {
  }

  lemma Cancel(a: multiset<nat>, b: multiset<nat>, m: multiset<nat>, d: multiset<nat>)
    requires a + m == b + (m + d)
    ensures a == b + d
  {
    forall x ensures a[x] == (b + d)[x] {
      assert (a + m)[x] == (b + (m + d))[x];
    }
  }

  lemma FinishKeeps(s: State, id: nat, ok: bool, open: set<Provider>)
    requires Invariant(s, open)
    ensures Invariant(Finish(s, id, ok), open)
  {
    hide Coalesced, TasksCurrent, ShownCurrent, EditKept;
  }

  lemma FinishAccounts(s: State, id: nat, ok: bool)
    ensures Accounted(Finish(s, id, ok)) == Accounted(s) + One(id)
  {
    hide Waiting;
    IdsConcat(s.answered, [Answer(id, ok)]);
    assert Ids([Answer(id, ok)]) == multiset{id} by {
      assert [Answer(id, ok)][..0] == [];
    }
  }

  lemma SetPathKeeps(s: State, path: string, open: set<Provider>)
    requires Invariant(s, open)
    ensures Invariant(SetPath(s, path), open)
    ensures SetPath(s, path).tasks == s.tasks && SetPath(s, path).initialized == s.initialized
    ensures forall p: Provider :: SetPath(s, path).loaders.At(p).refreshing == s.loaders.At(p).refreshing
  {
    hide TrimSpace, InFlight;
    var r := SetPath(s, path);
  }

  lemma SetPathAccounts(s: State, path: string)
    ensures Accounted(SetPath(s, path)) == Accounted(s)
  {
    hide TrimSpace;
    var all := AllRequests(s.loaders);
    IdsConcat(s.answered, Answers(all, false));
    IdsOfAnswers(all, false);
  }

  /** Another sessions file: everyone who waits is told of the failure, and nothing is shown. */
  lemma ChangedPathAnswers(s: State, path: string, p: Provider, id: nat)
    requires TrimSpace(path) != s.path && id in s.loaders.At(p).requests
    ensures var r := SetPath(s, path);
            && r.generation == s.generation + 1 && s.answered <= r.answered && Answer(id, false) in r.answered
            && forall q: Provider :: r.loaders.At(q).requests == [] && r.loaders.At(q).shown.Nothing?
  {
    hide TrimSpace;
    var all := AllRequests(s.loaders);
    assert id in all;
    var i :| 0 <= i < |all| && all[i] == id;
    assert SetPath(s, path).answered[|s.answered| + i] == Answer(id, false);
  }

  lemma PushKeeps(s: State, p: Provider, id: nat)
    requires Invariant(s, {})
    requires p == Recent ==> s.initialized
    ensures Invariant(Push(s, p, id), {p})
    ensures Push(s, p, id).initialized == s.initialized
  {
    hide TasksCurrent, EditKept, InFlight;
  }

  lemma PushAccounts(s: State, p: Provider, id: nat)
    ensures Accounted(Push(s, p, id)) == Accounted(s) + One(id)
  {
    hide Waiting, Ids;
    var l := s.loaders.At(p);
    if id != 0 {
      var x := l.(requests := l.requests + [id]);
      WaitingWith(s.loaders, p, x);
      Cancel(Waiting(s.loaders.With(p, x)), Waiting(s.loaders), multiset(l.requests), multiset{id});
      assert Push(s, p, id).loaders == s.loaders.With(p, x);
    } else {
      assert Accounted(s) + One(id) == Accounted(s);
    }
  }

  lemma StartKeeps(s: State, p: Provider, open: set<Provider>)
    requires Invariant(s, open)
    requires p == Recent ==> s.initialized
    ensures Invariant(Start(s, p), open - {p})
    ensures Start(s, p).initialized == s.initialized
  {
    var r := Start(s, p);
    if !s.loaders.At(p).refreshing {
      var t := Task(p, s.path, s.generation, s.revision);
      assert r.tasks[|s.tasks|] == t;
      forall q: Provider ensures InFlight(r.tasks, q) <==> InFlight(s.tasks, q) || q == p {
        if InFlight(s.tasks, q) {
          var u :| u in s.tasks && u.provider == q;
          assert u in r.tasks;
        }
      }
      forall i | 0 <= i < |s.tasks| ensures s.tasks[i].provider != p {
        assert s.tasks[i] in s.tasks;
      }
    }
  }

  lemma StartAccounts(s: State, p: Provider)
    ensures Accounted(Start(s, p)) == Accounted(s)
  {
    hide Waiting, Ids;
    var l := s.loaders.At(p);
    var x := l.(refreshing := true, busy := true);
    WaitingWith(s.loaders, p, x);
    Cancel(Waiting(s.loaders.With(p, x)), Waiting(s.loaders), multiset(l.requests), multiset{});
    assert Waiting(s.loaders) + multiset{} == Waiting(s.loaders);
  }

  lemma OverrideKeeps(s: State, path: Option<string>, open: set<Provider>)
    requires Invariant(s, open)
    ensures Invariant(Override(s, path), open)
    ensures Override(s, path).initialized == s.initialized
    ensures Accounted(Override(s, path)) == Accounted(s)
  {
    hide Invariant, Accounted, SetPath;
    if path.Some? {
      SetPathKeeps(s, path.value, open);
      SetPathAccounts(s, path.value);
    }
  }

  /** A request joins the load in flight or starts one. */
  lemma PushStart(s: State, p: Provider, id: nat)
    requires Invariant(s, {})
    requires p == Recent ==> s.initialized
    ensures Invariant(Start(Push(s, p, id), p), {})
    ensures Accounted(Start(Push(s, p, id), p)) == Accounted(s) + One(id)
  {
    hide Invariant, Accounted, Start, Push;
    PushKeeps(s, p, id);
    PushAccounts(s, p, id);
    StartKeeps(Push(s, p, id), p, {p});
    StartAccounts(Push(s, p, id), p);
    assert {p} - {p} == {};
  }

  lemma NotRefused(s: State, p: Provider, open: set<Provider>)
    requires Invariant(s, open)
    ensures s.loaders.At(p).busy == s.loaders.At(p).refreshing && !s.busy
  {
  }

  lemma RequestAccountsKeeps(s: State, p: Provider, path: Option<string>, id: nat)
    requires Invariant(s, {}) && p != Recent
    ensures Invariant(RequestAccounts(s, p, path, id), {})
    ensures Accounted(RequestAccounts(s, p, path, id)) == Accounted(s) + One(id)
  {
    hide Invariant, Accounted, Start, Push, Override;
    NotRefused(s, p, {});
    OverrideKeeps(s, path, {});
    PushStart(Override(s, path), p, id);
  }

  /** A free loader whose queue waits starts again, for the current sessions file. */
  lemma RestartKeeps(s: State, p: Provider)
    requires Invariant(s, {p})
    ensures Invariant(Request(s, p, None, 0), {})
    ensures Accounted(Request(s, p, None, 0)) == Accounted(s)
  {
    hide Accounted, Start, Coalesced, TasksCurrent, ShownCurrent, EditKept;
    NotRefused(s, p, {p});
    StartKeeps(s, p, {p});
    StartAccounts(s, p);
    assert {p} - {p} == {};
  }

  lemma RequestRecentKeeps(s: State, path: Option<string>, id: nat)
    requires Invariant(s, {})
    ensures Invariant(RequestRecent(s, path, id), {})
    ensures Accounted(RequestRecent(s, path, id)) == Accounted(s) + One(id)
  {
    hide Invariant, Accounted, Start, Push, Override, RequestAccounts, Finish;
    NotRefused(s, Recent, {});
    if s.busy || !s.initialized {
      FinishKeeps(s, id, true, {});
      FinishAccounts(s, id, true);
    } else {
      var moved := Override(s, path);
      OverrideKeeps(s, path, {});
      if moved.path == s.path {
        PushStart(moved, Recent, id);
      } else {
        Reorder(moved, id);
      }
    }
  }

  /** Starting the Codex load between the push and the start of the recents changes neither. */
  lemma Reorder(s: State, id: nat)
    requires Invariant(s, {}) && s.initialized
    ensures Invariant(Start(RequestAccounts(Push(s, Recent, id), Codex, None, 0), Recent), {})
    ensures Accounted(Start(RequestAccounts(Push(s, Recent, id), Codex, None, 0), Recent)) == Accounted(s) + One(id)
  {
    hide Accounted, Start, Coalesced, TasksCurrent, ShownCurrent, EditKept;
    var pushed := Push(s, Recent, id);
    PushKeeps(s, Recent, id);
    PushAccounts(s, Recent, id);
    NotRefused(pushed, Codex, {Recent});
    StartKeeps(pushed, Codex, {Recent});
    StartAccounts(pushed, Codex);
    var started := Start(pushed, Codex);
    assert {Recent} - {Codex} == {Recent} && {Recent} - {Recent} == {};
    StartKeeps(started, Recent, {Recent});
    StartAccounts(started, Recent);
  }

  lemma OthersAreTasks(tasks: seq<Task>, k: nat)
    requires k < |tasks|
    ensures forall i | 0 <= i < |tasks| - 1 :: Others(tasks, k)[i] == tasks[if i < k then i else i + 1]
    ensures forall t <- Others(tasks, k) :: t in tasks
    ensures forall t <- tasks :: t in Others(tasks, k) || t == tasks[k]
  {
    forall i | 0 <= i < |tasks| && i != k ensures tasks[i] in Others(tasks, k) {
      assert Others(tasks, k)[if i < k then i else i - 1] == tasks[i];
    }
  }

  lemma OthersInFlight(tasks: seq<Task>, k: nat)
    requires k < |tasks|
    requires forall i, j | 0 <= i < j < |tasks| :: tasks[i].provider != tasks[j].provider
    ensures forall q: Provider :: InFlight(Others(tasks, k), q) <==> InFlight(tasks, q) && q != tasks[k].provider
    ensures forall t <- Others(tasks, k) :: t.provider != tasks[k].provider
  {
    OthersAreTasks(tasks, k);
    hide Others;
  }

  lemma LandedKeeps(s: State, k: nat)
    requires Invariant(s, {}) && k < |s.tasks|
    ensures var p := s.tasks[k].provider; Invariant(Landed(s, k), {p})
    ensures Landed(s, k).loaders.At(s.tasks[k].provider).requests == s.loaders.At(s.tasks[k].provider).requests
  {
    OthersInFlight(s.tasks, k);
    OthersAreTasks(s.tasks, k);
    assert s.tasks[k] in s.tasks && InFlight(s.tasks, s.tasks[k].provider);
    hide InFlight, Others;
  }

  lemma LandedAccounts(s: State, k: nat)
    requires k < |s.tasks|
    ensures Accounted(Landed(s, k)) == Accounted(s)
  {
    hide Waiting, Ids;
    var p := s.tasks[k].provider;
    SameWaiting(s.loaders, p, s.loaders.At(p).(refreshing := false, busy := false));
  }

  lemma SameWaiting(l: Loaders, p: Provider, x: Loader)
    requires x.requests == l.At(p).requests
    ensures Waiting(l.With(p, x)) == Waiting(l)
  {
  }

  lemma InstallKeeps(s: State, t: Task, accounts: seq<Account>)
    requires Invariant(s, {t.provider})
    requires t.path == s.path
    requires t.provider == Codex ==> forall u <- s.tasks :: u.provider != Codex
    ensures Invariant(Install(s, t, accounts), {t.provider})
    ensures Accounted(Install(s, t, accounts)) == Accounted(s)
    ensures Install(s, t, accounts).tasks == s.tasks
  {
    hide Ids, Waiting;
    var l := s.loaders.At(t.provider);
    SameWaiting(s.loaders, t.provider, l.(shown := For(t.path, accounts)));
    SameWaiting(s.loaders, t.provider, l.(shown := For(t.path, SetResets(accounts, s.manualReset))));
  }

  lemma AnswerAllKeeps(s: State, p: Provider, ok: bool)
    requires Invariant(s, {p})
    ensures Invariant(AnswerAll(s, p, ok), {})
  {
    hide InFlight;
  }

  lemma AnswerAllAccounts(s: State, p: Provider, ok: bool)
    ensures Accounted(AnswerAll(s, p, ok)) == Accounted(s)
  {
    hide Waiting, Ids;
    var l := s.loaders.At(p);
    WaitingWith(s.loaders, p, l.(requests := []));
    IdsConcat(s.answered, Answers(l.requests, ok));
    IdsOfAnswers(l.requests, ok);
    Moved(Ids(s.answered), multiset(l.requests), Waiting(s.loaders), Waiting(AnswerAll(s, p, ok).loaders));
  }

  lemma Moved(answered: multiset<nat>, m: multiset<nat>, before: multiset<nat>, after: multiset<nat>)
    requires after + m == before + multiset([])
    ensures answered + m + after == answered + before
  {
    forall x ensures (answered + m + after)[x] == (answered + before)[x] {
      assert (after + m)[x] == (before + multiset([]))[x];
    }
  }

  lemma CompleteKeeps(s: State, k: nat, result: Option<seq<Account>>)
    requires Invariant(s, {}) && k < |s.tasks|
    ensures Invariant(Complete(s, k, result), {})
    ensures Accounted(Complete(s, k, result)) == Accounted(s)
  {
    hide Accounted, Landed, Install, AnswerAll, Request;
    var t := s.tasks[k];
    var landed := Landed(s, k);
    LandedKeeps(s, k);
    LandedAccounts(s, k);
    LandedFields(s, k);
    hide Invariant;
    if t.generation != s.generation {
      RestartKeeps(landed, t.provider);
    } else {
      if result.Some? {
        TaskPath(s, k);
        InstallKeeps(landed, t, result.value);
      }
      var installed := if result.Some? then Install(landed, t, result.value) else landed;
      AnswerAllKeeps(installed, t.provider, result.Some?);
      AnswerAllAccounts(installed, t.provider, result.Some?);
    }
  }

  lemma LandedFields(s: State, k: nat)
    requires Invariant(s, {}) && k < |s.tasks|
    ensures Landed(s, k).path == s.path
    ensures forall u <- Landed(s, k).tasks :: u.provider != s.tasks[k].provider
  {
    OthersInFlight(s.tasks, k);
  }

  lemma TaskPath(s: State, k: nat)
    requires Invariant(s, {}) && k < |s.tasks| && s.tasks[k].generation == s.generation
    ensures s.tasks[k].path == s.path
  {
    assert s.tasks[k] in s.tasks;
  }

  lemma LoadConfigKeeps(s: State, path: Option<string>)
    requires Invariant(s, {})
    ensures Invariant(LoadConfig(s, path), {})
    ensures Accounted(LoadConfig(s, path)) == Accounted(s)
  {
    hide Invariant, Accounted, Override, RequestAccounts;
    if !s.busy && s.initialized {
      OverrideKeeps(s, path, {});
      RequestAccountsKeeps(Override(s, path), Codex, None, 0);
      assert Accounted(s) + One(0) == Accounted(s);
    }
  }

  lemma SaveConfigKeeps(s: State, path: string, itemsOk: bool)
    requires Invariant(s, {})
    ensures Invariant(SaveConfig(s, path, itemsOk), {})
    ensures Accounted(SaveConfig(s, path, itemsOk)) == Accounted(s)
  {
    hide Accounted, SetPath, RequestAccounts, Coalesced, TasksCurrent, ShownCurrent, EditKept;
    if itemsOk {
      SetPathKeeps(s, path, {});
      SetPathAccounts(s, path);
      assert SetPath(s, path).(busy := false) == SetPath(s, path);
      RequestAccountsKeeps(SetPath(s, path), Codex, None, 0);
      assert Accounted(s) + One(0) == Accounted(s);
    }
  }

  lemma EditResetKeeps(s: State, path: string, value: Option<int>, ok: bool)
    requires Invariant(s, {})
    ensures Invariant(EditReset(s, path, value, ok), {})
    ensures Accounted(EditReset(s, path, value, ok)) == Accounted(s)
  {
    hide SetPath, Ids, Waiting, InFlight;
    SetPathKeeps(s, path, {});
    SetPathAccounts(s, path);
    var moved := SetPath(s, path);
    var l := moved.loaders.codex;
    if l.shown.For? {
      SameWaiting(moved.loaders, Codex, l.(shown := For(l.shown.path, SetResets(l.shown.accounts, value))));
    }
    SameWaiting(moved.loaders, Codex, l);
  }

  lemma EditAccountsKeeps(s: State, path: string, valid: bool, result: Option<seq<Account>>)
    requires Invariant(s, {})
    ensures Invariant(EditAccounts(s, path, valid, result), {})
    ensures Accounted(EditAccounts(s, path, valid, result)) == Accounted(s)
  {
    hide SetPath, Ids, Waiting, InFlight;
    SetPathKeeps(s, path, {});
    SetPathAccounts(s, path);
    var moved := SetPath(s, path);
    if result.Some? {
      SameWaiting(moved.loaders, Codex, moved.loaders.codex.(shown := For(moved.path, result.value)));
    }
  }

  // ----- Whole runs -----

  function Asked(step: Step): multiset<nat> {
    match step
    case Init(_) => multiset{}
    case Completed(_, _) => multiset{}
    case Load(_, id, _) => One(id)
    case Save(_, id, _, _) => One(id)
    case Ask(_, _, id) => One(id)
    case EditManualReset(_, id, _, _) => One(id)
    case EditAccountFiles(_, id, _, _) => One(id)
  }

  function AllAsked(steps: seq<Step>): multiset<nat> {
    if steps == [] then multiset{} else Asked(steps[0]) + AllAsked(steps[1..])
  }

  lemma DoKeeps(s: State, step: Step)
    requires Invariant(s, {})
    ensures Invariant(Do(s, step), {})
    ensures Accounted(Do(s, step)) == Accounted(s) + Asked(step)
  {
    hide Accounted, Invariant, SetPath, LoadConfig, SaveConfig, EditReset;
    hide EditAccounts, RequestAccounts, RequestRecent, Complete, Finish;
    match step
    case Init(path) =>
      SetPathKeeps(s, path, {});
      SetPathAccounts(s, path);
      Initialize(SetPath(s, path));
      LoadConfigKeeps(SetPath(s, path).(initialized := true), None);
    case Load(path, id, ok) =>
      LoadConfigKeeps(s, Some(path));
      FinishBoth(LoadConfig(s, Some(path)), id, s.busy || !s.initialized || ok);
    case Save(path, id, itemsOk, ok) =>
      SaveConfigKeeps(s, path, itemsOk);
      FinishBoth(SaveConfig(s, path, itemsOk), id, itemsOk && ok);
    case Ask(p, path, id) =>
      if p == Recent {
        RequestRecentKeeps(s, Some(path), id);
      } else {
        RequestAccountsKeeps(s, p, Some(path), id);
      }
    case EditManualReset(path, id, value, ok) =>
      EditResetKeeps(s, path, value, ok);
      FinishBoth(EditReset(s, path, value, ok), id, ok);
    case EditAccountFiles(path, id, valid, result) =>
      EditAccountsKeeps(s, path, valid, result);
      FinishBoth(EditAccounts(s, path, valid, result), id, !s.loaders.codex.busy && valid && result.Some?);
    case Completed(k, result) =>
      if k < |s.tasks| {
        CompleteKeeps(s, k, result);
      }
  }

  lemma FinishBoth(s: State, id: nat, ok: bool)
    requires Invariant(s, {})
    ensures Invariant(Finish(s, id, ok), {})
    ensures Accounted(Finish(s, id, ok)) == Accounted(s) + One(id)
  {
    FinishKeeps(s, id, ok, {});
    FinishAccounts(s, id, ok);
  }

  lemma Initialize(s: State)
    requires Invariant(s, {})
    ensures Invariant(s.(initialized := true), {})
    ensures Accounted(s.(initialized := true)) == Accounted(s)
  {
    hide Coalesced, TasksCurrent, ShownCurrent, EditKept;
  }

  /** Over every run: nothing is lost, and what waits has exactly one load in flight. */
  lemma {:induction false} RunKeeps(s: State, steps: seq<Step>)
    requires Invariant(s, {})
    ensures Invariant(RunFrom(s, steps), {})
    ensures Accounted(RunFrom(s, steps)) == Accounted(s) + AllAsked(steps)
    decreases |steps|
  {
    hide Invariant, Accounted, Do;
    if steps != [] {
      DoKeeps(s, steps[0]);
      RunKeeps(Do(s, steps[0]), steps[1..]);
    }
  }

  function Reached(steps: seq<Step>): State {
    RunFrom(INITIAL, steps)
  }

  lemma InitialInvariant()
    ensures Invariant(INITIAL, {}) && Accounted(INITIAL) == multiset{}
  {
  }

  /** The invariant of every reachable state, and conservation of requests. */
  lemma ReachedKeeps(steps: seq<Step>)
    ensures Invariant(Reached(steps), {})
    ensures Accounted(Reached(steps)) == AllAsked(steps)
  {
    hide Invariant, Accounted, RunFrom;
    InitialInvariant();
    RunKeeps(INITIAL, steps);
  }

  /** Requests asked once are answered at most once, and otherwise still wait; none is invented. */
  lemma AnsweredOnce(steps: seq<Step>, id: nat)
    requires AllAsked(steps)[id] <= 1
    ensures var s := Reached(steps);
            Ids(s.answered)[id] + Waiting(s.loaders)[id] == AllAsked(steps)[id] <= 1
  {
    hide Reached, Invariant, Ids, Waiting, AllAsked;
    ReachedKeeps(steps);
  }

  /** Whoever waits has exactly one load in flight, and the stale restart is never swallowed. */
  lemma WaitingMeansOneLoad(steps: seq<Step>, p: Provider)
    requires Reached(steps).loaders.At(p).requests != []
    ensures exists k | 0 <= k < |Reached(steps).tasks| ::
              && Reached(steps).tasks[k].provider == p
              && forall j | 0 <= j < |Reached(steps).tasks| && j != k :: Reached(steps).tasks[j].provider != p
    ensures !Reached(steps).busy && (p == Recent ==> Reached(steps).initialized)
  {
    hide Reached, Accounted;
    ReachedKeeps(steps);
    var s := Reached(steps);
    assert InFlight(s.tasks, p);
    var k :| 0 <= k < |s.tasks| && s.tasks[k].provider == p;
  }

  /** In every reachable state the interface shows results for the current sessions file only. */
  lemma NothingStaleShown(steps: seq<Step>, p: Provider)
    ensures var s := Reached(steps); s.loaders.At(p).shown.For? ==> s.loaders.At(p).shown.path == s.path
  {
    hide Reached, Accounted;
    ReachedKeeps(steps);
  }

  /** A completion of an older generation shows nothing and answers nobody; it only starts again. */
  lemma StaleOnlyRestarts(steps: seq<Step>, k: nat, result: Option<seq<Account>>)
    requires k < |Reached(steps).tasks| && Reached(steps).tasks[k].generation != Reached(steps).generation
    ensures var s, p := Reached(steps), Reached(steps).tasks[k].provider;
            Do(s, Completed(k, result))
            == s.(tasks := Others(s.tasks, k) + [Task(p, s.path, s.generation, s.revision)])
  {
    hide Reached, Accounted, Invariant, Request, Landed;
    ReachedKeeps(steps);
    RestartExactly(Reached(steps), k);
  }

  /** When a manual reset was edited after the load began, every installed account carries the last edit. */
  lemma EditSurvivesOlderLoad(steps: seq<Step>, k: nat, accounts: seq<Account>)
    requires k < |Reached(steps).tasks| && Reached(steps).tasks[k].provider == Codex
    requires Reached(steps).tasks[k].generation == Reached(steps).generation
    requires Reached(steps).tasks[k].revision < |Reached(steps).edits|
    ensures var s := Reached(steps);
            && s.edits[|s.edits| - 1].path == s.path
            && Do(s, Completed(k, Some(accounts))).loaders.codex.shown
               == For(s.path, SetResets(accounts, s.edits[|s.edits| - 1].value))
  {
    hide Reached, Accounted, Invariant, Complete;
    ReachedKeeps(steps);
    InstallsLastEdit(Reached(steps), k, accounts);
  }

  lemma InstallsLastEdit(s: State, k: nat, accounts: seq<Account>)
    requires Invariant(s, {}) && k < |s.tasks| && s.tasks[k].provider == Codex
    requires s.tasks[k].generation == s.generation && s.tasks[k].revision < |s.edits|
    ensures s.edits[|s.edits| - 1].path == s.path
    ensures Complete(s, k, Some(accounts)).loaders.codex.shown
            == For(s.path, SetResets(accounts, s.edits[|s.edits| - 1].value))
  {
    hide Coalesced, ShownCurrent;
    assert s.tasks[k] in s.tasks;
  }

  /**
   * An edit of the manual reset shows on every Codex account at once, and again
   * when a load that was in flight at the time lands; a failed edit sets nothing.
   */
  lemma EditReachesAccounts(steps: seq<Step>, path: string, id: nat, value: Option<int>, ok: bool)
    ensures var s, r := Reached(steps), Reached(steps + [EditManualReset(path, id, value, ok)]);
            && r.path == TrimSpace(path)
            && r.revision == s.revision + (if ok then 1 else 0)
            && (!ok ==> r.edits == s.edits && (r.path == s.path ==> r.loaders == s.loaders))
            && (ok ==>
                  && r.manualReset == value
                  && (r.loaders.codex.shown.For? ==>
                        forall account <- r.loaders.codex.shown.accounts :: account.manualReset == value)
                  && (r.path == s.path && s.loaders.codex.shown.For? ==>
                        r.loaders.codex.shown == For(s.path, SetResets(s.loaders.codex.shown.accounts, value)))
                  && (forall k, accounts | 0 <= k < |r.tasks| && r.tasks[k].provider == Codex
                                           && r.tasks[k].generation == r.generation ::
                        Do(r, Completed(k, Some(accounts))).loaders.codex.shown
                        == For(r.path, SetResets(accounts, value))))
  {
    hide Invariant, Accounted, Reached, Do;
    ReachedKeeps(steps);
    OneStepMore(steps, EditManualReset(path, id, value, ok));
    EditAtOnce(Reached(steps), path, id, value, ok);
    if ok {
      var r := Do(Reached(steps), EditManualReset(path, id, value, ok));
      DoKeeps(Reached(steps), EditManualReset(path, id, value, ok));
      forall k, accounts | 0 <= k < |r.tasks| && r.tasks[k].provider == Codex && r.tasks[k].generation == r.generation
        ensures Do(r, Completed(k, Some(accounts))).loaders.codex.shown == For(r.path, SetResets(accounts, value))
      {
        OlderLoadLands(Reached(steps), path, id, value, k, accounts);
      }
    }
  }

  lemma {:induction false} RunOneMore(s: State, steps: seq<Step>, step: Step)
    ensures RunFrom(s, steps + [step]) == Do(RunFrom(s, steps), step)
    decreases |steps|
  {
    hide Do;
    if steps != [] {
      assert (steps + [step])[1..] == steps[1..] + [step];
      RunOneMore(Do(s, steps[0]), steps[1..], step);
    }
  }

  lemma OneStepMore(steps: seq<Step>, step: Step)
    ensures Reached(steps + [step]) == Do(Reached(steps), step)
  {
    hide Do, RunFrom;
    RunOneMore(INITIAL, steps, step);
  }

  lemma EditAtOnce(s: State, path: string, id: nat, value: Option<int>, ok: bool)
    requires Invariant(s, {})
    ensures var r := Do(s, EditManualReset(path, id, value, ok));
            && r.path == TrimSpace(path)
            && r.revision == s.revision + (if ok then 1 else 0)
            && (!ok ==> r.edits == s.edits && (r.path == s.path ==> r.loaders == s.loaders))
            && (ok ==>
                  && r.manualReset == value && r.edits == s.edits + [Edit(r.path, value)]
                  && (r.loaders.codex.shown.For? ==>
                        forall account <- r.loaders.codex.shown.accounts :: account.manualReset == value)
                  && (r.path == s.path && s.loaders.codex.shown.For? ==>
                        r.loaders.codex.shown == For(s.path, SetResets(s.loaders.codex.shown.accounts, value))))
  {
    hide Coalesced, TasksCurrent, EditKept, TrimSpace;
    assert s.loaders.codex == s.loaders.At(Codex);
  }

  /** A load in flight during an edit began under an earlier revision. */
  lemma OlderLoadLands(s: State, path: string, id: nat, value: Option<int>, k: nat, accounts: seq<Account>)
    requires Invariant(s, {})
    requires var r := Do(s, EditManualReset(path, id, value, true));
             k < |r.tasks| && r.tasks[k].provider == Codex && r.tasks[k].generation == r.generation
    ensures var r := Do(s, EditManualReset(path, id, value, true));
            Do(r, Completed(k, Some(accounts))).loaders.codex.shown == For(r.path, SetResets(accounts, value))
  {
    hide Accounted, Complete, Finish, EditReset, Invariant;
    var r := Do(s, EditManualReset(path, id, value, true));
    EditAtOnce(s, path, id, value, true);
    DoKeeps(s, EditManualReset(path, id, value, true));
    EditIsNewer(s, path, id, value, k);
    hide Do;
    InstallsLastEdit(r, k, accounts);
    CompletesTask(r, k, accounts);
  }

  lemma CompletesTask(r: State, k: nat, accounts: seq<Account>)
    requires k < |r.tasks|
    ensures Do(r, Completed(k, Some(accounts))) == Complete(r, k, Some(accounts))
  {
  }

  lemma EditIsNewer(s: State, path: string, id: nat, value: Option<int>, k: nat)
    requires Invariant(s, {})
    requires var r := Do(s, EditManualReset(path, id, value, true));
             k < |r.tasks| && r.tasks[k].provider == Codex && r.tasks[k].generation == r.generation
    ensures var r := Do(s, EditManualReset(path, id, value, true));
            r.tasks[k].revision < |r.edits|
  {
    hide Coalesced, TrimSpace;
    var moved := SetPath(s, path);
    SetPathKeeps(s, path, {});
    assert moved.tasks[k] in moved.tasks;
  }

  lemma RestartExactly(s: State, k: nat)
    requires Invariant(s, {}) && k < |s.tasks|
    ensures var p := s.tasks[k].provider;
            Request(Landed(s, k), p, None, 0)
            == s.(tasks := Others(s.tasks, k) + [Task(p, s.path, s.generation, s.revision)])
  {
    var p := s.tasks[k].provider;
    assert s.tasks[k] in s.tasks && InFlight(s.tasks, p);
    LandedKeeps(s, k);
    NotRefused(Landed(s, k), p, {p});
    var l := s.loaders.At(p);
    assert l.refreshing && l.busy;
    assert s.loaders.With(p, l.(refreshing := false, busy := false)).With(p, l) == s.loaders;
    hide Invariant;
  }

  // ----- Two completions are enough -----

  predicate Completes(s: State, step: Step, p: Provider) {
    step.Completed? && step.k < |s.tasks| && s.tasks[step.k].provider == p
  }

  function Completions(s: State, steps: seq<Step>, p: Provider): nat
    decreases |steps|
  {
    if steps == [] then 0
    else (if Completes(s, steps[0], p) then 1 else 0) + Completions(Do(s, steps[0]), steps[1..], p)
  }

  /** The provider's load in flight is for the current sessions file. */
  ghost predicate Fresh(s: State, p: Provider) {
    exists t <- s.tasks :: t.provider == p && t.generation == s.generation
  }

  ghost predicate Answered(s: State, id: nat) {
    exists a <- s.answered :: a.id == id
  }

  /** Time goes on; while the generation stays, nothing of this provider is taken away. */
  ghost predicate Forward(s: State, r: State, p: Provider) {
    && s.generation <= r.generation && s.answered <= r.answered
    && (r.generation == s.generation ==>
          && (forall id <- s.loaders.At(p).requests :: id in r.loaders.At(p).requests)
          && (forall t <- s.tasks | t.provider == p :: t in r.tasks))
  }

  lemma ForwardTwice(a: State, b: State, c: State, p: Provider)
    requires Forward(a, b, p) && Forward(b, c, p)
    ensures Forward(a, c, p)
  {
  }

  lemma OverrideForward(s: State, path: Option<string>, p: Provider)
    ensures Forward(s, Override(s, path), p)
  {
    hide TrimSpace;
  }

  lemma PushForward(s: State, q: Provider, id: nat, p: Provider)
    ensures Forward(s, Push(s, q, id), p)
  {
  }

  lemma StartForward(s: State, q: Provider, p: Provider)
    ensures Forward(s, Start(s, q), p)
  {
  }

  lemma FinishForward(s: State, id: nat, ok: bool, p: Provider)
    ensures Forward(s, Finish(s, id, ok), p)
  {
  }

  lemma AccountsForward(s: State, q: Provider, path: Option<string>, id: nat, p: Provider)
    ensures Forward(s, RequestAccounts(s, q, path, id), p)
  {
    hide Forward, Finish, Override, Push, Start;
    FinishForward(s, id, false, p);
    var moved := Override(s, path);
    OverrideForward(s, path, p);
    PushForward(moved, q, id, p);
    StartForward(Push(moved, q, id), q, p);
    ForwardTwice(s, moved, Push(moved, q, id), p);
    ForwardTwice(s, Push(moved, q, id), Start(Push(moved, q, id), q), p);
  }

  lemma RecentForward(s: State, path: Option<string>, id: nat, p: Provider)
    ensures Forward(s, RequestRecent(s, path, id), p)
  {
    hide Forward, Finish, Override, Push, Start, RequestAccounts;
    FinishForward(s, id, true, p);
    var moved := Override(s, path);
    var pushed := Push(moved, Recent, id);
    var other := RequestAccounts(pushed, Codex, None, 0);
    OverrideForward(s, path, p);
    PushForward(moved, Recent, id, p);
    ForwardTwice(s, moved, pushed, p);
    AccountsForward(pushed, Codex, None, 0, p);
    ForwardTwice(s, pushed, other, p);
    StartForward(pushed, Recent, p);
    StartForward(other, Recent, p);
    ForwardTwice(s, pushed, Start(pushed, Recent), p);
    ForwardTwice(s, other, Start(other, Recent), p);
  }

  lemma RequestForward(s: State, q: Provider, path: Option<string>, id: nat, p: Provider)
    ensures Forward(s, Request(s, q, path, id), p)
  {
    hide Forward, RequestAccounts, RequestRecent;
    AccountsForward(s, q, path, id, p);
    RecentForward(s, path, id, p);
  }

  lemma LoadConfigForward(s: State, path: Option<string>, p: Provider)
    ensures Forward(s, LoadConfig(s, path), p)
  {
    hide Override, RequestAccounts;
    OverrideForward(s, path, p);
    AccountsForward(Override(s, path), Codex, None, 0, p);
    ForwardTwice(s, Override(s, path), RequestAccounts(Override(s, path), Codex, None, 0), p);
  }

  lemma SaveConfigForward(s: State, path: string, itemsOk: bool, p: Provider)
    ensures Forward(s, SaveConfig(s, path, itemsOk), p)
  {
    hide SetPath, RequestAccounts;
    OverrideForward(s, Some(path), p);
    var moved := SetPath(s, path).(busy := false);
    AccountsForward(moved, Codex, None, 0, p);
    ForwardTwice(s, moved, RequestAccounts(moved, Codex, None, 0), p);
  }

  lemma EditsForward(s: State, path: string, value: Option<int>, ok: bool, valid: bool,
                     result: Option<seq<Account>>, p: Provider)
    ensures Forward(s, EditReset(s, path, value, ok), p)
    ensures Forward(s, EditAccounts(s, path, valid, result), p)
  {
    hide SetPath;
    OverrideForward(s, Some(path), p);
  }

  /** A load of another provider that lands leaves this provider alone. */
  lemma OthersLand(s: State, k: nat, result: Option<seq<Account>>, p: Provider)
    requires k < |s.tasks| && s.tasks[k].provider != p
    ensures Forward(s, Complete(s, k, result), p)
  {
    hide Request, RequestAccounts, RequestRecent;
    var q := s.tasks[k].provider;
    var landed := Landed(s, k);
    OthersAreTasks(s.tasks, k);
    hide Others;
    RequestForward(landed, q, None, 0, p);
    ForwardTwice(s, landed, Request(landed, q, None, 0), p);
  }

  /** Any step but a completion of this provider. */
  lemma StepForward(s: State, step: Step, p: Provider)
    requires !Completes(s, step, p)
    ensures Forward(s, Do(s, step), p)
  {
    hide Forward, SetPath, LoadConfig, SaveConfig, EditReset, EditAccounts, Request, Complete, Finish;
    match step
    case Init(path) =>
      var moved := SetPath(s, path);
      OverrideForward(s, Some(path), p);
      SameButInitialized(s, moved, p);
      LoadConfigForward(moved.(initialized := true), None, p);
      ForwardTwice(s, moved.(initialized := true), LoadConfig(moved.(initialized := true), None), p);
    case Load(path, id, ok) =>
      LoadConfigForward(s, Some(path), p);
      ThenFinish(s, LoadConfig(s, Some(path)), id, s.busy || !s.initialized || ok, p);
    case Save(path, id, itemsOk, ok) =>
      SaveConfigForward(s, path, itemsOk, p);
      ThenFinish(s, SaveConfig(s, path, itemsOk), id, itemsOk && ok, p);
    case Ask(q, path, id) =>
      RequestForward(s, q, Some(path), id, p);
    case EditManualReset(path, id, value, ok) =>
      EditsForward(s, path, value, ok, false, None, p);
      ThenFinish(s, EditReset(s, path, value, ok), id, ok, p);
    case EditAccountFiles(path, id, valid, result) =>
      EditsForward(s, path, None, false, valid, result, p);
      ThenFinish(s, EditAccounts(s, path, valid, result), id, !s.loaders.codex.busy && valid && result.Some?, p);
    case Completed(k, result) =>
      if k < |s.tasks| {
        OthersLand(s, k, result, p);
      } else {
        Still(s, p);
      }
  }

  lemma Still(s: State, p: Provider)
    ensures Forward(s, s, p)
  {
  }

  lemma SameButInitialized(s: State, moved: State, p: Provider)
    requires Forward(s, moved, p)
    ensures Forward(s, moved.(initialized := true), p)
  {
  }

  lemma ThenFinish(s: State, r: State, id: nat, ok: bool, p: Provider)
    requires Forward(s, r, p)
    ensures Forward(s, Finish(r, id, ok), p)
  {
    FinishForward(r, id, ok, p);
    ForwardTwice(s, r, Finish(r, id, ok), p);
  }

  /** A completion answers everyone who waits, or leaves them waiting for a fresh load. */
  lemma CompletionHelps(s: State, k: nat, result: Option<seq<Account>>, id: nat)
    requires Invariant(s, {}) && k < |s.tasks| && id in s.loaders.At(s.tasks[k].provider).requests
    ensures var p, r := s.tasks[k].provider, Complete(s, k, result);
            && r.generation == s.generation && s.answered <= r.answered
            && if s.tasks[k].generation == s.generation then Answer(id, result.Some?) in r.answered
               else id in r.loaders.At(p).requests && Fresh(r, p)
  {
    var p, r := s.tasks[k].provider, Complete(s, k, result);
    var ids := s.loaders.At(p).requests;
    if s.tasks[k].generation == s.generation {
      var i :| 0 <= i < |ids| && ids[i] == id;
      hide Invariant;
      assert r.answered[|s.answered| + i] == Answer(id, result.Some?);
    } else {
      RestartExactly(s, k);
      assert r.tasks[|r.tasks| - 1] == Task(p, s.path, s.generation, s.revision);
    }
  }

  lemma FreshIsTheTask(s: State, k: nat)
    requires Invariant(s, {}) && k < |s.tasks| && Fresh(s, s.tasks[k].provider)
    ensures s.tasks[k].generation == s.generation
  {
  }

  lemma FreshStays(s: State, r: State, p: Provider)
    requires Forward(s, r, p) && r.generation == s.generation && Fresh(s, p)
    ensures Fresh(r, p)
  {
  }

  /** Time goes on whatever happens. */
  lemma {:induction false} RunForward(s: State, steps: seq<Step>)
    requires Invariant(s, {})
    ensures s.generation <= RunFrom(s, steps).generation && s.answered <= RunFrom(s, steps).answered
    decreases |steps|
  {
    if steps != [] {
      hide Invariant, Do;
      StepInTime(s, steps[0]);
      DoKeeps(s, steps[0]);
      RunForward(Do(s, steps[0]), steps[1..]);
    }
  }

  lemma StepInTime(s: State, step: Step)
    requires Invariant(s, {})
    ensures s.generation <= Do(s, step).generation && s.answered <= Do(s, step).answered
  {
    hide Invariant, Do;
    if Completes(s, step, Codex) {
      StepForward(s, step, Muse);
    } else {
      StepForward(s, step, Codex);
    }
  }

  /** Once the sessions file stops changing, two completions (one, of a fresh load) answer whoever waits. */
  lemma {:induction false} TwoCompletionsAnswer(s: State, steps: seq<Step>, p: Provider, id: nat)
    requires Invariant(s, {}) && id in s.loaders.At(p).requests
    requires RunFrom(s, steps).generation == s.generation
    requires Completions(s, steps, p) >= if Fresh(s, p) then 1 else 2
    ensures Answered(RunFrom(s, steps), id)
    decreases |steps|
  {
    hide Invariant, Do, Fresh, Complete, Forward;
    var step := steps[0];
    var r := Do(s, step);
    DoKeeps(s, step);
    StepInTime(s, step);
    RunForward(r, steps[1..]);
    assert r.generation == s.generation;
    if Completes(s, step, p) {
      assert r == Complete(s, step.k, step.result) by { DoCompleted(s, step); }
      CompletionHelps(s, step.k, step.result, id);
      if s.tasks[step.k].generation == s.generation {
        assert Answered(r, id);
        AnsweredStays(r, RunFrom(r, steps[1..]), id);
      } else {
        if Fresh(s, p) {
          FreshIsTheTask(s, step.k);
        }
        TwoCompletionsAnswer(r, steps[1..], p, id);
      }
    } else {
      StepForward(s, step, p);
      StillWaits(s, r, p, id);
      if Fresh(s, p) {
        FreshStays(s, r, p);
      }
      TwoCompletionsAnswer(r, steps[1..], p, id);
    }
  }

  lemma DoCompleted(s: State, step: Step)
    requires step.Completed? && step.k < |s.tasks|
    ensures Do(s, step) == Complete(s, step.k, step.result)
  {
  }

  lemma AnsweredStays(s: State, r: State, id: nat)
    requires Answered(s, id) && s.answered <= r.answered
    ensures Answered(r, id)
  {
  }

  lemma StillWaits(s: State, r: State, p: Provider, id: nat)
    requires Forward(s, r, p) && r.generation == s.generation && id in s.loaders.At(p).requests
    ensures id in r.loaders.At(p).requests
  {
  }
}
