// What each message to the context actor brings about, in every state that it
// can reach: who is answered, what is loaded and what is shown.

module RefreshEffects {
  import opened Basics
  import opened RefreshActor

  /** What a load of the current generation found, as it is to be shown. */
  function Display(s: State, t: Task, accounts: seq<Account>): seq<Account> {
    if t.provider == Codex && t.revision != s.revision
    then seq(|accounts|, i requires 0 <= i < |accounts| => Account(accounts[i].slot, s.manualReset))
    else accounts
  }

  /** Only this loader differs. */
  ghost predicate OnlyLoader(a: Loaders, b: Loaders, p: Provider) {
    forall q: Provider | q != p :: b.At(q) == a.At(q)
  }

  /** The reset that counts from now on. */
  function ResetAfter(s: State, t: Task, accounts: seq<Account>): Option<int> {
    if t.provider != Codex || t.revision != s.revision then s.manualReset
    else if accounts == [] then None else accounts[0].manualReset
  }

  /**
   * A completion of the current generation: what was loaded is shown, a failure
   * leaves the display, and everyone who waited has the answer.
   */
  lemma CompletionShows(steps: seq<Step>, k: nat, result: Option<seq<Account>>)
    requires k < |Reached(steps).tasks| && Reached(steps).tasks[k].generation == Reached(steps).generation
    ensures var s, r := Reached(steps), Reached(steps + [Completed(k, result)]);
            var t := s.tasks[k];
            var p := t.provider;
            && r.loaders.At(p)
               == Loader(false, false, [], if result.Some? then For(s.path, Display(s, t, result.value))
                                           else s.loaders.At(p).shown)
            && OnlyLoader(s.loaders, r.loaders, p)
            && r.answered == s.answered + Answers(s.loaders.At(p).requests, result.Some?)
            && r.tasks == s.tasks[..k] + s.tasks[k + 1..]
            && r.manualReset == (if result.Some? then ResetAfter(s, t, result.value) else s.manualReset)
            && (r.path, r.generation, r.initialized, r.busy, r.revision, r.edits)
               == (s.path, s.generation, s.initialized, s.busy, s.revision, s.edits)
  {
    hide Invariant, Accounted, Reached, Do;
    ReachedKeeps(steps);
    OneStepMore(steps, Completed(k, result));
    CompletesAt(Reached(steps), k, result);
  }

  lemma CompletesAt(s: State, k: nat, result: Option<seq<Account>>)
    requires Invariant(s, {}) && k < |s.tasks| && s.tasks[k].generation == s.generation
    ensures var r, t := Do(s, Completed(k, result)), s.tasks[k];
            var p := t.provider;
            && r.loaders.At(p)
               == Loader(false, false, [], if result.Some? then For(s.path, Display(s, t, result.value))
                                           else s.loaders.At(p).shown)
            && OnlyLoader(s.loaders, r.loaders, p)
            && r.answered == s.answered + Answers(s.loaders.At(p).requests, result.Some?)
            && r.tasks == s.tasks[..k] + s.tasks[k + 1..]
            && r.manualReset == (if result.Some? then ResetAfter(s, t, result.value) else s.manualReset)
            && (r.path, r.generation, r.initialized, r.busy, r.revision, r.edits)
               == (s.path, s.generation, s.initialized, s.busy, s.revision, s.edits)
  {
    hide Coalesced, EditKept, ShownCurrent;
    var t := s.tasks[k];
    assert t in s.tasks && t.path == s.path;
    if result.Some? {
      assert SetResets(result.value, s.manualReset)
          == seq(|result.value|, i requires 0 <= i < |result.value| => Account(result.value[i].slot, s.manualReset));
    }
  }

  /** One more load of this provider, begun now, unless one was in flight. */
  ghost predicate Loading(before: State, after: State, p: Provider) {
    && after.loaders.At(p).refreshing && after.loaders.At(p).busy
    && (if before.loaders.At(p).refreshing then after.tasks == before.tasks
        else after.tasks == before.tasks + [Task(p, before.path, before.generation, before.revision)])
  }

  /**
   * A request for the sessions file that is open waits at the end of the queue of
   * its loader, which is loading; nothing else changes. Recents asked for too
   * early are answered at once.
   */
  lemma AskWaits(steps: seq<Step>, p: Provider, path: string, id: nat)
    requires id != 0 && TrimSpace(path) == Reached(steps).path
    ensures var s, r := Reached(steps), Reached(steps + [Ask(p, path, id)]);
            if p == Recent && !s.initialized then r == s.(answered := s.answered + [Answer(id, true)])
            else
              && Loading(s, r, p)
              && r.loaders.At(p)
                 == Loader(true, true, s.loaders.At(p).requests + [id], s.loaders.At(p).shown)
              && OnlyLoader(s.loaders, r.loaders, p)
              && r == s.(loaders := r.loaders, tasks := r.tasks)
  {
    hide Invariant, Accounted, Reached, Do;
    ReachedKeeps(steps);
    OneStepMore(steps, Ask(p, path, id));
    AsksAt(Reached(steps), p, path, id);
  }

  lemma AsksAt(s: State, p: Provider, path: string, id: nat)
    requires Invariant(s, {}) && id != 0 && TrimSpace(path) == s.path
    ensures var r := Do(s, Ask(p, path, id));
            if p == Recent && !s.initialized then r == s.(answered := s.answered + [Answer(id, true)])
            else
              && Loading(s, r, p)
              && r.loaders.At(p)
                 == Loader(true, true, s.loaders.At(p).requests + [id], s.loaders.At(p).shown)
              && OnlyLoader(s.loaders, r.loaders, p)
              && r == s.(loaders := r.loaders, tasks := r.tasks)
  {
    hide TasksCurrent, EditKept, ShownCurrent, TrimSpace, InFlight;
    assert s.loaders.At(p).busy == s.loaders.At(p).refreshing;
  }

  /** The actor has turned to another sessions file, and everyone who waited was told so. */
  ghost predicate Moved(s: State, r: State, path: string) {
    && r.path == TrimSpace(path)
    && (if r.path == s.path then r == s
        else
          && r.generation == s.generation + 1 && r.manualReset == None
          && r.answered == s.answered
             + Answers(s.loaders.codex.requests + s.loaders.muse.requests + s.loaders.zcode.requests
                       + s.loaders.recent.requests, false)
          && (forall q: Provider ::
                r.loaders.At(q) == Loader(s.loaders.At(q).refreshing, s.loaders.At(q).busy, [], Nothing))
          && (r.tasks, r.initialized, r.busy, r.revision, r.edits)
             == (s.tasks, s.initialized, s.busy, s.revision, s.edits))
  }

  lemma SetPathMoves(s: State, path: string)
    ensures Moved(s, SetPath(s, path), path)
  {
    hide TrimSpace;
  }

  /** A request for another sessions file first turns to that; recents load the Codex accounts as well. */
  lemma AskMoves(steps: seq<Step>, p: Provider, path: string, id: nat)
    requires id != 0 && TrimSpace(path) != Reached(steps).path && (p == Recent ==> Reached(steps).initialized)
    ensures var s, r := Reached(steps), Reached(steps + [Ask(p, path, id)]);
            exists mid | Moved(s, mid, path) ::
              && r.loaders.At(p).requests == [id] && r.loaders.At(p).refreshing
              && (p == Recent ==> r.loaders.codex.refreshing)
              && (forall q: Provider | q != p :: r.loaders.At(q).requests == [])
              && r == mid.(loaders := r.loaders, tasks := r.tasks)
  {
    hide Invariant, Accounted, Reached, Do, SetPath, Moved;
    ReachedKeeps(steps);
    OneStepMore(steps, Ask(p, path, id));
    var s := Reached(steps);
    SetPathMoves(s, path);
    SetPathKeeps(s, path, {});
    AsksMoved(s, SetPath(s, path), p, path, id);
  }

  lemma AsksMoved(s: State, mid: State, p: Provider, path: string, id: nat)
    requires Invariant(s, {}) && Invariant(mid, {}) && Moved(s, mid, path) && mid == SetPath(s, path)
    requires TrimSpace(path) != s.path
    requires id != 0 && (p == Recent ==> s.initialized)
    ensures var r := Do(s, Ask(p, path, id));
            && r.loaders.At(p).requests == [id] && r.loaders.At(p).refreshing
            && (p == Recent ==> r.loaders.codex.refreshing)
            && (forall q: Provider | q != p :: r.loaders.At(q).requests == [])
            && r == mid.(loaders := r.loaders, tasks := r.tasks)
  {
    hide TasksCurrent, EditKept, ShownCurrent, TrimSpace, InFlight, SetPath;
    assert s.loaders.At(p).busy == s.loaders.At(p).refreshing;
    assert mid.loaders.At(Codex).busy == mid.loaders.At(Codex).refreshing;
    assert mid.loaders.At(p).requests == [] && [] + [id] == [id];
  }

  /** The Codex accounts are loading, and only that is new. */
  ghost predicate Reloading(before: State, after: State) {
    && Loading(before, after, Codex)
    && after.loaders.codex == Loader(true, true, before.loaders.codex.requests, before.loaders.codex.shown)
    && OnlyLoader(before.loaders, after.loaders, Codex)
    && after == before.(loaders := after.loaders, tasks := after.tasks)
  }

  lemma RequestReloads(s: State)
    requires Invariant(s, {})
    ensures Reloading(s, RequestAccounts(s, Codex, None, 0))
  {
    hide TasksCurrent, EditKept, ShownCurrent, InFlight;
    assert s.loaders.At(Codex).busy == s.loaders.At(Codex).refreshing;
  }

  ghost predicate Answered(before: State, after: State, id: nat, ok: bool) {
    after == before.(answered := before.answered + if id == 0 then [] else [Answer(id, ok)])
  }

  /** Loading the config turns to its file and loads the Codex accounts; before the actor is set up it does nothing. */
  lemma LoadReloads(steps: seq<Step>, path: string, id: nat, ok: bool)
    ensures var s, r := Reached(steps), Reached(steps + [Load(path, id, ok)]);
            if !s.initialized then Answered(s, r, id, true)
            else exists moved: State, loading: State ::
                   Moved(s, moved, path) && Reloading(moved, loading) && Answered(loading, r, id, ok)
  {
    hide Invariant, Accounted, Reached, SetPath, Moved, RequestAccounts, Reloading;
    ReachedKeeps(steps);
    OneStepMore(steps, Load(path, id, ok));
    var s := Reached(steps);
    NotBusy(s);
    SetPathMoves(s, path);
    SetPathKeeps(s, path, {});
    RequestReloads(SetPath(s, path));
    FinishAnswers(RequestAccounts(SetPath(s, path), Codex, None, 0), id, ok);
    FinishAnswers(s, id, true);
    hide Finish;
  }

  lemma NotBusy(s: State)
    requires Invariant(s, {})
    ensures !s.busy
  {
  }

  lemma FinishAnswers(s: State, id: nat, ok: bool)
    ensures Answered(s, Finish(s, id, ok), id, ok)
  {
    assert s.answered + [] == s.answered;
  }

  /** Setting up turns to the sessions file and loads the Codex accounts. */
  lemma InitReloads(steps: seq<Step>, path: string)
    ensures var s, r := Reached(steps), Reached(steps + [Init(path)]);
            exists moved :: Moved(s, moved, path) && Reloading(moved.(initialized := true), r)
  {
    hide Invariant, Accounted, Reached, SetPath, Moved, RequestAccounts, Reloading;
    ReachedKeeps(steps);
    OneStepMore(steps, Init(path));
    var s := Reached(steps);
    SetPathMoves(s, path);
    SetPathKeeps(s, path, {});
    var moved := SetPath(s, path);
    Initialize(moved);
    NotBusy(moved);
    RequestReloads(moved.(initialized := true));
  }

  /** Saving turns to the file saved, and loads the Codex accounts of another one; unreadable items change nothing. */
  lemma SaveReloads(steps: seq<Step>, path: string, id: nat, itemsOk: bool, ok: bool)
    ensures var s, r := Reached(steps), Reached(steps + [Save(path, id, itemsOk, ok)]);
            if !itemsOk then Answered(s, r, id, false)
            else if TrimSpace(path) == s.path then Answered(s, r, id, ok)
            else exists moved: State, loading: State ::
                   Moved(s, moved, path) && Reloading(moved, loading) && Answered(loading, r, id, ok)
  {
    hide Invariant, Accounted, Reached, SetPath, RequestAccounts, Reloading, TrimSpace;
    ReachedKeeps(steps);
    OneStepMore(steps, Save(path, id, itemsOk, ok));
    var s := Reached(steps);
    NotBusy(s);
    SetPathMoves(s, path);
    SetPathKeeps(s, path, {});
    var moved := SetPath(s, path);
    NotBusy(moved);
    assert moved.(busy := false) == moved;
    RequestReloads(moved);
    FinishAnswers(RequestAccounts(moved, Codex, None, 0), id, ok);
    FinishAnswers(s, id, false);
    FinishAnswers(s, id, ok);
    hide Finish, Moved;
  }

  /** An operation on the Codex accounts is refused while they load, and otherwise shows what it left. */
  lemma OperationShows(steps: seq<Step>, path: string, id: nat, valid: bool, result: Option<seq<Account>>)
    ensures var s, r := Reached(steps), Reached(steps + [EditAccountFiles(path, id, valid, result)]);
            if s.loaders.codex.refreshing || !valid then Answered(s, r, id, false)
            else exists moved: State, shown: State ::
                   && Moved(s, moved, path)
                   && OnlyLoader(moved.loaders, shown.loaders, Codex) && shown == moved.(loaders := shown.loaders)
                   && shown.loaders.codex == Loader(false, false, moved.loaders.codex.requests,
                                                    if result.Some? then For(moved.path, result.value)
                                                    else moved.loaders.codex.shown)
                   && Answered(shown, r, id, result.Some?)
  {
    hide Invariant, Accounted, Reached, SetPath, Moved;
    ReachedKeeps(steps);
    OneStepMore(steps, EditAccountFiles(path, id, valid, result));
    var s := Reached(steps);
    SameFlag(s);
    SetPathMoves(s, path);
    SetPathKeeps(s, path, {});
    SameFlag(SetPath(s, path));
    assert SetPath(s, path).loaders.At(Codex).refreshing == s.loaders.At(Codex).refreshing;
    FinishAnswers(EditAccounts(s, path, valid, result), id, result.Some?);
    FinishAnswers(s, id, false);
    if !(s.loaders.codex.refreshing || !valid) {
      var moved, shown := SetPath(s, path), EditAccounts(s, path, valid, result);
      assert OnlyLoader(moved.loaders, shown.loaders, Codex);
      assert shown.loaders.codex == Loader(false, false, moved.loaders.codex.requests,
                                           if result.Some? then For(moved.path, result.value)
                                           else moved.loaders.codex.shown);
    }
  }

  lemma SameFlag(s: State)
    requires Invariant(s, {})
    ensures s.loaders.codex.busy == s.loaders.codex.refreshing
  {
    assert s.loaders.At(Codex).busy == s.loaders.At(Codex).refreshing;
  }
}
