// The actor itself: handlers that update its fields, proved to do what the
// state machine of RefreshActor says. Emitting the interface state and the
// status texts are not modelled; a blocking file operation is its outcome.

module ContextActor {
  import opened Basics
  import opened RefreshActor

  class Actor {
    var path: string
    var generation: nat
    var initialized: bool
    var busy: bool
    var loaders: Loaders
    var manualReset: Option<int>
    var revision: nat
    var tasks: seq<Task>
    var answered: seq<Answer>
    ghost var edits: seq<Edit>

    ghost function View(): State
      reads this
    {
      State(path, generation, initialized, busy, loaders, manualReset, revision, tasks, answered, edits)
    }

    /** Zero stands for no request and never waits. */
    ghost predicate Valid()
      reads this
    {
      forall p: Provider :: 0 !in loaders.At(p).requests
    }

    constructor ()
      ensures Valid() && View() == INITIAL
    {
      path, generation, initialized, busy := "", 0, false, false;
      loaders := Loaders(IDLE, IDLE, IDLE, IDLE);
      manualReset, revision, tasks, answered, edits := None, 0, [], [], [];
    }

    method FinishOp(id: nat, ok: bool)
      requires Valid()
      modifies this`answered
      ensures Valid() && View() == Finish(old(View()), id, ok)
    {
      if id == 0 {
        return;
      }
      answered := answered + [Answer(id, ok)];
    }

    method FinishAll(ids: seq<nat>, ok: bool)
      requires Valid() && 0 !in ids
      modifies this`answered
      ensures Valid() && answered == old(answered) + Answers(ids, ok)
    {
      for i := 0 to |ids|
        invariant Valid() && answered == old(answered) + Answers(ids[..i], ok)
      {
        FinishOp(ids[i], ok);
        assert Answers(ids[..i], ok) + [Answer(ids[i], ok)] == Answers(ids[..i + 1], ok);
      }
      assert ids[..|ids|] == ids;
    }

    method SetSessionsMarkdownPath(newPath: string) returns (changed: bool)
      requires Valid()
      modifies this
      ensures Valid() && View() == SetPath(old(View()), newPath)
      ensures changed == (path != old(path))
      ensures path == TrimSpace(newPath) && revision == old(revision)
    {
      var next := TrimSpace(newPath);
      changed := next != path;
      if changed {
        generation := generation + 1;
        var requests := AllRequests(loaders);
        assert 0 !in requests by {
          assert 0 !in loaders.At(Codex).requests && 0 !in loaders.At(Muse).requests;
          assert 0 !in loaders.At(Zcode).requests && 0 !in loaders.At(Recent).requests;
        }
        FinishAll(requests, false);
        loaders := AllEmptied(loaders);
        manualReset := None;
      }
      path := next;
    }

    method StartLoad(p: Provider)
      requires Valid() && !loaders.At(p).refreshing
      modifies this`loaders, this`tasks
      ensures Valid() && View() == Start(old(View()), p)
    {
      loaders := loaders.With(p, loaders.At(p).(refreshing := true, busy := true));
      tasks := tasks + [Task(p, path, generation, revision)];
    }

    method Queue(p: Provider, id: nat)
      requires Valid()
      modifies this`loaders
      ensures Valid() && View() == Push(old(View()), p, id)
    {
      if id != 0 {
        loaders := loaders.With(p, loaders.At(p).(requests := loaders.At(p).requests + [id]));
      }
    }

    /** Refused only while another operation on the accounts is under way. */
    method LoadAccounts(p: Provider, pathOverride: Option<string>, id: nat) returns (accepted: bool)
      requires Valid() && p != Recent
      modifies this
      ensures Valid()
      ensures accepted <==> !(old(loaders.At(p).busy) && !old(loaders.At(p).refreshing))
      ensures if accepted then View() == RequestAccounts(old(View()), p, pathOverride, id) else View() == old(View())
    {
      hide SetPath, Start, Push;
      if loaders.At(p).busy && !loaders.At(p).refreshing {
        return false;
      }
      if pathOverride.Some? {
        var changed := SetSessionsMarkdownPath(pathOverride.value);
      }
      Queue(p, id);
      ghost var queued := View();
      StartsOnce(queued, p);
      if loaders.At(p).refreshing {
        return true;
      }
      StartLoad(p);
      return true;
    }

    method RefreshRecent(pathOverride: Option<string>, id: nat)
      requires Valid()
      modifies this
      ensures Valid() && View() == RequestRecent(old(View()), pathOverride, id)
    {
      hide SetPath, Start, Push, RequestAccounts;
      if busy || !initialized {
        FinishOp(id, true);
        return;
      }
      var changed := false;
      if pathOverride.Some? {
        changed := SetSessionsMarkdownPath(pathOverride.value);
      }
      Queue(Recent, id);
      if changed {
        ghost var before := View();
        var accepted := LoadAccounts(Codex, None, 0);
        RefusedQuietly(before, Codex);
      }
      StartsOnce(View(), Recent);
      if loaders.recent.refreshing {
        return;
      }
      StartLoad(Recent);
    }

    method InstallResult(t: Task, accounts: seq<Account>)
      requires Valid()
      modifies this`loaders, this`manualReset
      ensures Valid() && View() == Install(old(View()), t, accounts)
      ensures loaders.At(t.provider).shown.For? && loaders.At(t.provider).shown.path == t.path
      ensures t.provider == Codex && t.revision != revision ==>
                forall account <- loaders.codex.shown.accounts :: account.manualReset == manualReset
      ensures t.provider == Codex && t.revision == revision ==> loaders.codex.shown.accounts == accounts
    {
      var loaded := accounts;
      if t.provider == Codex {
        // A reset edited after this load began wins over what the load read.
        if t.revision != revision {
          loaded := SetResets(accounts, manualReset);
        } else {
          manualReset := if accounts == [] then None else accounts[0].manualReset;
        }
      }
      loaders := loaders.With(t.provider, loaders.At(t.provider).(shown := For(t.path, loaded)));
    }

    /** The message a finished load sends to the actor. */
    method CompleteRefresh(k: nat, result: Option<seq<Account>>)
      requires Valid() && k < |tasks|
      modifies this
      ensures Valid() && View() == Complete(old(View()), k, result)
    {
      hide Install, RequestAccounts, RequestRecent;
      var t := tasks[k];
      var p := t.provider;
      tasks := Others(tasks, k);
      loaders := loaders.With(p, loaders.At(p).(refreshing := false, busy := false));
      ghost var landed := View();
      assert landed == Landed(old(View()), k);
      if t.generation != generation {
        if p == Recent {
          RefreshRecent(None, 0);
        } else {
          var accepted := LoadAccounts(p, None, 0);
        }
        return;
      }
      if result.Some? {
        InstallResult(t, result.value);
      }
      ghost var installed := View();
      FinishAll(loaders.At(p).requests, result.Some?);
      loaders := loaders.With(p, loaders.At(p).(requests := []));
      assert View() == AnswerAll(installed, p, result.Some?);
    }

    method ReloadConfig(pathOverride: Option<string>, loadOk: bool) returns (ok: bool)
      requires Valid()
      modifies this
      ensures Valid() && View() == LoadConfig(old(View()), pathOverride)
      ensures ok <==> old(busy) || !old(initialized) || loadOk
    {
      hide SetPath, RequestAccounts;
      if busy || !initialized {
        return true;
      }
      if pathOverride.Some? {
        var changed := SetSessionsMarkdownPath(pathOverride.value);
      }
      assert !busy by { SetPathKeepsBusy(old(View()), if pathOverride.Some? then pathOverride.value else ""); }
      busy := true;
      busy := false;                           // the file has been read
      ok := loadOk;
      RefusedQuietly(View(), Codex);
      var accepted := LoadAccounts(Codex, None, 0);
    }

    method WriteConfig(newPath: string, itemsOk: bool, saveOk: bool) returns (ok: bool)
      requires Valid()
      modifies this
      ensures Valid() && View() == SaveConfig(old(View()), newPath, itemsOk)
      ensures ok <==> itemsOk && saveOk
    {
      hide SetPath, RequestAccounts;
      if !itemsOk {
        return false;
      }
      var changed := SetSessionsMarkdownPath(newPath);
      busy := true;
      busy := false;                           // the file has been written, or not
      if changed {
        RefusedQuietly(View(), Codex);
        var accepted := LoadAccounts(Codex, None, 0);
      }
      return saveOk;
    }

    method UpdateCodexManualReset(newPath: string, value: Option<int>, writeOk: bool)
      requires Valid()
      modifies this
      ensures Valid() && View() == EditReset(old(View()), newPath, value, writeOk)
      ensures path == TrimSpace(newPath)
      ensures revision == old(revision) + (if writeOk then 1 else 0)
      ensures writeOk ==> manualReset == value
      ensures writeOk && loaders.codex.shown.For? ==>
                forall account <- loaders.codex.shown.accounts :: account.manualReset == value
    {
      hide SetPath;
      var changed := SetSessionsMarkdownPath(newPath);
      if writeOk {
        revision := revision + 1;
        manualReset := value;
        edits := edits + [Edit(path, value)];
        var l := loaders.At(Codex);
        if l.shown.For? {
          loaders := loaders.With(Codex, l.(shown := For(l.shown.path, SetResets(l.shown.accounts, value))));
        }
      }
    }

    /** Save, switch, rename and delete differ in the file operation only. */
    method OperateOnAccounts(newPath: string, valid: bool, result: Option<seq<Account>>) returns (ok: bool)
      requires Valid()
      modifies this
      ensures Valid() && View() == EditAccounts(old(View()), newPath, valid, result)
      ensures ok <==> !old(loaders.codex.busy) && valid && result.Some?
    {
      hide SetPath;
      if loaders.codex.busy || !valid {
        return false;
      }
      var changed := SetSessionsMarkdownPath(newPath);
      ghost var moved := View();
      SetPathKeepsBusy(old(View()), newPath);
      var l := loaders.At(Codex);
      loaders := loaders.With(Codex, l.(busy := true));
      if result.Some? {
        l := l.(shown := For(path, result.value));
      }
      loaders := loaders.With(Codex, l.(busy := false));
      WithTwice(moved.loaders, l);
      return result.Some?;
    }

    method Handle(step: Step)
      requires Valid()
      modifies this
      ensures Valid() && View() == Do(old(View()), step)
    {
      hide SetPath, LoadConfig, SaveConfig, EditReset, EditAccounts, RequestRecent, Complete;
      match step
      case Init(newPath) =>
        var changed := SetSessionsMarkdownPath(newPath);
        initialized := true;
        var ok := ReloadConfig(None, true);
      case Load(newPath, id, loadOk) =>
        var ok := ReloadConfig(Some(newPath), loadOk);
        FinishOp(id, ok);
      case Save(newPath, id, itemsOk, saveOk) =>
        var ok := WriteConfig(newPath, itemsOk, saveOk);
        FinishOp(id, ok);
      case Ask(p, newPath, id) =>
        if p == Recent {
          RefreshRecent(Some(newPath), id);
        } else {
          var accepted := LoadAccounts(p, Some(newPath), id);
          if !accepted {
            FinishOp(id, false);
          }
        }
      case EditManualReset(newPath, id, value, writeOk) =>
        UpdateCodexManualReset(newPath, value, writeOk);
        FinishOp(id, writeOk);
      case EditAccountFiles(newPath, id, valid, result) =>
        var ok := OperateOnAccounts(newPath, valid, result);
        FinishOp(id, ok);
      case Completed(k, result) =>
        if k < |tasks| {
          CompleteRefresh(k, result);
        }
    }
  }

  lemma WithTwice(l: Loaders, x: Loader)
    requires x.busy == false
    ensures l.With(Codex, x.(busy := true)).With(Codex, x) == l.With(Codex, x)
    ensures l.With(Codex, l.At(Codex)) == l
  {
  }

  lemma SetPathKeepsBusy(s: State, newPath: string)
    ensures SetPath(s, newPath).busy == s.busy
    ensures SetPath(s, newPath).loaders.At(Codex).busy == s.loaders.At(Codex).busy
  {
    assert AllEmptied(s.loaders).At(Codex) == Emptied(s.loaders.At(Codex));
  }

  lemma StartsOnce(s: State, p: Provider)
    ensures s.loaders.At(p).refreshing ==> Start(s, p) == s
  {
  }

  /** Without a request, a refusal is not noticed by anyone. */
  lemma RefusedQuietly(s: State, p: Provider)
    ensures s.loaders.At(p).busy && !s.loaders.At(p).refreshing ==> RequestAccounts(s, p, None, 0) == s
  {
  }
}
