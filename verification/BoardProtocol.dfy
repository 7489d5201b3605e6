// Any number of writers share one board under a lock directory. Each step of
// a writer is one atomic action on the shared file system; writers may give up
// waiting, fail before the rename, or be killed at any point.

module BoardProtocol {
  import opened Basics
  import opened BoardFormat
  import opened BoardHeader
  import opened BoardWriter

  datatype Outcome = Failed | LeftAlone | Wrote

  datatype Phase =
    | Waiting                                // has not obtained the claim
    | Holding                                // owns the claim
    | HasRead(file: Option<seq<byte>>)       // has read the board
    | Cleaning(edit: Edit)                   // has renamed its output into place
    | Finished(outcome: Outcome)
    | Killed(wrote: bool)                    // a claim it owned stays behind

  /** A rename, with what the writer then knew of the drop folders. */
  datatype Commit = Commit(writer: nat, drops: Drops)

  datatype System = System(file: Option<seq<byte>>, claim: Option<nat>, phase: map<nat, Phase>, log: seq<Commit>)

  /** What does not change: codec, header template, and each writer's request. */
  datatype Setup = Setup(codec: Codec, template: seq<byte>, request: nat -> Request)

  datatype Step =
    | Start(writer: nat)
    | Acquire(writer: nat)
    | GiveUp(writer: nat)
    | Read(writer: nat)
    | LeaveAlone(writer: nat)
    | Rename(writer: nat, drops: Drops)
    | Fail(writer: nat)
    | Release(writer: nat)
    | Kill(writer: nat)
    | ClearClaim(writer: nat)                // an operator, after the owner was killed

  /** The bytes a writer is about to rename into place, when there are any. */
  function Output(setup: Setup, file: Option<seq<byte>>, commit: Commit): Result<Written, Problem> {
    WriteOf(setup.codec, setup.template, file, setup.request(commit.writer), commit.drops)
  }

  predicate Enabled(setup: Setup, a: System, step: Step) {
    var w := step.writer;
    match step
    case Start(_) => w !in a.phase
    case Acquire(_) => w in a.phase && a.phase[w].Waiting? && a.claim.None?
    case GiveUp(_) => w in a.phase && a.phase[w].Waiting?
    case Read(_) => w in a.phase && a.phase[w].Holding?
    case LeaveAlone(_) => w in a.phase && a.phase[w].HasRead?
                          && var out := Output(setup, a.phase[w].file, Commit(w, map[]));
                             out.Ok? && out.value.Unchanged?
    case Rename(_, drops) => w in a.phase && a.phase[w].HasRead?
                             && var out := Output(setup, a.phase[w].file, Commit(w, drops));
                                out.Ok? && out.value.Board?
    case Fail(_) => w in a.phase && (a.phase[w].Holding? || a.phase[w].HasRead?)
    case Release(_) => w in a.phase && a.phase[w].Cleaning?
    case Kill(_) => w in a.phase && !a.phase[w].Finished? && !a.phase[w].Killed?
    case ClearClaim(_) => a.claim == Some(w) && w in a.phase && a.phase[w].Killed?
  }

  function Do(setup: Setup, a: System, step: Step): System
    requires Enabled(setup, a, step)
  {
    var w := step.writer;
    match step
    case Start(_) => a.(phase := a.phase[w := Waiting])
    case Acquire(_) => a.(claim := Some(w), phase := a.phase[w := Holding])
    case GiveUp(_) => a.(phase := a.phase[w := Finished(Failed)])
    case Read(_) => a.(phase := a.phase[w := HasRead(a.file)])
    case LeaveAlone(_) => a.(claim := None, phase := a.phase[w := Finished(LeftAlone)])
    case Rename(_, drops) =>
      var written := Output(setup, a.phase[w].file, Commit(w, drops)).value;
      a.(file := Some(written.output), phase := a.phase[w := Cleaning(written.edit)],
         log := a.log + [Commit(w, drops)])
    case Fail(_) => a.(claim := None, phase := a.phase[w := Finished(Failed)])
    case Release(_) => a.(claim := None, phase := a.phase[w := Finished(Wrote)])
    case Kill(_) => a.(phase := a.phase[w := Killed(a.phase[w].Cleaning?)])
    case ClearClaim(_) => a.(claim := None)
  }

  function Initial(file: Option<seq<byte>>): System {
    System(file, None, map[], [])
  }

  /** The state after a run, when every step of it is possible. */
  function Run(setup: Setup, file: Option<seq<byte>>, steps: seq<Step>): Option<System> {
    if steps == [] then Some(Initial(file))
    else match Run(setup, file, steps[..|steps| - 1])
      case None => None
      case Some(a) =>
        var step := steps[|steps| - 1];
        if Enabled(setup, a, step) then Some(Do(setup, a, step)) else None
  }

  // ----- One after another -----

  /** The board when the commits run alone, one after another, in this order. */
  function Replay(setup: Setup, file: Option<seq<byte>>, log: seq<Commit>): Option<seq<byte>> {
    if log == [] then file
    else
      var before := Replay(setup, file, log[..|log| - 1]);
      match Output(setup, before, log[|log| - 1])
      case Ok(Board(output, _)) => Some(output)
      case _ => before
  }

  /** Every commit, at its turn, puts a new board in place. */
  predicate EachWrites(setup: Setup, file: Option<seq<byte>>, log: seq<Commit>) {
    log == []
    || (EachWrites(setup, file, log[..|log| - 1]) && CommittedEdit(setup, file, log).Some?)
  }

  predicate Logged(log: seq<Commit>, w: nat) {
    exists k | 0 <= k < |log| :: log[k].writer == w
  }

  predicate WritersDiffer(log: seq<Commit>) {
    forall j, k | 0 <= j < k < |log| :: log[j].writer != log[k].writer
  }

  ghost predicate OwnsClaim(p: Phase) {
    p.Holding? || p.HasRead? || p.Cleaning?
  }

  ghost predicate HasWritten(p: Phase) {
    p.Cleaning? || p == Finished(Wrote) || p == Killed(true)
  }

  ghost predicate Invariant(setup: Setup, file: Option<seq<byte>>, a: System) {
    && a.file == Replay(setup, file, a.log)
    && (forall w | w in a.phase && OwnsClaim(a.phase[w]) :: a.claim == Some(w))
    && (forall w | w in a.phase && a.phase[w].HasRead? :: a.phase[w].file == a.file)
    && (forall w | w in a.phase && a.phase[w].Cleaning? ::
          |a.log| > 0 && a.log[|a.log| - 1].writer == w && CommittedEdit(setup, file, a.log) == Some(a.phase[w].edit))
    && (forall w :: Logged(a.log, w) <==> w in a.phase && HasWritten(a.phase[w]))
    && WritersDiffer(a.log)
    && EachWrites(setup, file, a.log)
  }

  /** The edit of the last rename, computed from the board before it. */
  function CommittedEdit(setup: Setup, file: Option<seq<byte>>, log: seq<Commit>): Option<Edit>
    requires |log| > 0
  {
    match Output(setup, Replay(setup, file, log[..|log| - 1]), log[|log| - 1])
    case Ok(Board(_, edit)) => Some(edit)
    case _ => None
  }

  lemma LoggedAppend(log: seq<Commit>, c: Commit)
    ensures forall w :: Logged(log + [c], w) <==> Logged(log, w) || w == c.writer
  {
    forall w | Logged(log, w) ensures Logged(log + [c], w) {
      var k :| 0 <= k < |log| && log[k].writer == w;
      assert (log + [c])[k].writer == w;
    }
    assert (log + [c])[|log|] == c;
  }

  lemma CommitReplays(setup: Setup, file: Option<seq<byte>>, log: seq<Commit>, c: Commit)
    requires var out := Output(setup, Replay(setup, file, log), c);
             out.Ok? && out.value.Board? && EachWrites(setup, file, log)
    ensures var written := Output(setup, Replay(setup, file, log), c).value;
            Replay(setup, file, log + [c]) == Some(written.output)
            && CommittedEdit(setup, file, log + [c]) == Some(written.edit)
    ensures EachWrites(setup, file, log + [c])
  {
    hide Output;
    assert (log + [c])[..|log|] == log;
  }

  lemma RenameKeepsInvariant(setup: Setup, file: Option<seq<byte>>, a: System, step: Step)
    requires Invariant(setup, file, a) && Enabled(setup, a, step) && step.Rename?
    ensures Invariant(setup, file, Do(setup, a, step))
  {
    hide Output, Replay, CommittedEdit, EachWrites;
    var c := Commit(step.writer, step.drops);
    CommitReplays(setup, file, a.log, c);
    LoggedAppend(a.log, c);
    assert !Logged(a.log, c.writer);
  }

  /** A writer moves on without touching the board; the claim stays with its owner. */
  lemma MoveKeepsInvariant(setup: Setup, file: Option<seq<byte>>, a: System, w: nat, p: Phase, claim: Option<nat>)
    requires Invariant(setup, file, a)
    requires HasWritten(p) <==> w in a.phase && HasWritten(a.phase[w])
    requires !p.Cleaning? && (p.HasRead? ==> p.file == a.file)
    requires OwnsClaim(p) ==> claim == Some(w)
    requires claim == a.claim || forall v | v in a.phase && OwnsClaim(a.phase[v]) :: v == w
    ensures Invariant(setup, file, a.(claim := claim, phase := a.phase[w := p]))
  {
    hide Replay, CommittedEdit, EachWrites, Logged;
  }

  lemma StepKeepsInvariant(setup: Setup, file: Option<seq<byte>>, a: System, step: Step)
    requires Invariant(setup, file, a) && Enabled(setup, a, step)
    ensures Invariant(setup, file, Do(setup, a, step))
  {
    hide Output, Replay, CommittedEdit, EachWrites, Logged;
    var w := step.writer;
    if step.Rename? {
      RenameKeepsInvariant(setup, file, a, step);
    } else {
      var b := Do(setup, a, step);
      hide Do;
      assert b == a.(claim := b.claim, phase := a.phase[w := b.phase[w]]);
      MoveKeepsInvariant(setup, file, a, w, b.phase[w], b.claim);
    }
  }

  /** Only a rename changes the board; it adds exactly one commit. */
  lemma OnlyRenameWrites(setup: Setup, a: System, step: Step)
    requires Enabled(setup, a, step)
    ensures !step.Rename? ==> Do(setup, a, step).file == a.file && Do(setup, a, step).log == a.log
    ensures step.Rename? ==> exists c: Commit :: c.writer == step.writer && Do(setup, a, step).log == a.log + [c]
  {
    if step.Rename? {
      assert Do(setup, a, step).log == a.log + [Commit(step.writer, step.drops)];
    }
  }

  lemma {:induction false} RunKeepsInvariant(setup: Setup, file: Option<seq<byte>>, steps: seq<Step>)
    requires Run(setup, file, steps).Some?
    ensures Invariant(setup, file, Run(setup, file, steps).value)
  {
    hide Invariant, Enabled, Do;
    if steps == [] {
      InitialInvariant(setup, file);
    } else {
      RunKeepsInvariant(setup, file, steps[..|steps| - 1]);
      StepKeepsInvariant(setup, file, Run(setup, file, steps[..|steps| - 1]).value, steps[|steps| - 1]);
    }
  }

  lemma InitialInvariant(setup: Setup, file: Option<seq<byte>>)
    ensures Invariant(setup, file, Initial(file))
  {
  }

  /**
   * Whatever the interleaving, the board is that of the commits run one after
   * another in the order of their renames. Each writer commits at most once; one
   * that wrote is in the log, and one that failed, gave up or left the board
   * alone is not.
   */
  lemma Serializable(setup: Setup, file: Option<seq<byte>>, steps: seq<Step>)
    requires Run(setup, file, steps).Some?
    ensures var a := Run(setup, file, steps).value;
            a.file == Replay(setup, file, a.log)
            && WritersDiffer(a.log)
            && (forall w | w in a.phase && a.phase[w].Finished? ::
                  Logged(a.log, w) <==> a.phase[w].outcome == Wrote)
            && (forall w | w in a.phase && a.phase[w].Killed? :: Logged(a.log, w) <==> a.phase[w].wrote)
  {
    hide Replay;
    RunKeepsInvariant(setup, file, steps);
  }

  /** At most one writer is between obtaining and releasing the claim. */
  lemma OneWriterAtATime(setup: Setup, file: Option<seq<byte>>, steps: seq<Step>, v: nat, w: nat)
    requires Run(setup, file, steps).Some?
    requires var a := Run(setup, file, steps).value;
             v in a.phase && w in a.phase && OwnsClaim(a.phase[v]) && OwnsClaim(a.phase[w])
    ensures v == w
  {
    hide Replay, Run;
    RunKeepsInvariant(setup, file, steps);
  }

  // ----- The same history in terms of posts -----

  function TextOf(file: Option<seq<byte>>): seq<byte> {
    if file.Some? then file.value else []
  }

  function FirstPosts(setup: Setup, file: Option<seq<byte>>): seq<Post> {
    Posts(setup.codec, TextOf(file))
  }

  predicate Publishes(setup: Setup, w: nat) {
    setup.request(w).post.Some? && !setup.request(w).replace
  }

  predicate Replaces(setup: Setup, w: nat, p: Post) {
    var req := setup.request(w);
    req.post.Some? && req.replace && FromDrop(p, req.post.value.metadata.dropFolder)
  }

  /** A post whose metadata line is short, and stays so when its drop publishes a replacement. */
  ghost predicate Short(setup: Setup, p: Post) {
    ShortLine(setup.codec, p)
    && forall w | Replaces(setup, w, p) :: ShortLine(setup.codec, Revised(p, setup.request(w).post.value))
  }

  /**
   * What is known before any writer starts: requested posts are framed, metadata
   * lines are short, and each post is published under an id of its own.
   */
  ghost predicate Prepared(setup: Setup, file: Option<seq<byte>>) {
    && setup.codec.Faithful()
    && OwnHeader(setup.template) && !Contains(Header(TextOf(file), setup.template), START)
    && (forall w | setup.request(w).post.Some? :: Framed(setup.request(w).post.value))
    && (forall p <- FirstPosts(setup, file) :: Short(setup, p))
    && (forall w | Publishes(setup, w) :: Short(setup, setup.request(w).post.value))
    && (forall w, p | Publishes(setup, w) && p in FirstPosts(setup, file) ::
          p.metadata.id != setup.request(w).post.value.metadata.id)
    && (forall v, w | Publishes(setup, v) && Publishes(setup, w) && v != w ::
          setup.request(v).post.value.metadata.id != setup.request(w).post.value.metadata.id)
  }

  /** What an edit needs of its request: a framed post, published under a new id. */
  ghost predicate Fits(req: Request, posts: seq<Post>) {
    req.post.Some? ==>
      Framed(req.post.value)
      && (!req.replace ==> forall p <- posts :: p.metadata.id != req.post.value.metadata.id)
  }

  /** The posts after the edits of the commits, one after another. */
  function ReplayPosts(setup: Setup, posts: seq<Post>, log: seq<Commit>): seq<Post> {
    if log == [] then posts
    else
      var before := ReplayPosts(setup, posts, log[..|log| - 1]);
      var commit := log[|log| - 1];
      match EditOf(before, setup.request(commit.writer), commit.drops)
      case Ok(edit) => edit.kept
      case Err(_) => before
  }

  lemma SublistKeepsForm(posts: seq<Post>, i: nat, j: nat)
    requires WellFormed(posts) && i <= j <= |posts|
    ensures WellFormed(posts[i..]) && WellFormed(posts[..i] + posts[j..])
  {
    assert forall p <- posts[i..] :: p in posts;
    assert forall p <- posts[..i] + posts[j..] :: p in posts;
  }

  lemma AddKeepsForm(posts: seq<Post>, req: Request, drops: Drops)
    requires WellFormed(posts) && Fits(req, posts) && AddPost(posts, req, drops).Ok?
    ensures WellFormed(AddPost(posts, req, drops).value)
  {
    var added := AddPost(posts, req, drops).value;
    if req.post.Some? && req.replace {
      var i := DropIndex(posts, req.post.value.metadata.dropFolder).value;
      assert posts[i] in posts && Framed(Revised(posts[i], req.post.value));
      assert forall k | 0 <= k < |posts| :: added[k].metadata.id == posts[k].metadata.id;
      assert forall p <- added :: p == added[i] || p in posts;
    } else if req.post.Some? {
      assert forall k | 0 <= k < |posts| :: added[k] == posts[k] && posts[k] in posts;
      assert forall p <- added :: p == req.post.value || p in posts;
    }
  }

  lemma EditKeepsForm(posts: seq<Post>, req: Request, drops: Drops)
    requires WellFormed(posts) && Fits(req, posts) && EditOf(posts, req, drops).Ok?
    ensures WellFormed(EditOf(posts, req, drops).value.kept)
  {
    hide WellFormed, AddPost;
    var rest := RemovePost(posts, req.remove, drops).value.kept;
    if req.remove.Some? {
      var i := DropIndex(posts, req.remove.value).value;
      SublistKeepsForm(posts, i, i + 1);
      assert forall p <- rest :: p in posts;
    }
    AddKeepsForm(rest, req, drops);
    var added := AddPost(rest, req, drops).value;
    if |added| > MAX_ENTRIES {
      SublistKeepsForm(added, |added| - MAX_ENTRIES, |added| - MAX_ENTRIES);
    }
  }

  lemma WellFormedParts(posts: seq<Post>)
    requires WellFormed(posts)
    ensures DistinctIds(posts) && forall p <- posts :: Framed(p)
  {
  }

  lemma PostsWellFormed(c: Codec, text: seq<byte>)
    ensures WellFormed(Posts(c, text))
  {
    EmptyWellFormed();
    ParsedWellFormed(c, text, []);
  }

  /** What is read from a committed board is what its writer kept. */
  lemma CommittedPosts(setup: Setup, file: Option<seq<byte>>, commit: Commit)
    requires setup.codec.Faithful() && Output(setup, file, commit).Ok? && Output(setup, file, commit).value.Board?
    requires Fits(setup.request(commit.writer), Posts(setup.codec, TextOf(file)))
    requires forall p <- Output(setup, file, commit).value.edit.kept :: ShortLine(setup.codec, p)
    requires !Contains(Header(TextOf(file), setup.template), START)
    ensures var written := Output(setup, file, commit).value;
            Posts(setup.codec, written.output) == written.edit.kept
            && EditOf(Posts(setup.codec, TextOf(file)), setup.request(commit.writer), commit.drops)
               == Ok(written.edit)
  {
    hide ShortLine, EditOf, START, Header, Posts, WellFormed, RenderEntries, Fits;
    var c, text := setup.codec, TextOf(file);
    PostsWellFormed(c, text);
    EditKeepsForm(Posts(c, text), setup.request(commit.writer), commit.drops);
    var kept := Output(setup, file, commit).value.edit.kept;
    WellFormedParts(kept);
    RoundTrip(c, Header(text, setup.template), kept);
  }

  /** No sequence of commits changes the header of the board again. */
  lemma {:induction false} HeaderNeverChanges(setup: Setup, file: Option<seq<byte>>, log: seq<Commit>)
    requires OwnHeader(setup.template)
    ensures Header(TextOf(Replay(setup, file, log)), setup.template) == Header(TextOf(file), setup.template)
  {
    hide Header, OwnHeader, EditOf, RenderEntries;
    if log != [] {
      var front := log[..|log| - 1];
      HeaderNeverChanges(setup, file, front);
      var before := Replay(setup, file, front);
      var out := Output(setup, before, log[|log| - 1]);
      if out.Ok? && out.value.Board? {
        HeaderStable(TextOf(before), setup.template, RenderEntries(setup.codec, out.value.edit.kept));
      }
    }
  }

  /** A post on the board was on the first one, or a logged writer published it. */
  ghost predicate Accounted(setup: Setup, file: Option<seq<byte>>, log: seq<Commit>, p: Post) {
    Short(setup, p)
    && ((exists q <- FirstPosts(setup, file) :: q.metadata.id == p.metadata.id)
        || exists k | 0 <= k < |log| && Publishes(setup, log[k].writer) ::
             p.metadata.id == setup.request(log[k].writer).post.value.metadata.id)
  }

  ghost predicate AllAccounted(setup: Setup, file: Option<seq<byte>>, log: seq<Commit>, posts: seq<Post>) {
    forall p <- posts :: Accounted(setup, file, log, p)
  }

  lemma RevisedStaysShort(setup: Setup, p: Post, w: nat)
    requires Short(setup, p) && Replaces(setup, w, p)
    ensures Short(setup, Revised(p, setup.request(w).post.value))
  {
    hide ShortLine;
    var q := Revised(p, setup.request(w).post.value);
    forall v | Replaces(setup, v, q) ensures ShortLine(setup.codec, Revised(q, setup.request(v).post.value)) {
      assert Replaces(setup, v, p);
      assert Revised(q, setup.request(v).post.value) == Revised(p, setup.request(v).post.value);
    }
  }

  lemma AccountedLater(setup: Setup, file: Option<seq<byte>>, log: seq<Commit>, commit: Commit, p: Post)
    requires Accounted(setup, file, log, p)
    ensures Accounted(setup, file, log + [commit], p)
  {
    hide Short, FirstPosts;
    if !exists q <- FirstPosts(setup, file) :: q.metadata.id == p.metadata.id {
      var k :| 0 <= k < |log| && Publishes(setup, log[k].writer)
               && p.metadata.id == setup.request(log[k].writer).post.value.metadata.id;
      assert (log + [commit])[k] == log[k];
    }
  }

  /** A post kept by an edit was there, is the one published, or is a replacement. */
  lemma KeptPosts(posts: seq<Post>, req: Request, drops: Drops)
    requires EditOf(posts, req, drops).Ok?
    ensures forall p <- EditOf(posts, req, drops).value.kept ::
              p in posts
              || (req.post.Some? && !req.replace && p == req.post.value)
              || (req.post.Some? && req.replace
                  && exists q <- posts :: FromDrop(q, req.post.value.metadata.dropFolder)
                                          && p == Revised(q, req.post.value))
  {
    var rest := RemovePost(posts, req.remove, drops).value.kept;
    assert forall p <- rest :: p in posts;
    var added := AddPost(rest, req, drops).value;
    forall p <- added
      ensures p in rest
              || (req.post.Some? && !req.replace && p == req.post.value)
              || (req.post.Some? && req.replace
                  && exists q <- rest :: FromDrop(q, req.post.value.metadata.dropFolder)
                                         && p == Revised(q, req.post.value))
    {
      if p !in rest && req.post.Some? && req.replace {
        var i := DropIndex(rest, req.post.value.metadata.dropFolder).value;
        assert rest[i] in rest && p == Revised(rest[i], req.post.value);
      }
    }
    assert forall p <- Trim(added, []).kept :: p in added;
  }

  lemma KeptAccounted(setup: Setup, file: Option<seq<byte>>, log: seq<Commit>, commit: Commit, posts: seq<Post>)
    requires Prepared(setup, file) && AllAccounted(setup, file, log, posts)
    requires EditOf(posts, setup.request(commit.writer), commit.drops).Ok?
    ensures AllAccounted(setup, file, log + [commit],
                         EditOf(posts, setup.request(commit.writer), commit.drops).value.kept)
  {
    hide EditOf, Short, FirstPosts, FromDrop, Revised;
    var req := setup.request(commit.writer);
    KeptPosts(posts, req, commit.drops);
    forall p <- EditOf(posts, req, commit.drops).value.kept
      ensures Accounted(setup, file, log + [commit], p)
    {
      if p in posts {
        AccountedLater(setup, file, log, commit, p);
      } else if req.replace {
        var q :| q in posts && FromDrop(q, req.post.value.metadata.dropFolder) && p == Revised(q, req.post.value);
        AccountedLater(setup, file, log, commit, q);
        RevisedStaysShort(setup, q, commit.writer);
        RevisedKeepsId(q, req.post.value);
      } else {
        assert (log + [commit])[|log|] == commit && Publishes(setup, commit.writer);
      }
    }
  }

  lemma RevisedKeepsId(current: Post, post: Post)
    ensures Revised(current, post).metadata.id == current.metadata.id
  {
  }

  /** A writer that has not committed yet publishes an id that is not on the board. */
  lemma RequestFits(setup: Setup, file: Option<seq<byte>>, log: seq<Commit>, w: nat, posts: seq<Post>)
    requires Prepared(setup, file) && AllAccounted(setup, file, log, posts) && !Logged(log, w)
    ensures Fits(setup.request(w), posts)
  {
    hide Short, FirstPosts, Framed;
    if Publishes(setup, w) {
      forall p <- posts ensures p.metadata.id != setup.request(w).post.value.metadata.id {
        assert Accounted(setup, file, log, p);
      }
    }
  }

  lemma WritersApart(log: seq<Commit>)
    requires WritersDiffer(log) && log != []
    ensures WritersDiffer(log[..|log| - 1]) && !Logged(log[..|log| - 1], log[|log| - 1].writer)
  {
  }

  /** The boards of a log, one after another: what each holds and where its posts come from. */
  lemma {:induction false} LogHoldsEdits(setup: Setup, file: Option<seq<byte>>, log: seq<Commit>)
    requires Prepared(setup, file) && EachWrites(setup, file, log) && WritersDiffer(log)
    ensures var posts := FirstPosts(setup, Replay(setup, file, log));
            posts == ReplayPosts(setup, FirstPosts(setup, file), log)
            && AllAccounted(setup, file, log, posts)
    ensures log != [] ==> FirstPosts(setup, Replay(setup, file, log)) == CommittedEdit(setup, file, log).value.kept
  {
    hide Prepared, FirstPosts, AllAccounted, Output, EditOf, WritersDiffer;
    if log == [] {
      FirstAccounted(setup, file);
    } else {
      var front, commit := log[..|log| - 1], log[|log| - 1];
      WritersApart(log);
      LogHoldsEdits(setup, file, front);
      CommitHoldsEdit(setup, file, front, commit);
      assert front + [commit] == log;
    }
  }

  lemma FirstAccounted(setup: Setup, file: Option<seq<byte>>)
    requires Prepared(setup, file)
    ensures AllAccounted(setup, file, [], FirstPosts(setup, file))
  {
    hide FirstPosts, Short;
  }

  lemma CommitHoldsEdit(setup: Setup, file: Option<seq<byte>>, log: seq<Commit>, commit: Commit)
    requires Prepared(setup, file) && !Logged(log, commit.writer)
    requires var before := Replay(setup, file, log);
             AllAccounted(setup, file, log, FirstPosts(setup, before))
             && Output(setup, before, commit).Ok? && Output(setup, before, commit).value.Board?
    ensures var before := Replay(setup, file, log);
            var written := Output(setup, before, commit).value;
            EditOf(FirstPosts(setup, before), setup.request(commit.writer), commit.drops) == Ok(written.edit)
            && FirstPosts(setup, Some(written.output)) == written.edit.kept
            && AllAccounted(setup, file, log + [commit], written.edit.kept)
  {
    hide AllAccounted, Posts, EditOf, Header, OwnHeader, RenderEntries, Short, Contains, Fits, ShortLine, Replay;
    var before := Replay(setup, file, log);
    RequestFits(setup, file, log, commit.writer, FirstPosts(setup, before));
    KeptAccounted(setup, file, log, commit, FirstPosts(setup, before));
    var kept := Output(setup, before, commit).value.edit.kept;
    AccountedShort(setup, file, log + [commit], kept);
    HeaderNeverChanges(setup, file, log);
    CommittedPosts(setup, before, commit);
  }

  lemma AccountedShort(setup: Setup, file: Option<seq<byte>>, log: seq<Commit>, posts: seq<Post>)
    requires AllAccounted(setup, file, log, posts)
    ensures forall p <- posts :: ShortLine(setup.codec, p)
  {
    hide ShortLine, FirstPosts;
  }

  /**
   * In every run, the board read back holds exactly the posts of the edits
   * applied in rename order: no update is lost.
   */
  lemma BoardHoldsEdits(setup: Setup, file: Option<seq<byte>>, steps: seq<Step>)
    requires Prepared(setup, file) && Run(setup, file, steps).Some?
    ensures var a := Run(setup, file, steps).value;
            Posts(setup.codec, TextOf(a.file)) == ReplayPosts(setup, Posts(setup.codec, TextOf(file)), a.log)
  {
    hide Prepared, Posts, Replay, ReplayPosts, Run, EachWrites, WritersDiffer;
    RunKeepsInvariant(setup, file, steps);
    LogHoldsEdits(setup, file, Run(setup, file, steps).value.log);
  }

  /** While a writer cleans up, the posts it kept are those on the board. */
  lemma CleanerKnowsBoard(setup: Setup, file: Option<seq<byte>>, steps: seq<Step>, w: nat)
    requires Prepared(setup, file) && Run(setup, file, steps).Some?
    requires var a := Run(setup, file, steps).value;
             w in a.phase && a.phase[w].Cleaning?
    ensures var a := Run(setup, file, steps).value;
            Posts(setup.codec, TextOf(a.file)) == a.phase[w].edit.kept
  {
    hide Prepared, Posts, Replay, ReplayPosts, Run, EachWrites, WritersDiffer, CommittedEdit;
    RunKeepsInvariant(setup, file, steps);
    LogHoldsEdits(setup, file, Run(setup, file, steps).value.log);
  }

  /** The posts published by a log of publications and prunings, in order. */
  function Published(setup: Setup, log: seq<Commit>): seq<Post> {
    if log == [] then []
    else
      var req := setup.request(log[|log| - 1].writer);
      Published(setup, log[..|log| - 1]) + Addition(req)
  }

  predicate PublishesOrPrunes(setup: Setup, log: seq<Commit>) {
    forall k | 0 <= k < |log| :: !setup.request(log[k].writer).replace && setup.request(log[k].writer).remove.None?
  }

  function Newest(posts: seq<Post>): seq<Post> {
    if |posts| > MAX_ENTRIES then posts[|posts| - MAX_ENTRIES..] else posts
  }

  function Addition(req: Request): seq<Post> {
    if req.post.Some? then [req.post.value] else []
  }

  lemma PlainEdit(posts: seq<Post>, req: Request, drops: Drops)
    requires !req.replace && req.remove.None?
    ensures EditOf(posts, req, drops).Ok? && EditOf(posts, req, drops).value.kept == Newest(posts + Addition(req))
  {
    hide DropIndex;
    assert posts + [] == posts;
  }

  lemma NewestTwice(all: seq<Post>, added: seq<Post>)
    requires |added| <= 1
    ensures Newest(Newest(all) + added) == Newest(all + added)
  {
  }

  /** Publications one after another leave exactly the newest six of all posts. */
  lemma {:induction false} LogKeepsNewest(setup: Setup, posts: seq<Post>, log: seq<Commit>)
    requires PublishesOrPrunes(setup, log) && log != []
    ensures ReplayPosts(setup, posts, log) == Newest(posts + Published(setup, log))
  {
    hide Newest, EditOf;
    var front, commit := log[..|log| - 1], log[|log| - 1];
    var req := setup.request(commit.writer);
    var all := posts + Published(setup, front);
    PlainEdit(ReplayPosts(setup, posts, front), req, commit.drops);
    assert posts + Published(setup, log) == all + Addition(req);
    if front == [] {
      assert all == posts;
    } else {
      LogKeepsNewest(setup, posts, front);
      NewestTwice(all, Addition(req));
    }
  }

  /** Any interleaving of publishers leaves on the board exactly the newest six of all posts. */
  lemma NewestSixRemain(setup: Setup, file: Option<seq<byte>>, steps: seq<Step>)
    requires Prepared(setup, file) && Run(setup, file, steps).Some?
    requires var a := Run(setup, file, steps).value;
             PublishesOrPrunes(setup, a.log) && a.log != []
    ensures var a := Run(setup, file, steps).value;
            Posts(setup.codec, TextOf(a.file))
            == Newest(Posts(setup.codec, TextOf(file)) + Published(setup, a.log))
  {
    hide *;
    BoardHoldsEdits(setup, file, steps);
    LogKeepsNewest(setup, Posts(setup.codec, TextOf(file)), Run(setup, file, steps).value.log);
  }

  // ----- A write that meets no obstacle -----

  lemma InitLeavesBoard(c: Codec, template: seq<byte>, text: seq<byte>, req: Request, drops: Drops)
    requires req.init && |text| <= MAX_BYTES
    ensures WriteOf(c, template, Some(text), req, drops) == Ok(Unchanged(|Posts(c, text)|))
  {
  }

  /** Preparing a board where there is none writes the template and nothing else. */
  lemma InitWritesTemplate(c: Codec, template: seq<byte>, init: bool, drops: Drops)
    requires |template| <= MAX_BYTES
    ensures WriteOf(c, template, None, Request(None, init, false, None), drops)
            == Ok(Board(template, Edit([], [])))
  {
    EmptyText(c, template);
    assert template + [] == template;
  }

  lemma EmptyText(c: Codec, template: seq<byte>)
    ensures Header([], template) == template && Posts(c, []) == []
  {
    StartNonEmpty();
    hide START, HEADER_START;
    assert Find([], START) == None && Find([], HEADER_START) == None;
  }

  lemma StartNonEmpty()
    ensures START != [] && HEADER_START != []
  {
  }

  /** A published post is on the board that is written, with the newest of those there before. */
  lemma PublishedIsRead(c: Codec, template: seq<byte>, file: Option<seq<byte>>, post: Post, drops: Drops)
    requires c.Faithful() && !Contains(Header(TextOf(file), template), START)
    requires Framed(post) && forall p <- Posts(c, TextOf(file)) :: p.metadata.id != post.metadata.id
    requires var kept := Newest(Posts(c, TextOf(file)) + [post]);
             (forall p <- kept :: ShortLine(c, p)) && |TextOf(file)| <= MAX_BYTES
             && |Header(TextOf(file), template)| + |RenderEntries(c, kept)| <= MAX_BYTES
    ensures var r := WriteOf(c, template, file, Request(Some(post), false, false, None), drops);
            && r.Ok? && r.value.Board?
            && Posts(c, r.value.output) == Newest(Posts(c, TextOf(file)) + [post])
            && r.value.edit.removed + r.value.edit.kept == Posts(c, TextOf(file)) + [post]
  {
    hide Header, Posts, RenderEntries, EditOf, Newest, ShortLine, START, Contains, Framed;
    var posts, req := Posts(c, TextOf(file)), Request(Some(post), false, false, None);
    PlainEdit(posts, req, drops);
    PublishKeepsNewest(posts, post, drops);
    CommittedPosts(Setup(c, template, _ => req), file, Commit(0, drops));
  }

  /** Whoever finds the claim free gets through, and its board is the one that stays. */
  lemma FreeClaimIsTaken(setup: Setup, file: Option<seq<byte>>, steps: seq<Step>, w: nat, drops: Drops)
    requires Run(setup, file, steps).Some?
    requires var a := Run(setup, file, steps).value;
             a.claim.None? && w !in a.phase
             && Output(setup, a.file, Commit(w, drops)).Ok? && Output(setup, a.file, Commit(w, drops)).value.Board?
    ensures var a := Run(setup, file, steps).value;
            Run(setup, file, steps + [Start(w), Acquire(w), Read(w), Rename(w, drops), Release(w)])
            == Some(a.(file := Some(Output(setup, a.file, Commit(w, drops)).value.output),
                       phase := a.phase[w := Finished(Wrote)], log := a.log + [Commit(w, drops)]))
  {
    hide Output, Run;
    var a := Run(setup, file, steps).value;
    var a1 := Do(setup, a, Start(w));
    var a2 := Do(setup, a1, Acquire(w));
    var a3 := Do(setup, a2, Read(w));
    var a4 := Do(setup, a3, Rename(w, drops));
    OneStepMore(setup, file, steps, Start(w));
    OneStepMore(setup, file, steps + [Start(w)], Acquire(w));
    OneStepMore(setup, file, steps + [Start(w)] + [Acquire(w)], Read(w));
    OneStepMore(setup, file, steps + [Start(w)] + [Acquire(w)] + [Read(w)], Rename(w, drops));
    OneStepMore(setup, file, steps + [Start(w)] + [Acquire(w)] + [Read(w)] + [Rename(w, drops)], Release(w));
    assert a.phase[w := Waiting][w := Holding][w := HasRead(a.file)][w := a4.phase[w]][w := Finished(Wrote)]
        == a.phase[w := Finished(Wrote)];
    assert steps + [Start(w), Acquire(w), Read(w), Rename(w, drops), Release(w)]
        == steps + [Start(w)] + [Acquire(w)] + [Read(w)] + [Rename(w, drops)] + [Release(w)];
  }

  lemma OneStepMore(setup: Setup, file: Option<seq<byte>>, steps: seq<Step>, step: Step)
    requires Run(setup, file, steps).Some? && Enabled(setup, Run(setup, file, steps).value, step)
    ensures Run(setup, file, steps + [step]) == Some(Do(setup, Run(setup, file, steps).value, step))
  {
    assert (steps + [step])[..|steps|] == steps;
  }

  /** Whoever owns the claim can give it back, whatever its write comes to. */
  lemma OwnerCanRelease(setup: Setup, a: System, w: nat)
    requires w in a.phase && OwnsClaim(a.phase[w])
    ensures exists step: Step | step.writer == w && Enabled(setup, a, step) ::
              Do(setup, a, step).claim.None? && Do(setup, a, step).file == a.file && Do(setup, a, step).log == a.log
  {
    hide Output;
    var step := if a.phase[w].Cleaning? then Release(w) else Fail(w);
    assert step.writer == w && Enabled(setup, a, step);
  }

  /** Only a writer that was to prepare the board leaves it alone, and only when there is one. */
  lemma {:induction false} LeftAloneIsPrepared(setup: Setup, file: Option<seq<byte>>, steps: seq<Step>, w: nat)
    requires Run(setup, file, steps).Some?
    ensures var a := Run(setup, file, steps).value;
            && (a.file.None? ==> file.None? && a.log == [])
            && (w in a.phase && a.phase[w] == Finished(LeftAlone) ==> setup.request(w).init && a.file.Some?)
            && (w in a.phase && a.phase[w].HasRead? && a.phase[w].file.Some? ==> a.file.Some?)
  {
    if steps != [] {
      LeftAloneIsPrepared(setup, file, steps[..|steps| - 1], w);
      LeavesAlonePrepared(setup, Run(setup, file, steps[..|steps| - 1]).value, w);
    }
  }

  lemma LeavesAlonePrepared(setup: Setup, a: System, w: nat)
    ensures Enabled(setup, a, LeaveAlone(w)) ==> setup.request(w).init && a.phase[w].file.Some?
  {
    hide EditOf, Posts, Header, RenderEntries;
  }
}
