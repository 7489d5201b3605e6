// The writers of one board and the drop folders they clean up, together: any
// interleaving of board steps, of cleanups by writers that have renamed their
// board into place, and of other processes staging drops.

module SharedDrops {
  import opened Basics
  import opened BoardFormat
  import opened BoardProtocol
  import Drops

  type Folders = map<string, Drops.Folder>

  datatype World = World(board: System, folders: Folders)

  /** A cleanup may come in parts, and a writer may be killed between them. */
  datatype Action =
    | Move(step: Step)
    | Cleanup(writer: nat, after: Folders)
    | Stage(folder: string, after: Folders)

  function Name(folder: seq<byte>): string {
    seq(|folder|, i requires 0 <= i < |folder| => folder[i] as int as char)
  }

  function EntryOf(p: Post): Drops.Entry {
    Drops.Entry(p.metadata.localDrop, Name(p.metadata.dropFolder))
  }

  function Entries(posts: seq<Post>): seq<Drops.Entry> {
    seq(|posts|, i requires 0 <= i < |posts| => EntryOf(posts[i]))
  }

  /** A writer cleans up with the posts it kept and took off, while it owns the claim. */
  ghost predicate Possible(setup: Setup, u: World, action: Action) {
    match action
    case Move(step) => Enabled(setup, u.board, step)
    case Cleanup(w, after) =>
      w in u.board.phase && u.board.phase[w].Cleaning?
      && Drops.Safe(u.folders, after, Entries(u.board.phase[w].edit.kept), Entries(u.board.phase[w].edit.removed))
    case Stage(folder, after) => forall f | f != folder :: Drops.At(after, f) == Drops.At(u.folders, f)
  }

  function Next(setup: Setup, u: World, action: Action): World
    requires Possible(setup, u, action)
  {
    match action
    case Move(step) => u.(board := Do(setup, u.board, step))
    case Cleanup(_, after) => u.(folders := after)
    case Stage(_, after) => u.(folders := after)
  }

  ghost predicate History(setup: Setup, file: Option<seq<byte>>, worlds: seq<World>, actions: seq<Action>) {
    |worlds| == |actions| + 1 && worlds[0].board == Initial(file)
    && forall i | 0 <= i < |actions| ::
         Possible(setup, worlds[i], actions[i]) && worlds[i + 1] == Next(setup, worlds[i], actions[i])
  }

  /** Some post on the board names the folder, up to the case of ASCII letters. */
  ghost predicate OnBoard(setup: Setup, u: World, folder: string) {
    exists p <- Posts(setup.codec, TextOf(u.board.file)) :: Drops.SameName(Name(p.metadata.dropFolder), folder)
  }

  /** The board steps of a history. */
  function Moves(actions: seq<Action>): seq<Step> {
    if actions == [] then []
    else
      var last := actions[|actions| - 1];
      Moves(actions[..|actions| - 1]) + if last.Move? then [last.step] else []
  }

  /** What the writers do to the board is a run of theirs, whatever happens to the folders. */
  lemma {:induction false} HistoryIsRun(setup: Setup, file: Option<seq<byte>>,
                                        worlds: seq<World>, actions: seq<Action>, n: nat)
    requires History(setup, file, worlds, actions) && n <= |actions|
    ensures Run(setup, file, Moves(actions[..n])) == Some(worlds[n].board)
  {
    hide Enabled, Do;
    if n > 0 {
      HistoryIsRun(setup, file, worlds, actions, n - 1);
      var before, action := Moves(actions[..n - 1]), actions[n - 1];
      assert actions[..n][..n - 1] == actions[..n - 1];
      assert Possible(setup, worlds[n - 1], action);
      if action.Move? {
        assert (before + [action.step])[..|before|] == before;
      } else {
        assert before + [] == before;
      }
    }
  }

  /** A cleanup knows every post on the board, so it leaves their folders alone. */
  lemma CleanupSparesBoard(setup: Setup, file: Option<seq<byte>>, worlds: seq<World>, actions: seq<Action>, i: nat,
                           folder: string)
    requires Prepared(setup, file) && History(setup, file, worlds, actions)
    requires i < |actions| && actions[i].Cleanup? && OnBoard(setup, worlds[i], folder)
    ensures Drops.At(worlds[i + 1].folders, folder) == Drops.At(worlds[i].folders, folder)
  {
    hide Prepared, Run, Moves, Posts, TextOf, Drops.SameName, Drops.DropOwner, Drops.Cleaned, Name;
    var u, w := worlds[i], actions[i].writer;
    assert Possible(setup, u, actions[i]);
    HistoryIsRun(setup, file, worlds, actions, i);
    CleanerKnowsBoard(setup, file, Moves(actions[..i]), w);
    var kept := u.board.phase[w].edit.kept;
    var k :| 0 <= k < |kept| && Drops.SameName(Name(kept[k].metadata.dropFolder), folder);
    assert Entries(kept)[k].folder == Name(kept[k].metadata.dropFolder);
    assert Entries(kept)[k] in Entries(kept);
  }

  /**
   * A drop survives, unchanged, for as long as a post on the board names it: no
   * interleaving of writers cleans it up, whatever they take off the board.
   */
  lemma {:induction false} DropOnBoardSurvives(setup: Setup, file: Option<seq<byte>>,
                                               worlds: seq<World>, actions: seq<Action>, i: nat, j: nat, folder: string)
    requires Prepared(setup, file) && History(setup, file, worlds, actions)
    requires i <= j <= |actions|
    requires forall k | i <= k < j :: OnBoard(setup, worlds[k], folder)
    requires forall k | i <= k < j :: actions[k].Stage? ==> actions[k].folder != folder
    ensures Drops.At(worlds[j].folders, folder) == Drops.At(worlds[i].folders, folder)
    decreases j
  {
    hide Prepared, OnBoard, Enabled, Do, Drops.Safe;
    if i < j {
      DropOnBoardSurvives(setup, file, worlds, actions, i, j - 1, folder);
      assert Possible(setup, worlds[j - 1], actions[j - 1]);
      if actions[j - 1].Cleanup? {
        CleanupSparesBoard(setup, file, worlds, actions, j - 1, folder);
      }
    }
  }
}
