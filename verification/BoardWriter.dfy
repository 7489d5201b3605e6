// One write of the whiteboard: the posts on it are edited, trimmed to the
// newest six and rendered behind the header.

module BoardWriter {
  import opened Basics
  import opened BoardFormat
  import opened BoardHeader

  const MAX_ENTRIES: nat := 6
  datatype Problem = Busy | Unreadable | InvalidDrop | NotOnBoard | Expired | Ambiguous | TooLarge

  /** Arguments of a write; at most one of them asks for something. */
  datatype Request = Request(post: Option<Post>, init: bool, replace: bool, remove: Option<seq<byte>>)

  /** Validly owned drop folders, with whether each is retired. */
  type Drops = map<seq<byte>, bool>

  datatype Edit = Edit(kept: seq<Post>, removed: seq<Post>)

  // ----- Editing the posts -----

  predicate FromDrop(p: Post, folder: seq<byte>) {
    p.metadata.localDrop && p.metadata.dropFolder == folder
  }

  function DropIndex(posts: seq<Post>, folder: seq<byte>): (r: Option<nat>)
    ensures r.Some? ==> r.value < |posts| && FromDrop(posts[r.value], folder)
                        && forall i | 0 <= i < r.value :: !FromDrop(posts[i], folder)
    ensures r.None? ==> forall p <- posts :: !FromDrop(p, folder)
  {
    if posts == [] then None
    else if FromDrop(posts[0], folder) then Some(0)
    else match DropIndex(posts[1..], folder)
      case None => None
      case Some(i) => Some(i + 1)
  }

  /** The one post of a drop folder, when it is the only one. */
  ghost predicate OnlyFromDrop(posts: seq<Post>, folder: seq<byte>, i: int) {
    0 <= i < |posts| && FromDrop(posts[i], folder)
    && forall j | 0 <= j < |posts| && j != i :: !FromDrop(posts[j], folder)
  }

  /** A replaced post keeps its identity, origin and publication time. */
  function Revised(current: Post, post: Post): Post {
    Post(current.metadata.(bodyBytes := post.metadata.bodyBytes, bodyChars := post.metadata.bodyChars,
                           title := post.metadata.title, agentPrompt := post.metadata.agentPrompt),
         post.body)
  }

  function RemovePost(posts: seq<Post>, remove: Option<seq<byte>>, drops: Drops): Result<Edit, Problem> {
    match remove
    case None => Ok(Edit(posts, []))
    case Some(folder) =>
      if folder !in drops then Err(InvalidDrop)
      else match DropIndex(posts, folder)
        case None => Err(NotOnBoard)
        case Some(i) => Ok(Edit(posts[..i] + posts[i + 1..], [posts[i]]))
  }

  function AddPost(posts: seq<Post>, req: Request, drops: Drops): Result<seq<Post>, Problem> {
    if req.post.None? then Ok(posts)
    else
      var post := req.post.value;
      var folder := post.metadata.dropFolder;
      if !req.replace then Ok(posts + [post])
      else if folder !in drops then Err(InvalidDrop)
      else if drops[folder] then Err(Expired)
      else match DropIndex(posts, folder)
        case None => Err(Ambiguous)
        case Some(i) =>
          if DropIndex(posts[i + 1..], folder).Some? then Err(Ambiguous)
          else Ok(posts[i := Revised(posts[i], post)])
  }

  function Trim(posts: seq<Post>, removed: seq<Post>): Edit {
    if |posts| > MAX_ENTRIES
    then Edit(posts[|posts| - MAX_ENTRIES..], removed + posts[..|posts| - MAX_ENTRIES])
    else Edit(posts, removed)
  }

  function EditOf(posts: seq<Post>, req: Request, drops: Drops): Result<Edit, Problem> {
    match RemovePost(posts, req.remove, drops)
    case Err(problem) => Err(problem)
    case Ok(e) =>
      match AddPost(e.kept, req, drops)
      case Err(problem) => Err(problem)
      case Ok(added) => Ok(Trim(added, e.removed))
  }

  /** All positions of the posts of a drop folder, in order. */
  method DropPositions(posts: seq<Post>, folder: seq<byte>) returns (positions: seq<nat>)
    ensures forall i :: OnlyFromDrop(posts, folder, i) ==> positions == [i]
    ensures |positions| == 1 ==> OnlyFromDrop(posts, folder, positions[0])
  {
    positions := [];
    for i := 0 to |posts|
      invariant forall k | 0 <= k < |positions| :: positions[k] < i && FromDrop(posts[positions[k]], folder)
      invariant forall j | 0 <= j < i && FromDrop(posts[j], folder) :: j in positions
      invariant forall j, k | 0 <= j < k < |positions| :: positions[j] < positions[k]
    {
      if FromDrop(posts[i], folder) {
        positions := positions + [i];
        assert positions[|positions| - 1] == i;
      }
    }
    assert |positions| == 1 ==> positions == [positions[0]] && OnlyFromDrop(posts, folder, positions[0]);
    forall i | OnlyFromDrop(posts, folder, i)
      ensures positions == [i]
    {
      assert forall k | 0 <= k < |positions| :: FromDrop(posts[positions[k]], folder) && positions[k] == i;
      SinglePosition(positions, i);
    }
  }

  function PositionAt(positions: seq<nat>, k: nat): int {
    if k < |positions| then positions[k] else -1
  }

  lemma SinglePosition(positions: seq<nat>, i: int)
    requires i in positions && forall k | 0 <= k < |positions| :: positions[k] == i
    requires forall j, k | 0 <= j < k < |positions| :: positions[j] < positions[k]
    ensures positions == [i]
  {
    var first, second := PositionAt(positions, 0), PositionAt(positions, 1);
    assert first == i && second != first;
  }

  method UpdatePosts(current: seq<Post>, req: Request, drops: Drops) returns (r: Result<seq<Post>, Problem>)
    ensures r == AddPost(current, req, drops)
  {
    var posts := current;
    if req.post.Some? {
      var post := req.post.value;
      if req.replace {
        var folder := post.metadata.dropFolder;
        if folder !in drops {
          return Err(InvalidDrop);
        }
        if drops[folder] {
          return Err(Expired);
        }
        var positions := DropPositions(posts, folder);
        OnlyIsFirst(posts, folder);
        if |positions| != 1 {
          return Err(Ambiguous);
        }
        var at := positions[0];
        posts := posts[at := Revised(posts[at], post)];
      } else {
        posts := posts + [post];
      }
    }
    return Ok(posts);
  }

  method EditPosts(parsed: seq<Post>, req: Request, drops: Drops) returns (r: Result<Edit, Problem>)
    ensures r == EditOf(parsed, req, drops)
  {
    hide AddPost;
    var posts := parsed;
    var removed: seq<Post> := [];
    if req.remove.Some? {
      var folder := req.remove.value;
      if folder !in drops {
        return Err(InvalidDrop);
      }
      var position := DropIndex(posts, folder);
      if position.None? {
        return Err(NotOnBoard);
      }
      removed := removed + [posts[position.value]];
      assert removed == [posts[position.value]];
      posts := posts[..position.value] + posts[position.value + 1..];
    }
    var updated := UpdatePosts(posts, req, drops);
    if updated.Err? {
      return Err(updated.error);
    }
    posts := updated.value;
    if |posts| > MAX_ENTRIES {
      removed := removed + posts[..|posts| - MAX_ENTRIES];
      posts := posts[|posts| - MAX_ENTRIES..];
    }
    return Ok(Edit(posts, removed));
  }

  /** Exactly one position means: a first one, and none behind it. */
  lemma OnlyIsFirst(posts: seq<Post>, folder: seq<byte>)
    ensures var first := DropIndex(posts, folder);
            if first.Some? && DropIndex(posts[first.value + 1..], folder).None?
            then OnlyFromDrop(posts, folder, first.value)
                 && forall i | OnlyFromDrop(posts, folder, i) :: i == first.value
            else !exists i :: OnlyFromDrop(posts, folder, i)
  {
    hide FromDrop, DropIndex, OnlyFromDrop;
    var first := DropIndex(posts, folder);
    if first.None? {
      NoneAtAll(posts, folder);
    } else if DropIndex(posts[first.value + 1..], folder).Some? {
      TwoAreNotOne(posts, folder, first.value, first.value + 1 + DropIndex(posts[first.value + 1..], folder).value);
    } else {
      NoneBehind(posts, folder, first.value);
    }
  }

  lemma NoneAtAll(posts: seq<Post>, folder: seq<byte>)
    requires forall p <- posts :: !FromDrop(p, folder)
    ensures !exists i :: OnlyFromDrop(posts, folder, i)
  {
    hide FromDrop;
    assert forall i | 0 <= i < |posts| :: posts[i] in posts;
  }

  lemma TwoAreNotOne(posts: seq<Post>, folder: seq<byte>, i: nat, j: nat)
    requires i < j < |posts| && FromDrop(posts[i], folder) && FromDrop(posts[j], folder)
    ensures !exists k :: OnlyFromDrop(posts, folder, k)
  {
    hide FromDrop;
  }

  lemma NoneBehind(posts: seq<Post>, folder: seq<byte>, i: nat)
    requires i < |posts| && FromDrop(posts[i], folder)
    requires forall j | 0 <= j < i :: !FromDrop(posts[j], folder)
    requires forall p <- posts[i + 1..] :: !FromDrop(p, folder)
    ensures OnlyFromDrop(posts, folder, i) && forall k | OnlyFromDrop(posts, folder, k) :: k == i
  {
    hide FromDrop;
    var rest := posts[i + 1..];
    forall j | i < j < |posts| ensures !FromDrop(posts[j], folder) {
      assert rest[j - i - 1] == posts[j] && posts[j] in rest;
    }
  }

  // ----- What an edit keeps -----

  /** Publishing appends; together, what goes and what stays is everything, in order. */
  lemma PublishKeepsNewest(posts: seq<Post>, post: Post, drops: Drops)
    ensures var r := EditOf(posts, Request(Some(post), false, false, None), drops);
            r.Ok? && r.value.removed + r.value.kept == posts + [post]
            && |r.value.kept| == Min(|posts| + 1, MAX_ENTRIES)
  {
    hide DropIndex, Trim;
    TrimSplits(posts + [post], []);
    assert [] + (posts + [post]) == posts + [post];
  }

  lemma TrimSplits(posts: seq<Post>, removed: seq<Post>)
    ensures var e := Trim(posts, removed);
            e.removed + e.kept == removed + posts && |e.kept| == Min(|posts|, MAX_ENTRIES)
  {
    if |posts| > MAX_ENTRIES {
      var n := |posts| - MAX_ENTRIES;
      assert posts == posts[..n] + posts[n..];
      assert removed + posts[..n] + posts[n..] == removed + (posts[..n] + posts[n..]);
    }
  }

  /** A post rewritten by its drop: what it says is new, and what it is and where it comes from is old. */
  ghost predicate Rewritten(before: Post, request: Post, now: Post) {
    var was, asked, m := before.metadata, request.metadata, now.metadata;
    && now.body == request.body && m.title == asked.title && m.agentPrompt == asked.agentPrompt
    && m.bodyBytes == asked.bodyBytes && m.bodyChars == asked.bodyChars
    && m.id == was.id && m.publishedAtMs == was.publishedAtMs && m.provider == was.provider && m.cwd == was.cwd
    && m.localDrop == was.localDrop && m.dropFolder == was.dropFolder
  }

  /** The one post that a drop put on the board from this folder. */
  ghost predicate OnlyLocal(posts: seq<Post>, folder: seq<byte>, i: int) {
    && 0 <= i < |posts| && posts[i].metadata.localDrop && posts[i].metadata.dropFolder == folder
    && forall j | 0 <= j < |posts| && j != i :: posts[j].metadata.localDrop ==> posts[j].metadata.dropFolder != folder
  }

  lemma LocalIsFromDrop(posts: seq<Post>, folder: seq<byte>, i: int)
    ensures OnlyLocal(posts, folder, i) <==> OnlyFromDrop(posts, folder, i)
  {
  }

  /** Replacing succeeds exactly for the only live post of a drop folder in use; the others stay as they are. */
  lemma ReplaceKeepsIdentity(posts: seq<Post>, post: Post, drops: Drops)
    ensures var r := EditOf(posts, Request(Some(post), false, true, None), drops);
            var folder := post.metadata.dropFolder;
            (r.Ok? <==> folder in drops && !drops[folder] && exists i :: OnlyLocal(posts, folder, i))
            && (r == Err(InvalidDrop) <==> folder !in drops)
            && (r == Err(Expired) <==> folder in drops && drops[folder])
            && (r.Ok? ==> exists i | OnlyLocal(posts, folder, i) ::
                  |r.value.removed + r.value.kept| == |posts|
                  && Rewritten(posts[i], post, (r.value.removed + r.value.kept)[i])
                  && forall j | 0 <= j < |posts| && j != i :: (r.value.removed + r.value.kept)[j] == posts[j])
  {
    var folder := post.metadata.dropFolder;
    var r := EditOf(posts, Request(Some(post), false, true, None), drops);
    OnlyIsFirst(posts, folder);
    forall i ensures OnlyLocal(posts, folder, i) <==> OnlyFromDrop(posts, folder, i) {
      LocalIsFromDrop(posts, folder, i);
    }
    hide OnlyLocal, OnlyFromDrop, FromDrop;
    if r.Ok? {
      var i := DropIndex(posts, folder).value;
      assert OnlyLocal(posts, folder, i);
      assert r.value.removed + r.value.kept == posts[i := Revised(posts[i], post)];
    }
  }

  /** Removing succeeds exactly when a live post of the folder is there; it takes one, then the newest six are kept. */
  lemma RemoveTakesOne(posts: seq<Post>, folder: seq<byte>, drops: Drops)
    ensures var r := EditOf(posts, Request(None, false, false, Some(folder)), drops);
            (r.Ok? <==> folder in drops && exists p <- posts :: p.metadata.localDrop && p.metadata.dropFolder == folder)
            && (r == Err(InvalidDrop) <==> folder !in drops)
            && (r.Ok? ==> exists i | 0 <= i < |posts| && posts[i].metadata.localDrop
                                     && posts[i].metadata.dropFolder == folder ::
                  r.value == Trim(posts[..i] + posts[i + 1..], [posts[i]]))
            && (r.Ok? && |posts| <= MAX_ENTRIES + 1 ==> |r.value.removed| == 1)
  {
    hide Trim;
    var first := DropIndex(posts, folder);
    if first.Some? {
      assert posts[first.value] in posts;
    }
    hide DropIndex;
    if folder in drops && first.Some? {
      TrimmedOne(posts, first.value);
    }
  }

  lemma TrimmedOne(posts: seq<Post>, i: nat)
    requires i < |posts|
    ensures |posts| <= MAX_ENTRIES + 1 ==> |Trim(posts[..i] + posts[i + 1..], [posts[i]]).removed| == 1
  {
  }

  // ----- The whole write, between reading and renaming -----

  datatype Written = Unchanged(count: nat) | Board(output: seq<byte>, edit: Edit)

  /** What a write makes of the file's bytes (`None` when there is no file). */
  function WriteOf(c: Codec, template: seq<byte>, file: Option<seq<byte>>, req: Request, drops: Drops)
    : Result<Written, Problem>
  {
    var text := if file.Some? then file.value else [];
    if |text| > MAX_BYTES then Err(Unreadable)
    else if req.init && file.Some? then Ok(Unchanged(|Posts(c, text)|))
    else match EditOf(Posts(c, text), req, drops)
      case Err(problem) => Err(problem)
      case Ok(edit) =>
        var output := Header(text, template) + RenderEntries(c, edit.kept);
        if |output| > MAX_BYTES then Err(TooLarge) else Ok(Board(output, edit))
  }

  method WriteBoard(c: Codec, template: seq<byte>, file: Option<seq<byte>>, req: Request, drops: Drops)
    returns (r: Result<Written, Problem>)
    ensures r == WriteOf(c, template, file, req, drops)
  {
    var text := if file.Some? then file.value else [];
    if |text| > MAX_BYTES {
      return Err(Unreadable);
    }
    var posts := Parse(c, text);
    if req.init && file.Some? {
      return Ok(Unchanged(|posts|));
    }
    var edited := EditPosts(posts, req, drops);
    if edited.Err? {
      return Err(edited.error);
    }
    var header := Header(text, template);
    var output := Render(c, header, edited.value.kept);
    if |output| > MAX_BYTES {
      return Err(TooLarge);
    }
    return Ok(Board(output, edited.value));
  }
}
