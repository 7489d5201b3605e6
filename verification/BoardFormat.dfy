// The whiteboard file: a header, then length-framed entries whose bodies may
// contain the framing markers themselves. Everything is bytes; the JSON codec
// of the metadata is a pair of functions with the facts needed of it stated.

module BoardFormat {
  import opened Basics
  import opened LineSplitting

  const MAX_BYTES: nat := 8 * 1024 * 1024
  const MAX_LINE: nat := 131072
  const START: seq<byte> := Ascii("<!-- context:whiteboard:entry ")
  const LINE_END: seq<byte> := Ascii(" -->")
  const END: seq<byte> := Ascii("\n<!-- context:whiteboard:end ")

  datatype Metadata = Metadata(
    id: seq<byte>, publishedAtMs: nat, title: seq<byte>, provider: seq<byte>, cwd: seq<byte>,
    bodyBytes: nat, bodyChars: nat, localDrop: bool, agentPrompt: seq<byte>, dropFolder: seq<byte>)

  datatype Post = Post(metadata: Metadata, body: seq<byte>)

  datatype Codec = Codec(encode: Metadata -> seq<byte>, decode: seq<byte> -> Option<Metadata>) {
    /** What is used of the JSON codec: it inverts, and escapes line breaks. */
    ghost predicate Faithful() {
      forall m :: decode(encode(m)) == Some(m) && NEWLINE !in encode(m)
    }
  }

  predicate IdByte(b: byte) {
    48 <= b <= 57 || 65 <= b <= 90 || 97 <= b <= 122 || b == 45 || b == 95
  }

  predicate ValidId(id: seq<byte>) {
    0 < |id| <= 80 && forall b <- id :: IdByte(b)
  }

  function EndMarker(id: seq<byte>): seq<byte> {
    END + id + LINE_END
  }

  // ----- Parsing -----

  /** A byte offset between characters of a UTF-8 text. */
  predicate IsCharBoundary(s: seq<byte>, i: nat) {
    i == 0 || i == |s| || (i < |s| && !(128 <= s[i] < 192))
  }

  /** A post as the framing can carry it. */
  ghost predicate Framed(p: Post) {
    ValidId(p.metadata.id) && p.metadata.bodyBytes == |p.body| <= MAX_BYTES
  }

  /** The entry whose metadata line is `line` and whose body starts `rest`. */
  function ReadEntry(c: Codec, line: seq<byte>, rest: seq<byte>): (r: Option<Post>)
    ensures r.Some? ==> |r.value.body| + |EndMarker(r.value.metadata.id)| <= |rest| && Framed(r.value)
  {
    if |line| > MAX_LINE || |line| < |LINE_END| || line[|line| - |LINE_END|..] != LINE_END then None
    else match c.decode(line[..|line| - |LINE_END|])
      case None => None
      case Some(m) =>
        if !ValidId(m.id) then None
        else if m.bodyBytes > MAX_BYTES || m.bodyBytes > |rest| || !IsCharBoundary(rest, m.bodyBytes)
                || !StartsWith(rest[m.bodyBytes..], EndMarker(m.id)) then None
        else Some(Post(m, rest[..m.bodyBytes]))
  }

  /** All posts but those of one id, in order. */
  function Without(posts: seq<Post>, id: seq<byte>): seq<Post> {
    if posts == [] then []
    else (if posts[0].metadata.id != id then [posts[0]] else []) + Without(posts[1..], id)
  }

  datatype Scan = NoMarker | Skipped(rest: seq<byte>) | Found(post: Post, rest: seq<byte>)

  /** What stands at the first entry marker, and the text left after it. */
  function NextEntry(c: Codec, text: seq<byte>): (s: Scan)
    ensures s.Skipped? || s.Found? ==> |s.rest| < |text|
    ensures s.Found? ==> Framed(s.post)
  {
    match Find(text, START)
    case None => NoMarker
    case Some(start) =>
      var after := text[start + |START|..];
      match Find(after, [NEWLINE])
      case None => NoMarker
      case Some(lineEnd) =>
        var rest := after[lineEnd + 1..];
        match ReadEntry(c, after[..lineEnd], rest)
        case None => Skipped(rest)
        case Some(post) => Found(post, rest[|post.body| + |EndMarker(post.metadata.id)|..])
  }

  /** A later entry replaces an earlier one of the same id. */
  function ParseFrom(c: Codec, text: seq<byte>, posts: seq<Post>): seq<Post>
    decreases |text|
  {
    match NextEntry(c, text)
    case NoMarker => posts
    case Skipped(rest) => ParseFrom(c, rest, posts)
    case Found(post, rest) => ParseFrom(c, rest, Without(posts, post.metadata.id) + [post])
  }

  function Posts(c: Codec, text: seq<byte>): seq<Post> {
    ParseFrom(c, text, [])
  }

  lemma WithoutStep(posts: seq<Post>, id: seq<byte>, i: nat)
    requires i < |posts|
    ensures Without(posts[i..], id)
            == (if posts[i].metadata.id != id then [posts[i]] else []) + Without(posts[i + 1..], id)
  {
    assert posts[i..][1..] == posts[i + 1..];
  }

  method Retain(posts: seq<Post>, id: seq<byte>) returns (kept: seq<Post>)
    ensures kept == Without(posts, id)
  {
    hide Without;
    kept := [];
    assert posts[0..] == posts;
    for i := 0 to |posts|
      invariant Without(posts, id) == kept + Without(posts[i..], id)
    {
      WithoutStep(posts, id, i);
      if posts[i].metadata.id != id {
        assert kept + ([posts[i]] + Without(posts[i + 1..], id)) == kept + [posts[i]] + Without(posts[i + 1..], id);
        kept := kept + [posts[i]];
      } else {
        assert [] + Without(posts[i + 1..], id) == Without(posts[i + 1..], id);
      }
    }
    assert posts[|posts|..] == [] && Without([], id) == [] by { WithoutNothing(id); }
  }

  lemma WithoutNothing(id: seq<byte>)
    ensures Without([], id) == []
  {
  }

  method Parse(c: Codec, text: seq<byte>) returns (posts: seq<Post>)
    ensures posts == Posts(c, text)
  {
    hide Find, ReadEntry, START, Without, Framed;
    posts := [];
    var remaining := text;
    while true
      invariant ParseFrom(c, remaining, posts) == Posts(c, text)
      decreases |remaining|
    {
      ghost var entry0 := NextEntry(c, remaining);
      var start := Find(remaining, START);
      if start.None? {
        break;
      }
      var after := remaining[start.value + |START|..];
      var lineEnd := Find(after, [NEWLINE]);
      if lineEnd.None? {
        break;
      }
      remaining := after[lineEnd.value + 1..];
      var entry := ReadEntry(c, after[..lineEnd.value], remaining);
      if entry.None? {
        assert entry0 == Skipped(remaining);
        continue;
      }
      posts := Retain(posts, entry.value.metadata.id);
      posts := posts + [entry.value];
      remaining := remaining[|entry.value.body| + |EndMarker(entry.value.metadata.id)|..];
      assert entry0 == Found(entry.value, remaining);
    }
  }

  // ----- Rendering -----

  function RenderEntry(c: Codec, p: Post): seq<byte> {
    [NEWLINE] + START + c.encode(p.metadata) + LINE_END + [NEWLINE]
    + p.body + EndMarker(p.metadata.id) + [NEWLINE]
  }

  function RenderEntries(c: Codec, posts: seq<Post>): seq<byte> {
    if posts == [] then [] else RenderEntry(c, posts[0]) + RenderEntries(c, posts[1..])
  }

  method Render(c: Codec, header: seq<byte>, posts: seq<Post>) returns (output: seq<byte>)
    ensures output == header + RenderEntries(c, posts)
  {
    output := header;
    for i := 0 to |posts|
      invariant output + RenderEntries(c, posts[i..]) == header + RenderEntries(c, posts)
    {
      assert posts[i..][1..] == posts[i + 1..];
      assert output + (RenderEntry(c, posts[i]) + RenderEntries(c, posts[i + 1..]))
          == output + RenderEntry(c, posts[i]) + RenderEntries(c, posts[i + 1..]);
      output := output + RenderEntry(c, posts[i]);
    }
  }

  // ----- The framing round trip -----

  /** The metadata line a post is written with is short enough to be read. */
  predicate ShortLine(c: Codec, p: Post) {
    |c.encode(p.metadata)| + |LINE_END| <= MAX_LINE
  }

  /** Of several posts with one id, the last one stays. */
  ghost function KeepLast(kept: seq<Post>, posts: seq<Post>): seq<Post>
    decreases |posts|
  {
    if posts == [] then kept
    else KeepLast(Without(kept, posts[0].metadata.id) + [posts[0]], posts[1..])
  }

  predicate DistinctIds(posts: seq<Post>) {
    forall i, j | 0 <= i < j < |posts| :: posts[i].metadata.id != posts[j].metadata.id
  }

  lemma MarkerFacts()
    ensures |START| == 30 && NEWLINE !in START && |LINE_END| == 4 && |END| > 0 && END[0] == NEWLINE
  {
  }

  /** A marker without line breaks is not found across one. */
  lemma FirstStart(prefix: seq<byte>, suffix: seq<byte>)
    requires !Contains(prefix, START)
    ensures Find(prefix + [NEWLINE] + START + suffix, START) == Some(|prefix| + 1)
    ensures Find(prefix, START) == None
  {
    MarkerFacts();
    hide START;
    var text := prefix + [NEWLINE] + START + suffix;
    assert MatchAt(text, START, |prefix| + 1);
    forall i | 0 <= i <= |prefix| ensures !MatchAt(text, START, i) {
      assert !MatchAt(prefix, START, i);
      assert text[|prefix|] == NEWLINE;
      if i + |START| <= |prefix| {
        assert text[i..i + |START|] == prefix[i..i + |START|];
      } else if i + |START| <= |text| {
        assert text[i..i + |START|][|prefix| - i] == text[|prefix|];
      }
    }
  }

  /** The entry just written is the entry read. */
  lemma ReadRendered(c: Codec, p: Post, suffix: seq<byte>)
    requires c.Faithful() && Framed(p) && ShortLine(c, p)
    ensures ReadEntry(c, c.encode(p.metadata) + LINE_END, p.body + EndMarker(p.metadata.id) + suffix) == Some(p)
  {
    MarkerFacts();
    hide END, LINE_END;
    var m := p.metadata;
    var line, rest := c.encode(m) + LINE_END, p.body + EndMarker(m.id) + suffix;
    assert line[|line| - |LINE_END|..] == LINE_END && line[..|line| - |LINE_END|] == c.encode(m);
    assert rest[|p.body|] == EndMarker(m.id)[0] == NEWLINE;
    assert rest[|p.body|..] == EndMarker(m.id) + suffix;
    assert rest[..|p.body|] == p.body;
  }

  /** The text around a written entry, cut where the reader cuts it. */
  lemma EntryParts(c: Codec, prefix: seq<byte>, p: Post, suffix: seq<byte>)
    ensures var rest := p.body + EndMarker(p.metadata.id) + ([NEWLINE] + suffix);
            var after := c.encode(p.metadata) + LINE_END + [NEWLINE] + rest;
            var text := prefix + RenderEntry(c, p) + suffix;
            && text == prefix + [NEWLINE] + START + after && text[|prefix| + 1 + |START|..] == after
            && rest[|p.body| + |EndMarker(p.metadata.id)|..] == [NEWLINE] + suffix
  {
    hide START, LINE_END, EndMarker;
    var rest := p.body + EndMarker(p.metadata.id) + ([NEWLINE] + suffix);
    var after := c.encode(p.metadata) + LINE_END + [NEWLINE] + rest;
    assert prefix + RenderEntry(c, p) + suffix == prefix + [NEWLINE] + START + after;
  }

  lemma LineCut(line: seq<byte>, rest: seq<byte>)
    requires NEWLINE !in line
    ensures var after := line + [NEWLINE] + rest;
            Find(after, [NEWLINE]) == Some(|line|) && after[..|line|] == line && after[|line| + 1..] == rest
  {
    var after := line + [NEWLINE] + rest;
    assert after[|line|] == NEWLINE;
    FirstSeparator(after, NEWLINE, |line|);
  }

  lemma NextIsWritten(c: Codec, prefix: seq<byte>, p: Post, suffix: seq<byte>)
    requires c.Faithful() && Framed(p) && ShortLine(c, p) && !Contains(prefix, START)
    ensures NextEntry(c, prefix + RenderEntry(c, p) + suffix) == Found(p, [NEWLINE] + suffix)
  {
    LineEndPlain();
    hide START, END, LINE_END, ReadEntry, Find, RenderEntry, EndMarker, Contains;
    var line := c.encode(p.metadata) + LINE_END;
    var rest := p.body + EndMarker(p.metadata.id) + ([NEWLINE] + suffix);
    EntryParts(c, prefix, p, suffix);
    FirstStart(prefix, line + [NEWLINE] + rest);
    LineCut(line, rest);
    ReadRendered(c, p, [NEWLINE] + suffix);
  }

  /** One written entry, behind anything without an entry marker, is read off. */
  lemma ParseEntry(c: Codec, prefix: seq<byte>, p: Post, suffix: seq<byte>, kept: seq<Post>)
    requires c.Faithful() && Framed(p) && ShortLine(c, p) && !Contains(prefix, START)
    ensures ParseFrom(c, prefix + RenderEntry(c, p) + suffix, kept)
            == ParseFrom(c, [NEWLINE] + suffix, Without(kept, p.metadata.id) + [p])
  {
    hide NextEntry, RenderEntry, Without, Contains, Framed, ShortLine;
    NextIsWritten(c, prefix, p, suffix);
  }

  lemma LineEndPlain()
    ensures NEWLINE !in LINE_END && !Contains([NEWLINE], START)
  {
    MarkerFacts();
  }

  /** Parsing what was rendered gives the posts back, the last of each id. */
  lemma {:induction false} ParseRenderedFrom(c: Codec, prefix: seq<byte>, posts: seq<Post>, kept: seq<Post>)
    requires c.Faithful() && !Contains(prefix, START)
    requires forall p <- posts :: Framed(p) && ShortLine(c, p)
    ensures ParseFrom(c, prefix + RenderEntries(c, posts), kept) == KeepLast(kept, posts)
    decreases |posts|
  {
    hide START, RenderEntry, ShortLine;
    if posts == [] {
      assert prefix + [] == prefix;
      FirstStart(prefix, []);
    } else {
      ParseEntry(c, prefix, posts[0], RenderEntries(c, posts[1..]), kept);
      assert prefix + (RenderEntry(c, posts[0]) + RenderEntries(c, posts[1..]))
          == prefix + RenderEntry(c, posts[0]) + RenderEntries(c, posts[1..]);
      LineEndPlain();
      ParseRenderedFrom(c, [NEWLINE], posts[1..], Without(kept, posts[0].metadata.id) + [posts[0]]);
    }
  }

  lemma {:induction false} WithoutAbsent(posts: seq<Post>, id: seq<byte>)
    requires forall p <- posts :: p.metadata.id != id
    ensures Without(posts, id) == posts
  {
    if posts != [] {
      WithoutAbsent(posts[1..], id);
    }
  }

  lemma {:induction false} KeepLastDistinct(kept: seq<Post>, posts: seq<Post>)
    requires DistinctIds(kept + posts)
    ensures KeepLast(kept, posts) == kept + posts
    decreases |posts|
  {
    if posts == [] {
      assert kept + [] == kept;
    } else {
      var p := posts[0];
      forall q | q in kept ensures q.metadata.id != p.metadata.id {
        var i :| 0 <= i < |kept| && kept[i] == q;
        assert (kept + posts)[i] == q && (kept + posts)[|kept|] == p;
      }
      WithoutAbsent(kept, p.metadata.id);
      assert kept + posts == kept + [p] + posts[1..];
      KeepLastDistinct(kept + [p], posts[1..]);
    }
  }

  /**
   * Framing round trip: whatever the bodies contain, a board of framed posts
   * with distinct ids is read back exactly, provided the header holds no entry
   * marker and no metadata line exceeds the reader's bound.
   */
  lemma RoundTrip(c: Codec, header: seq<byte>, posts: seq<Post>)
    requires c.Faithful() && !Contains(header, START)
    requires DistinctIds(posts) && forall p <- posts :: Framed(p) && ShortLine(c, p)
    ensures Posts(c, header + RenderEntries(c, posts)) == posts
  {
    hide START, ParseFrom, ShortLine, Framed, RenderEntries;
    ParseRenderedFrom(c, header, posts, []);
    assert [] + posts == posts;
    KeepLastDistinct([], posts);
  }

  // ----- What parsing yields on any text -----

  ghost predicate WellFormed(posts: seq<Post>) {
    DistinctIds(posts) && forall p <- posts :: Framed(p)
  }

  lemma {:induction false} WithoutKeepsForm(posts: seq<Post>, id: seq<byte>)
    requires WellFormed(posts)
    ensures WellFormed(Without(posts, id))
    ensures forall p <- Without(posts, id) :: p in posts && p.metadata.id != id
  {
    if posts != [] {
      assert forall p <- posts[1..] :: p in posts;
      WithoutKeepsForm(posts[1..], id);
      var rest := Without(posts[1..], id);
      forall p | p in rest ensures p.metadata.id != posts[0].metadata.id {
        var k :| 0 <= k < |posts[1..]| && posts[1..][k] == p;
        assert posts[k + 1] == p;
      }
    }
  }

  /** However damaged the text, the posts read from it are framed and distinct. */
  lemma {:induction false} ParsedWellFormed(c: Codec, text: seq<byte>, posts: seq<Post>)
    requires WellFormed(posts)
    ensures WellFormed(ParseFrom(c, text, posts))
    decreases |text|
  {
    hide WellFormed, NextEntry;
    match NextEntry(c, text)
    case NoMarker =>
    case Skipped(rest) => ParsedWellFormed(c, rest, posts);
    case Found(post, rest) =>
      AppendKeepsForm(posts, post);
      ParsedWellFormed(c, rest, Without(posts, post.metadata.id) + [post]);
  }

  lemma AppendKeepsForm(posts: seq<Post>, post: Post)
    requires WellFormed(posts) && Framed(post)
    ensures WellFormed(Without(posts, post.metadata.id) + [post])
  {
    WithoutKeepsForm(posts, post.metadata.id);
    var kept := Without(posts, post.metadata.id);
    assert forall i | 0 <= i < |kept| :: kept[i] in kept;
  }

  lemma EmptyWellFormed()
    ensures WellFormed([])
  {
  }

  /** Rewriting a board, debris and all, changes none of its posts. */
  lemma RewriteKeepsPosts(c: Codec, text: seq<byte>, header: seq<byte>)
    requires c.Faithful() && !Contains(header, START)
    requires forall p <- Posts(c, text) :: ShortLine(c, p)
    ensures Posts(c, header + RenderEntries(c, Posts(c, text))) == Posts(c, text)
  {
    EmptyWellFormed();
    ParsedWellFormed(c, text, []);
    RoundTrip(c, header, Posts(c, text));
  }

  // ----- Exactly the entries -----

  /** An id has 1 to 80 letters, digits, hyphens and underscores. */
  lemma IdsExactly(id: seq<byte>)
    ensures ValidId(id) <==>
              1 <= |id| <= 80
              && forall b <- id :: var c := b as int as char;
                                   c in LETTERS || c in CAPITALS || c in DIGITS || c == '-' || c == '_'
  {
    forall b <- id ensures var c := b as int as char;
      IdByte(b) <==> c in LETTERS || c in CAPITALS || c in DIGITS || c == '-' || c == '_'
    {
      InLetters(b as int as char);
    }
    hide LETTERS, CAPITALS, DIGITS;
  }

  /** The metadata line of a post, and its body with the end marker in front of the rest. */
  ghost predicate EntryText(c: Codec, line: seq<byte>, rest: seq<byte>, p: Post) {
    && |line| <= 131072 && |LINE_END| <= |line| && line[|line| - |LINE_END|..] == LINE_END
    && c.decode(line[..|line| - |LINE_END|]) == Some(p.metadata)
    && ValidId(p.metadata.id) && |p.body| == p.metadata.bodyBytes <= 0x80_0000
    && exists behind :: rest == p.body + EndMarker(p.metadata.id) + behind
  }

  /** An entry is read exactly if its line decodes, and a body of the stated size ends with its own end marker. */
  lemma EntryIsReadExactly(c: Codec, line: seq<byte>, rest: seq<byte>, p: Post)
    ensures ReadEntry(c, line, rest) == Some(p) <==> EntryText(c, line, rest, p)
  {
    MarkerFacts();
    EndMarkerStarts(p.metadata.id);
    hide LINE_END, ValidId, EndMarker;
    var n := p.metadata.bodyBytes;
    if ReadEntry(c, line, rest) == Some(p) {
      MarkerIsThere(rest, n, EndMarker(p.metadata.id));
    }
    if EntryText(c, line, rest, p) {
      var behind :| rest == p.body + EndMarker(p.metadata.id) + behind;
      assert rest[n..] == EndMarker(p.metadata.id) + behind && rest[..n] == p.body;
      assert rest[n..][0..|EndMarker(p.metadata.id)|] == EndMarker(p.metadata.id);
      assert rest[n] == NEWLINE;
    }
  }

  lemma EndMarkerStarts(id: seq<byte>)
    ensures |EndMarker(id)| > 0 && EndMarker(id)[0] == NEWLINE
  {
    assert END[0] == 10;
  }

  lemma MarkerIsThere(rest: seq<byte>, n: nat, marker: seq<byte>)
    requires n <= |rest| && StartsWith(rest[n..], marker)
    ensures rest == rest[..n] + marker + rest[n + |marker|..]
  {
    assert rest[n..][0..|marker|] == marker;
    assert rest[n..n + |marker|] == marker;
  }
}
