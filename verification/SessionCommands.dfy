// Recognising the command line that resumes a session of one of the agents.

module SessionCommands {
  import opened Basics

  datatype Provider = Claude | Codex | Kimi | OpenCode | Qwen | Muse

  datatype Command = Command(provider: Provider, id: string)

  // ----- Pieces of text -----

  function Lower(s: string): (r: string)
    ensures |r| == |s| && forall i | 0 <= i < |r| :: r[i] == LowerChar(s[i])
  {
    seq(|s|, i requires 0 <= i < |s| => LowerChar(s[i]))
  }

  /** The text behind the last `&&`, or all of it. */
  function LastCommand(line: string): string {
    if !Contains(line, "&&") then line
    else if Contains(line[1..], "&&") || !StartsWith(line, "&&") then LastCommand(line[1..])
    else line[2..]
  }

  /** Length of the run without white space at the start. */
  function WordLength(s: string): (n: nat)
    ensures n <= |s|
  {
    if s == "" || IsSpace(s[0]) then 0 else 1 + WordLength(s[1..])
  }

  function Words(s: string): seq<string>
    decreases |s|
  {
    if s == "" then []
    else if IsSpace(s[0]) then Words(s[1..])
    else [s[..WordLength(s)]] + Words(s[WordLength(s)..])
  }

  function TrimStartOf(s: string, cut: string): (r: string)
    ensures |r| <= |s|
  {
    if s != "" && s[0] in cut then TrimStartOf(s[1..], cut) else s
  }

  function TrimEndOf(s: string, cut: string): (r: string)
    ensures |r| <= |s|
  {
    if s != "" && s[|s| - 1] in cut then TrimEndOf(s[..|s| - 1], cut) else s
  }

  function Unquoted(s: string): string {
    TrimEndOf(TrimStartOf(TrimSpace(s), "'\""), "'\"")
  }

  /** The part of a path behind its last separator. */
  function BaseName(path: string): string {
    if path == "" then ""
    else if path[|path| - 1] == '/' || path[|path| - 1] == '\\' then ""
    else BaseName(path[..|path| - 1]) + [path[|path| - 1]]
  }

  function Executable(word: string): string {
    var name := Lower(BaseName(Unquoted(word)));
    if |name| >= 4 && (name[|name| - 4..] == ".exe" || name[|name| - 4..] == ".cmd") then name[..|name| - 4] else name
  }

  predicate IdChar(c: char) {
    '0' <= c <= '9' || 'a' <= c <= 'z' || 'A' <= c <= 'Z' || c == '-' || c == '_' || c == '.'
  }

  predicate IsId(s: string) {
    s != "" && forall c <- s :: IdChar(c)
  }

  function NormalizeId(value: string, provider: Provider): (r: Option<string>)
    ensures r.Some? ==> IsId(r.value) && (provider == Codex ==> Lower(r.value) == r.value)
  {
    var id := TrimEndOf(Unquoted(value), ",;");
    if !IsId(id) then None
    else if provider != Codex then Some(id)
    else
      assert forall c <- Lower(id) :: exists i :: 0 <= i < |id| && c == LowerChar(id[i]) && id[i] in id;
      Some(Lower(id))
  }

  // ----- Commands -----

  /** Flags that carry the session id behind `=`, and those followed by it. */
  datatype Flags = Flags(inline: set<string>, plain: set<string>, foldsCase: bool, foldsValue: bool)

  function FlagsOf(p: Provider): Flags {
    match p
    case Claude => var f := {"--resume", "-r", "--session-id"}; Flags(f, f, false, false)
    case Codex => Flags({}, {}, true, false)
    case Kimi => var f := {"--session", "--resume", "-s", "-r"}; Flags(f, f, true, true)
    case OpenCode => var f := {"--session", "-s"}; Flags(f, f, true, false)
    case Qwen => var f := {"--resume", "-r"}; Flags(f, f, true, false)
    case Muse => var f := {"--resume", "--session-id", "--session", "-r", "-s"}; Flags(f, f + {"resume"}, true, false)
  }

  function ProviderOf(executable: string): Option<Provider> {
    if executable == "claude" then Some(Claude)
    else if executable == "codex" then Some(Codex)
    else if executable == "kimi" then Some(Kimi)
    else if executable == "opencode" then Some(OpenCode)
    else if executable == "qwen" then Some(Qwen)
    else if executable == "muse" then Some(Muse)
    else None
  }

  function Fold(s: string, fold: bool): string {
    if fold then Lower(s) else s
  }

  /** The id that follows the first session flag among the words. */
  function FlaggedId(words: seq<string>, f: Flags): Option<string> {
    if words == [] then None
    else
      var word := words[0];
      var equals := Find(word, "=");
      if equals.Some? && Fold(word[..equals.value], f.foldsCase) in f.inline then
        Some(Fold(word[equals.value + 1..], f.foldsValue))
      else if Fold(word, f.foldsCase) in f.plain then if |words| > 1 then Some(words[1]) else None
      else FlaggedId(words[1..], f)
  }

  function RawId(provider: Provider, words: seq<string>): Option<string>
    requires words != []
  {
    if provider == Codex then
      if |words| >= 3 && Lower(words[1]) in {"resume", "fork"} then Some(words[2]) else None
    else FlaggedId(words[1..], FlagsOf(provider))
  }

  predicate CanonicalCommand(c: Command) {
    IsId(c.id) && (c.provider == Codex ==> Lower(c.id) == c.id)
  }

  function ParseCommand(line: string): (r: Option<Command>)
    ensures r.Some? ==> CanonicalCommand(r.value)
  {
    var words := Words(LastCommand(line));
    if words == [] then None
    else match ProviderOf(Executable(words[0]))
      case None => None
      case Some(provider) =>
        match RawId(provider, words)
        case None => None
        case Some(raw) =>
          match NormalizeId(raw, provider)
          case None => None
          case Some(id) => Some(Command(provider, id))
  }

  // ----- The command that is written -----

  function Verb(p: Provider): seq<string> {
    match p
    case Claude => ["claude", "--resume"]
    case Codex => ["codex", "resume"]
    case Kimi => ["kimi", "--session"]
    case OpenCode => ["opencode", "--session"]
    case Qwen => ["qwen", "--resume"]
    case Muse => ["muse", "resume"]
  }

  function CommandLine(c: Command): string {
    Verb(c.provider)[0] + " " + Verb(c.provider)[1] + " " + c.id + if c.provider == Muse then " --yolo" else ""
  }

  /** A word without white space is one word. */
  lemma {:induction false} WordThen(word: string, rest: string)
    requires word != "" && (forall c <- word :: !IsSpace(c)) && (rest == "" || IsSpace(rest[0]))
    ensures Words(word + rest) == [word] + Words(rest)
  {
    WordLengthIs(word, rest);
    var s := word + rest;
    assert word[0] in word;
    assert s[..|word|] == word && s[|word|..] == rest;
  }

  lemma {:induction false} WordLengthIs(word: string, rest: string)
    requires (forall c <- word :: !IsSpace(c)) && (rest == "" || IsSpace(rest[0]))
    ensures WordLength(word + rest) == |word|
  {
    if word == "" {
      assert word + rest == rest;
    } else {
      assert word[0] in word;
      assert (word + rest)[1..] == word[1..] + rest;
      WordLengthIs(word[1..], rest);
    }
  }

  lemma SpaceThen(rest: string)
    ensures Words(" " + rest) == Words(rest)
  {
    assert (" " + rest)[1..] == rest;
  }

  lemma PairIsAmpersand(s: string, i: nat)
    requires MatchAt(s, "&&", i)
    ensures '&' in s
  {
    assert s[i..i + 2][0] == '&' && s[i] in s;
  }

  lemma NoAmpersand(s: string)
    requires '&' !in s
    ensures !Contains(s, "&&") && LastCommand(s) == s
  {
    if Contains(s, "&&") {
      var i :| 0 <= i <= |s| && MatchAt(s, "&&", i);
      PairIsAmpersand(s, i);
    }
  }

  lemma IdIsPlain(id: string)
    requires IsId(id)
    ensures TrimEndOf(Unquoted(id), ",;") == id
    ensures forall c <- id :: !IsSpace(c) && c != '&'
  {
    assert id[0] in id && id[|id| - 1] in id;
  }

  predicate Letters(s: string) {
    forall c <- s :: 'a' <= c <= 'z'
  }

  lemma {:induction false} LettersBaseName(s: string)
    requires Letters(s)
    ensures BaseName(s) == s
  {
    if s != "" {
      var n := |s| - 1;
      assert s[n] in s && s == s[..n] + [s[n]];
      assert forall c <- s[..n] :: c in s;
      LettersBaseName(s[..n]);
    }
  }

  lemma LettersUnquoted(s: string)
    requires s != "" && Letters(s)
    ensures Unquoted(s) == s
  {
    assert s[0] in s && s[|s| - 1] in s;
    assert TrimSpace(s) == s;
  }

  lemma LettersLower(s: string)
    requires Letters(s)
    ensures Lower(s) == s
  {
    assert forall i | 0 <= i < |s| :: s[i] in s;
  }

  lemma LettersExecutable(s: string)
    requires s != "" && Letters(s)
    ensures Executable(s) == s
  {
    LettersUnquoted(s);
    LettersBaseName(s);
    LettersLower(s);
    hide Unquoted, BaseName, Lower;
    if |s| >= 4 {
      assert s[|s| - 4] in s && s[|s| - 4..][0] == s[|s| - 4];
    }
  }

  lemma VerbLetters(p: Provider)
    ensures |Verb(p)| == 2 && Verb(p)[0] != "" && Verb(p)[1] != "" && Letters(Verb(p)[0])
    ensures ProviderOf(Verb(p)[0]) == Some(p)
  {
  }

  predicate FlagChar(c: char) {
    'a' <= c <= 'z' || c == '-'
  }

  lemma VerbSecond(p: Provider)
    ensures |Verb(p)| == 2 && forall c <- Verb(p)[1] :: FlagChar(c)
  {
  }

  lemma FlagLower(s: string)
    requires forall c <- s :: FlagChar(c)
    ensures Lower(s) == s
  {
    assert forall i | 0 <= i < |s| :: s[i] in s;
  }

  lemma VerbIsPlain(p: Provider)
    ensures |Verb(p)| == 2 && Verb(p)[0] != "" && Verb(p)[1] != "" && Letters(Verb(p)[0])
    ensures ProviderOf(Verb(p)[0]) == Some(p)
    ensures Lower(Verb(p)[1]) == Verb(p)[1]
    ensures forall c <- Verb(p)[0] + Verb(p)[1] :: !IsSpace(c) && c != '&' && c != '='
  {
    VerbLetters(p);
    VerbSecond(p);
    hide Verb, ProviderOf, Lower;
    FlagLower(Verb(p)[1]);
  }

  /** The words of a written command. */
  lemma CommandWords(c: Command)
    requires CanonicalCommand(c)
    ensures LastCommand(CommandLine(c)) == CommandLine(c)
    ensures Words(CommandLine(c)) == Verb(c.provider) + [c.id] + if c.provider == Muse then ["--yolo"] else []
  {
    hide Verb, Words, LastCommand, CommandLine, IsWord, IsSpace;
    VerbWords(c.provider);
    IdIsWord(c.id);
    var v0, v1 := Verb(c.provider)[0], Verb(c.provider)[1];
    var tail := if c.provider == Muse then " --yolo" else "";
    TailWords();
    CommandText(c, tail);
    assert tail == "" || IsSpace(tail[0]) by { SpaceIsSpace(); }
    ThreeWords(v0, v1, c.id, tail);
    CommandIsLast(c);
  }

  lemma SpaceIsSpace()
    ensures IsSpace(' ')
  {
  }

  lemma VerbWords(p: Provider)
    ensures |Verb(p)| == 2 && Verb(p) == [Verb(p)[0], Verb(p)[1]] && IsWord(Verb(p)[0]) && IsWord(Verb(p)[1])
  {
    hide Verb;
    VerbIsPlain(p);
  }

  lemma IdIsWord(id: string)
    requires IsId(id)
    ensures IsWord(id)
  {
    IdIsPlain(id);
  }

  lemma CommandText(c: Command, tail: string)
    requires tail == if c.provider == Muse then " --yolo" else ""
    ensures |Verb(c.provider)| == 2
    ensures CommandLine(c) == Verb(c.provider)[0] + (" " + (Verb(c.provider)[1] + (" " + (c.id + tail))))
  {
    VerbWords(c.provider);
    hide Verb;
  }

  predicate IsWord(s: string) {
    s != "" && forall c <- s :: !IsSpace(c)
  }

  lemma ThreeWords(a: string, b: string, c: string, tail: string)
    requires IsWord(a) && IsWord(b) && IsWord(c) && (tail == "" || IsSpace(tail[0]))
    ensures Words(a + (" " + (b + (" " + (c + tail))))) == [a, b] + [c] + Words(tail)
  {
    hide Words;
    WordThen(c, tail);
    Spaced(b, c + tail);
    Spaced(a, b + (" " + (c + tail)));
    assert [a] + ([b] + ([c] + Words(tail))) == [a, b] + [c] + Words(tail);
  }

  lemma CommandIsLast(c: Command)
    requires CanonicalCommand(c)
    ensures LastCommand(CommandLine(c)) == CommandLine(c)
  {
    hide Verb, Words, LastCommand;
    VerbIsPlain(c.provider);
    IdIsPlain(c.id);
    NoAmpersandIn(Verb(c.provider)[0], Verb(c.provider)[1], c.id, if c.provider == Muse then " --yolo" else "");
    NoAmpersand(CommandLine(c));
  }

  lemma NoAmpersandIn(v0: string, v1: string, id: string, tail: string)
    requires '&' !in v0 + v1 && '&' !in id && '&' !in tail
    ensures '&' !in v0 + " " + v1 + " " + id + tail
  {
    assert forall c <- v0 :: c in v0 + v1;
    assert forall c <- v1 :: c in v0 + v1;
  }

  lemma TailWords()
    ensures Words("") == [] && Words(" --yolo") == ["--yolo"]
  {
    SpaceThen("--yolo");
    WordThen("--yolo", "");
    assert " --yolo" == " " + "--yolo" && "--yolo" + "" == "--yolo";
  }

  lemma Spaced(word: string, rest: string)
    requires word != "" && forall c <- word :: !IsSpace(c)
    ensures Words(word + (" " + rest)) == [word] + Words(rest)
  {
    WordThen(word, " " + rest);
    SpaceThen(rest);
  }

  lemma VerbFlags(p: Provider, later: seq<string>)
    requires p != Codex && later != []
    ensures FlaggedId([Verb(p)[1]] + later, FlagsOf(p)) == Some(later[0])
  {
    VerbIsPlain(p);
    VerbInFlags(p);
    hide Verb, FlagsOf, Lower, Find;
    var word := Verb(p)[1];
    assert '=' !in word by {
      assert forall c <- word :: c in Verb(p)[0] + word;
    }
    NoEquals(word);
    assert Fold(word, FlagsOf(p).foldsCase) == word;
    assert ([word] + later)[0] == word && ([word] + later)[1] == later[0];
  }

  lemma VerbInFlags(p: Provider)
    requires p != Codex
    ensures |Verb(p)| == 2 && Verb(p)[1] in FlagsOf(p).plain
  {
  }

  lemma NoEquals(word: string)
    requires '=' !in word
    ensures Find(word, "=") == None
  {
    var found := Find(word, "=");
    if found.Some? {
      OneMatch(word, found.value);
    }
  }

  lemma OneMatch(word: string, i: nat)
    requires MatchAt(word, "=", i)
    ensures '=' in word
  {
    assert word[i..i + 1][0] == '=' && word[i] in word;
  }

  /** What is written for a session is recognised as that session. */
  lemma CommandRoundTrip(c: Command)
    requires CanonicalCommand(c)
    ensures ParseCommand(CommandLine(c)) == Some(c)
  {
    hide CommandLine, Words, LastCommand, Find, Executable, FlaggedId, FlagsOf, ProviderOf, IsId, Unquoted, TrimEndOf;
    CommandWords(c);
    VerbIsPlain(c.provider);
    LettersExecutable(Verb(c.provider)[0]);
    var words := Words(CommandLine(c));
    var later := [c.id] + if c.provider == Muse then ["--yolo"] else [];
    assert words[0] == Verb(c.provider)[0] && words[1..] == [Verb(c.provider)[1]] + later;
    if c.provider != Codex {
      VerbFlags(c.provider, later);
    }
    assert RawId(c.provider, words) == Some(c.id);
    IdIsPlain(c.id);
    assert NormalizeId(c.id, c.provider) == Some(c.id);
  }

  lemma ShiftedPair(title: string, i: nat)
    requires MatchAt("# " + title, "&&", i)
    ensures i >= 2 && MatchAt(title, "&&", i - 2)
  {
    var line := "# " + title;
    assert line[i..i + 2][0] == line[i] == '&';
    assert i >= 2;
    MatchInBack("# ", title, "&&", i - 2);
  }

  /** A mark in front of a text leaves what stands behind its last two ampersands. */
  lemma TitleCommandText(title: string)
    ensures Contains("# " + title, "&&") <==> Contains(title, "&&")
    ensures Contains(title, "&&") ==> LastCommand("# " + title) == LastCommand(title)
  {
    hide LastCommand;
    var line := "# " + title;
    if Contains(line, "&&") {
      var i :| 0 <= i <= |line| && MatchAt(line, "&&", i);
      ShiftedPair(title, i);
    }
    if Contains(title, "&&") {
      var i :| 0 <= i <= |title| && MatchAt(title, "&&", i);
      MatchInBack("# ", title, "&&", i);
      MatchInBack(" ", title, "&&", i);
      assert line[1..] == " " + title && (" " + title)[1..] == title;
      PairIn(line, i + 2);
      PairIn(" " + title, i + 1);
      SkipFirst(line);
      SkipFirst(" " + title);
    }
  }

  lemma PairIn(s: string, i: nat)
    requires MatchAt(s, "&&", i)
    ensures Contains(s, "&&")
  {
  }

  lemma SkipFirst(s: string)
    requires s != "" && Contains(s, "&&") && Contains(s[1..], "&&")
    ensures LastCommand(s) == LastCommand(s[1..])
  {
    hide Contains;
  }

  /** What follows the last two ampersands holds no further pair. */
  lemma {:induction false} LastCommandIsLast(s: string)
    ensures !Contains(LastCommand(s), "&&") && LastCommand(LastCommand(s)) == LastCommand(s)
  {
    if Contains(s, "&&") {
      if Contains(s[1..], "&&") || !StartsWith(s, "&&") {
        LastCommandIsLast(s[1..]);
      } else {
        PairBehind(s);
      }
    }
  }

  lemma PairBehind(s: string)
    requires |s| >= 2 && !Contains(s[1..], "&&")
    ensures !Contains(s[2..], "&&")
  {
    if Contains(s[2..], "&&") {
      var i :| 0 <= i <= |s[2..]| && MatchAt(s[2..], "&&", i);
      assert s[1..] == [s[1]] + s[2..];
      MatchInBack([s[1]], s[2..], "&&", i);
    }
  }

  lemma SameCommand(a: string, b: string)
    requires LastCommand(a) == LastCommand(b)
    ensures ParseCommand(a) == ParseCommand(b)
  {
    hide LastCommand, RawId, NormalizeId, Words, Executable, ProviderOf;
  }

  /** A line that begins with a mark and is not cut names no agent. */
  lemma MarkedLine(title: string)
    requires LastCommand("# " + title) == "# " + title
    ensures ParseCommand("# " + title) == None
  {
    hide LastCommand, RawId, NormalizeId, Words, Executable, ProviderOf;
    assert "# " + title == "#" + (" " + title);
    Spaced("#", title);
    HashIsNoAgent();
  }

  /** A title line is a command exactly when one stands behind its last two ampersands. */
  lemma TitleCommand(title: string)
    ensures ParseCommand("# " + title) == if Contains(title, "&&") then ParseCommand(LastCommand(title)) else None
  {
    hide ParseCommand, Contains;
    TitleCommandText(title);
    LastCommandIsLast(title);
    if Contains(title, "&&") {
      SameCommand("# " + title, LastCommand(title));
    } else {
      MarkedLine(title);
    }
  }

  lemma {:induction false} BehindPair(front: string, rest: string)
    requires '&' !in rest
    ensures LastCommand(front + "&&" + rest) == rest
  {
    var s := front + "&&" + rest;
    MatchMiddle(front, rest);
    if front == "" {
      NoLaterPair(rest);
      assert s[1..] == "&" + rest && s[2..] == rest;
    } else {
      assert s[1..] == front[1..] + "&&" + rest;
      MatchMiddle(front[1..], rest);
      SkipFirst(s);
      BehindPair(front[1..], rest);
    }
  }

  lemma MatchMiddle(front: string, rest: string)
    ensures MatchAt(front + "&&" + rest, "&&", |front|)
    ensures Contains(front + "&&" + rest, "&&")
  {
    assert (front + "&&" + rest)[|front|..|front| + 2] == "&&";
    PairIn(front + "&&" + rest, |front|);
  }

  lemma NoLaterPair(rest: string)
    requires '&' !in rest
    ensures !Contains("&" + rest, "&&")
  {
    var s := "&" + rest;
    forall i | 0 <= i <= |s| ensures !MatchAt(s, "&&", i) {
      if i + 2 <= |s| {
        assert s[i + 1] in rest && s[i..i + 2][1] == s[i + 1];
      }
    }
  }

  /** A command behind two ampersands is recognised whatever stands before them. */
  lemma CommandBehindPair(front: string, c: Command)
    requires CanonicalCommand(c)
    ensures ParseCommand(front + "&&" + (" " + CommandLine(c))) == Some(c)
  {
    hide CommandLine, Words, LastCommand, RawId, NormalizeId, Executable, ProviderOf;
    CommandWords(c);
    CommandIsPlain(c);
    BehindPair(front, " " + CommandLine(c));
    SpaceThen(CommandLine(c));
    CommandRoundTrip(c);
  }

  lemma CommandIsPlain(c: Command)
    requires CanonicalCommand(c)
    ensures '&' !in " " + CommandLine(c)
  {
    hide Verb;
    VerbIsPlain(c.provider);
    IdIsPlain(c.id);
    var v0, v1 := Verb(c.provider)[0], Verb(c.provider)[1];
    assert CommandLine(c) == v0 + " " + v1 + " " + c.id + if c.provider == Muse then " --yolo" else "";
    NoAmpersandIn(v0, v1, c.id, if c.provider == Muse then " --yolo" else "");
  }

  lemma HashUnquoted()
    ensures Unquoted("#") == "#"
  {
    assert TrimSpace("#") == "#";
  }

  lemma HashIsNoAgent()
    ensures ProviderOf(Executable("#")) == None
  {
    hide Unquoted, BaseName, ProviderOf;
    HashUnquoted();
    HashBaseName();
    ShortName(Executable("#"));
  }

  lemma HashBaseName()
    ensures BaseName("#") == "#"
  {
    assert "#"[..0] == "" && BaseName("") == "";
  }

  lemma ShortName(name: string)
    requires |name| < 4
    ensures ProviderOf(name) == None
  {
  }

  /** An id is made of letters, digits, hyphens, underscores and points. */
  lemma IdCharactersExactly(c: char)
    ensures IdChar(c) <==> c in LETTERS || c in CAPITALS || c in DIGITS || c == '-' || c == '_' || c == '.'
  {
    InLetters(c);
  }
}
