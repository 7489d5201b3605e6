// The forms of a session command that are recognised though they are never
// written: programs by path and suffix, flags in another case, and ids behind
// an equals sign.

module SessionForms {
  import opened Basics
  import opened LineSplitting
  import opened SessionCommands

  function ProgramName(p: Provider): string {
    match p
    case Claude => "claude"
    case Codex => "codex"
    case Kimi => "kimi"
    case OpenCode => "opencode"
    case Qwen => "qwen"
    case Muse => "muse"
  }

  /** A word of a command line, without quotes and without the sign that separates commands. */
  predicate PlainWord(s: string) {
    s != "" && forall c <- s :: !IsSpace(c) && c != '&' && c != '\'' && c != '"'
  }

  predicate Separator(c: char) {
    c == '/' || c == '\\'
  }

  /** Nothing, or a path that ends with a separator. */
  predicate Folder(path: string) {
    path == "" || Separator(path[|path| - 1])
  }

  /** The program by its name in any case, in any folder, with or without a suffix. */
  ghost predicate NamesProgram(word: string, p: Provider) {
    PlainWord(word)
    && exists path, name, suffix: string | Folder(path) && Lower(name) == ProgramName(p)
         && (suffix == "" || Lower(suffix) == ".exe" || Lower(suffix) == ".cmd") :: word == path + name + suffix
  }

  lemma LowerConcat(a: string, b: string)
    ensures Lower(a + b) == Lower(a) + Lower(b)
  {
  }

  lemma PlainUnquoted(s: string)
    requires PlainWord(s)
    ensures Unquoted(s) == s
  {
    assert s[0] in s && s[|s| - 1] in s;
    assert TrimSpace(s) == s;
  }

  lemma {:induction false} BaseNameBehind(path: string, name: string)
    requires Folder(path) && forall c <- name :: !Separator(c)
    ensures BaseName(path + name) == name
    decreases |name|
  {
    if name == "" {
      assert path + name == path;
    } else {
      var front, last := name[..|name| - 1], name[|name| - 1];
      assert last in name && forall c <- front :: c in name;
      assert (path + name)[..|path + name| - 1] == path + front;
      BaseNameBehind(path, front);
      assert name == front + [last];
    }
  }

  lemma NamesHaveLetters(p: Provider)
    ensures |ProgramName(p)| >= 4 && forall c <- ProgramName(p) :: 'a' <= c <= 'z'
    ensures ProviderOf(ProgramName(p)) == Some(p)
  {
  }

  lemma NoSeparators(name: string, word: string)
    requires Lower(name) == word && forall c <- word :: 'a' <= c <= 'z' || c == '.'
    ensures forall c <- name :: !Separator(c)
  {
    forall c <- name ensures !Separator(c) {
      var i :| 0 <= i < |name| && name[i] == c;
      assert Lower(name)[i] in word;
    }
  }

  lemma SuffixLetters()
    ensures forall c <- ".exe" :: 'a' <= c <= 'z' || c == '.'
    ensures forall c <- ".cmd" :: 'a' <= c <= 'z' || c == '.'
  {
  }

  /** However the program is named, its command is recognised as the agent's. */
  lemma ProgramIsRecognised(word: string, p: Provider)
    requires NamesProgram(word, p)
    ensures ProviderOf(Executable(word)) == Some(p)
  {
    hide Lower, Executable, ProviderOf, ProgramName, Folder, PlainWord;
    var path, name, suffix: string :| Folder(path) && Lower(name) == ProgramName(p)
      && (suffix == "" || Lower(suffix) == ".exe" || Lower(suffix) == ".cmd") && word == path + name + suffix;
    NamesHaveLetters(p);
    PartsAreRecognised(word, path, name, suffix, ProgramName(p));
  }

  lemma PartsAreRecognised(word: string, path: string, name: string, suffix: string, lower: string)
    requires PlainWord(word) && word == path + name + suffix && Folder(path) && Lower(name) == lower
    requires suffix == "" || Lower(suffix) == ".exe" || Lower(suffix) == ".cmd"
    requires |lower| >= 4 && forall c <- lower :: 'a' <= c <= 'z'
    ensures Executable(word) == lower
  {
    hide Lower, BaseName, Unquoted, Executable, Folder, PlainWord, Separator;
    PlainUnquoted(word);
    NoSeparators(name, lower);
    SuffixSeparators(suffix);
    LowerConcat(name, suffix);
    assert word == path + (name + suffix);
    NoSeparatorIn(name, suffix);
    BaseNameBehind(path, name + suffix);
    SuffixIsCut(word, lower, Lower(suffix));
  }

  lemma NoSeparatorIn(a: string, b: string)
    requires (forall c <- a :: !Separator(c)) && forall c <- b :: !Separator(c)
    ensures forall c <- a + b :: !Separator(c)
  {
    hide Separator;
  }

  lemma SuffixSeparators(suffix: string)
    requires suffix == "" || Lower(suffix) == ".exe" || Lower(suffix) == ".cmd"
    ensures forall c <- suffix :: !Separator(c)
    ensures Lower(suffix) == "" || Lower(suffix) == ".exe" || Lower(suffix) == ".cmd"
  {
    if suffix != "" {
      SuffixLetters();
      NoSeparators(suffix, Lower(suffix));
    }
  }

  lemma SuffixIsCut(word: string, name: string, suffix: string)
    requires Lower(BaseName(Unquoted(word))) == name + suffix
    requires |name| >= 4 && forall c <- name :: 'a' <= c <= 'z'
    requires suffix == "" || suffix == ".exe" || suffix == ".cmd"
    ensures Executable(word) == name
  {
    hide Lower, BaseName, Unquoted;
    var all := name + suffix;
    if suffix == "" {
      assert all == name && all[|all| - 4] in name;
      assert all[|all| - 4..][0] == all[|all| - 4];
    } else {
      assert all[|all| - 4..] == suffix && all[..|all| - 4] == name;
    }
  }

  // ----- Flags -----

  /** The flag as the agent knows it: Claude's in lower case, the others' in any case. */
  function FlagName(p: Provider, flag: string): string {
    if p == Claude then flag else Lower(flag)
  }

  /** Flags of which the id follows behind an equals sign. */
  predicate InlineFlag(p: Provider, flag: string) {
    match p
    case Claude => flag in ["--resume", "-r", "--session-id"]
    case Codex => false
    case Kimi => Lower(flag) in ["--session", "--resume", "-s", "-r"]
    case OpenCode => Lower(flag) in ["--session", "-s"]
    case Qwen => Lower(flag) in ["--resume", "-r"]
    case Muse => Lower(flag) in ["--resume", "--session-id", "--session", "-r", "-s"]
  }

  /** Flags of which the id is the next word. */
  predicate PlainFlag(p: Provider, flag: string) {
    InlineFlag(p, flag) || (p == Muse && Lower(flag) == "resume")
  }

  lemma FlagsAgree(p: Provider, flag: string)
    ensures InlineFlag(p, flag) <==> Fold(flag, FlagsOf(p).foldsCase) in FlagsOf(p).inline
    ensures p != Codex ==> (PlainFlag(p, flag) <==> Fold(flag, FlagsOf(p).foldsCase) in FlagsOf(p).plain)
  {
    hide Lower;
  }

  lemma FlagCharacters(p: Provider, flag: string)
    requires PlainFlag(p, flag)
    ensures flag != "" && forall c <- FlagName(p, flag) :: 'a' <= c <= 'z' || c == '-'
  {
    hide Lower;
    KnownCharacters(FlagName(p, flag));
  }

  predicate Known(name: string) {
    name in ["--resume", "--session-id", "--session", "-r", "-s", "resume"]
  }

  lemma KnownCharacters(name: string)
    ensures Known(name) ==> name != "" && forall c <- name :: 'a' <= c <= 'z' || c == '-'
  {
    if name == "--resume" {
    } else if name == "--session-id" {
    } else if name == "--session" {
    } else if name == "resume" {
    }
  }

  lemma FlagIsPlain(p: Provider, flag: string)
    requires PlainFlag(p, flag)
    ensures flag != "" && forall c <- flag :: !IsSpace(c) && c != '&' && c != '='
  {
    FlagCharacters(p, flag);
    hide PlainFlag;
    forall c <- flag ensures !IsSpace(c) && c != '&' && c != '=' {
      var i :| 0 <= i < |flag| && flag[i] == c;
      assert FlagName(p, flag)[i] in FlagName(p, flag);
    }
  }

  lemma NoEqualsIn(flag: string)
    requires '=' !in flag
    ensures Find(flag, "=") == None
  {
    NoSeparator(flag, '=');
  }

  /** The id behind a flag is recognised, for any of the agent's flags. */
  lemma FlagThenId(p: Provider, program: string, flag: string, id: string)
    requires p != Codex && NamesProgram(program, p) && PlainFlag(p, flag) && IsId(id)
    ensures ParseCommand(program + (" " + (flag + (" " + id)))) == Some(Command(p, id))
  {
    hide Words, LastCommand, Executable, ProviderOf, NamesProgram, PlainFlag, Unquoted, TrimEndOf, Lower;
    var line := program + (" " + (flag + (" " + id)));
    ProgramIsRecognised(program, p);
    ProgramIsPlain(program, p);
    FlagIsPlain(p, flag);
    FlagsAgree(p, flag);
    IdIsPlain(id);
    assert forall c <- line :: c != '&';
    NoAmpersand(line);
    assert id + "" == id;
    ThreeWords(program, flag, id, "");
    TailWords();
    NoEqualsIn(flag);
    var words := Words(line);
    assert words == [program, flag, id];
    assert words[1..] == [flag, id];
    hide FlagsOf, Fold;
    FirstFlag(flag, id, FlagsOf(p));
    assert NormalizeId(id, p) == Some(id);
  }

  lemma FirstFlag(flag: string, id: string, f: Flags)
    requires Find(flag, "=") == None && Fold(flag, f.foldsCase) in f.plain
    ensures FlaggedId([flag, id], f) == Some(id)
  {
  }

  lemma ProgramIsPlain(program: string, p: Provider)
    requires NamesProgram(program, p)
    ensures IsWord(program) && forall c <- program :: c != '&'
  {
  }

  /** An id behind an equals sign is recognised too; Kimi reads it in lower case. */
  lemma FlagEqualsId(p: Provider, program: string, flag: string, id: string)
    requires NamesProgram(program, p) && InlineFlag(p, flag) && IsId(id)
    ensures ParseCommand(program + (" " + (flag + "=" + id)))
            == Some(Command(p, if p == Kimi then Lower(id) else id))
  {
    hide Words, LastCommand, Executable, ProviderOf, NamesProgram, Unquoted, TrimEndOf, Lower;
    var word := flag + "=" + id;
    var line := program + (" " + word);
    ProgramIsRecognised(program, p);
    ProgramIsPlain(program, p);
    FlagIsPlain(p, flag);
    FlagsAgree(p, flag);
    IdIsPlain(id);
    assert forall c <- line :: c != '&';
    NoAmpersand(line);
    assert word + "" == word;
    WordThen(word, "");
    Spaced(program, word);
    TailWords();
    var words := Words(line);
    assert words == [program, word];
    assert words[1..] == [word];
    hide InlineFlag, FlagsOf, Fold;
    FirstInline(flag, id, FlagsOf(p));
    FoldsValue(p, id);
    NormalizedPlain(Fold(id, FlagsOf(p).foldsValue), p);
    CodexHasNone(p, flag);
  }

  lemma CodexHasNone(p: Provider, flag: string)
    requires InlineFlag(p, flag)
    ensures p != Codex
  {
  }

  lemma FoldsValue(p: Provider, id: string)
    requires IsId(id)
    ensures Fold(id, FlagsOf(p).foldsValue) == (if p == Kimi then Lower(id) else id) && IsId(Lower(id))
  {
    forall c <- Lower(id) ensures IdChar(c) {
      var i :| 0 <= i < |id| && Lower(id)[i] == c;
      assert id[i] in id;
    }
  }

  lemma NormalizedPlain(id: string, p: Provider)
    requires IsId(id) && p != Codex
    ensures NormalizeId(id, p) == Some(id)
  {
    IdIsPlain(id);
    hide Unquoted, TrimEndOf;
  }

  lemma FirstInline(flag: string, id: string, f: Flags)
    requires '=' !in flag && Fold(flag, f.foldsCase) in f.inline
    ensures FlaggedId([flag + "=" + id], f) == Some(Fold(id, f.foldsValue))
  {
    var word := flag + "=" + id;
    assert word[|flag|] == '=' && word[..|flag|] == flag && word[|flag| + 1..] == id;
    FirstSeparator(word, '=', |flag|);
    hide Find;
  }

  /** Codex resumes or forks a session, in any case, and its ids are in lower case. */
  lemma CodexVerbThenId(program: string, verb: string, id: string)
    requires NamesProgram(program, Codex) && (Lower(verb) == "resume" || Lower(verb) == "fork") && IsId(id)
    ensures ParseCommand(program + (" " + (verb + (" " + id)))) == Some(Command(Codex, Lower(id)))
  {
    hide Words, LastCommand, Executable, ProviderOf, NamesProgram, Unquoted, TrimEndOf;
    var line := program + (" " + (verb + (" " + id)));
    ProgramIsRecognised(program, Codex);
    ProgramIsPlain(program, Codex);
    VerbIsWord(verb);
    IdIsPlain(id);
    assert forall c <- line :: c != '&';
    NoAmpersand(line);
    assert id + "" == id;
    ThreeWords(program, verb, id, "");
    TailWords();
    assert Words(line) == [program, verb, id];
  }

  lemma VerbIsWord(verb: string)
    requires Lower(verb) == "resume" || Lower(verb) == "fork"
    ensures IsWord(verb) && forall c <- verb :: c != '&'
  {
    assert forall c <- "resume" :: 'a' <= c <= 'z';
    assert forall c <- "fork" :: 'a' <= c <= 'z';
    forall c <- verb ensures !IsSpace(c) && c != '&' {
      var i :| 0 <= i < |verb| && verb[i] == c;
      assert Lower(verb)[i] in Lower(verb);
    }
  }
}
