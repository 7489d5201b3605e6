// Writing the sessions file, and reading back what was written.

module MarkdownRoundTrip {
  import opened Basics
  import opened LineSplitting
  import opened SessionCommands
  import opened MarkdownConfig

  const GROUP_START: string := "<!-- " + "context-group:" + " "
  const GROUP_END: string := "<!-- " + ("/context-group" + " -->")

  // ----- Writing -----

  function GroupLine(id: string, name: string, color: string): string {
    GROUP_START + id + "|" + name + "|" + color + " -->"
  }

  function WrittenId(commandId: string, provider: Provider): string {
    if provider == Codex then Lower(TrimSpace(commandId)) else TrimSpace(commandId)
  }

  function RenderItem(item: ConfigItem): string {
    match item
    case Group(id, name, color) =>
      GroupLine(NormalizeGroupId(id), if TrimSpace(name) == "" then "Group" else TrimSpace(name),
                NormalizeColor(color)) + "\n"
    case GroupEnd(_) => GROUP_END + "\n"
    case Session(_, name, commandId, provider) =>
      var id := WrittenId(commandId, provider);
      "# " + (if TrimSpace(name) == "" then ShortSessionId(id) else TrimSpace(name)) + "\n"
      + CommandLine(Command(provider, id)) + "\n"
  }

  /** Items with an empty line between each two. */
  function Render(items: seq<ConfigItem>): string {
    if items == [] then ""
    else RenderItem(items[0]) + (if |items| > 1 then "\n" else "") + Render(items[1..])
  }

  method RenderMarkdownItems(items: seq<ConfigItem>) returns (out: string)
    ensures out == Render(items)
  {
    hide RenderItem, Render;
    out := "";
    var i := 0;
    assert items[0..] == items && "" + Render(items) == Render(items);
    while i < |items|
      invariant i <= |items| && out + Render(items[i..]) == Render(items)
    {
      RenderStep(items[i..]);
      assert items[i..][1..] == items[i + 1..];
      ghost var before := out;
      out := out + RenderItem(items[i]);
      if i + 1 < |items| {
        out := out + "\n";
      } else {
        assert out + "" == out;
      }
      assert before + (RenderItem(items[i]) + (if i + 1 < |items| then "\n" else "") + Render(items[i + 1..]))
          == before + RenderItem(items[i]) + (if i + 1 < |items| then "\n" else "") + Render(items[i + 1..]);
      i := i + 1;
    }
    RenderNothing();
    assert items[|items|..] == [] && out + "" == out;
  }

  lemma RenderStep(items: seq<ConfigItem>)
    requires items != []
    ensures Render(items) == RenderItem(items[0]) + (if |items| > 1 then "\n" else "") + Render(items[1..])
  {
  }

  lemma RenderNothing()
    ensures Render([]) == ""
  {
  }

  // ----- Canonical items -----

  /** A title that its written line gives back; `TitleKeptExactly` shows that there are no others. */
  predicate CanonicalTitle(name: string) {
    && name != "" && TrimSpace(name) == name && '\n' !in name
    && ParseCommand("# " + name).None? && !Contains(name, "\\#") && name[0] !in "#*-"
  }

  predicate CanonicalGroupName(name: string) {
    name != "" && TrimSpace(name) == name && '\n' !in name && '|' !in name && '>' !in name
  }

  predicate CanonicalItem(item: ConfigItem) {
    match item
    case Group(id, name, color) => NormalizeGroupId(id) == id && CanonicalGroupName(name)
      && NormalizeColor(color) == color
    case GroupEnd(_) => true
    case Session(id, name, commandId, provider) =>
      id == commandId && CanonicalCommand(Command(provider, commandId)) && CanonicalTitle(name)
  }

  // ----- Text by lines -----

  function OnText(p: Parser, text: string): Parser {
    OnLines(p, Split(text, '\n'))
  }

  lemma TextLine(p: Parser, line: string, rest: string)
    requires '\n' !in line
    ensures OnText(p, line + "\n" + rest) == OnText(OnLine(p, line), rest)
  {
    hide OnLine, Split;
    var text := line + "\n" + rest;
    assert text[|line|] == '\n' && text[..|line|] == line && text[|line| + 1..] == rest;
    FirstSeparator(text, '\n', |line|);
    assert ([line] + Split(rest, '\n'))[1..] == Split(rest, '\n');
  }

  lemma TextEnd(p: Parser)
    ensures OnText(p, "") == p && OnLine(p, "") == p
  {
    NoSeparator("", '\n');
    LinesStep(p, [""], 0);
    NoLines(p);
    assert [""][0..] == [""] && [""][1..] == [];
  }

  // ----- Trimming -----

  /** Trimming is idle exactly on texts without white space at their ends. */
  lemma TrimIdle(s: string)
    ensures TrimSpace(s) == s <==> s == "" || (!IsSpace(s[0]) && !IsSpace(s[|s| - 1]))
  {
    if s != "" {
      TrimShorter(s[1..]);
      TrimShorter(s[..|s| - 1]);
    }
  }

  lemma SpaceTrimmed(s: string)
    ensures TrimSpace(" " + s) == TrimSpace(s)
  {
    assert (" " + s)[1..] == s;
  }

  /** A line between two characters that are no white space. */
  lemma SolidLine(line: string)
    requires line != "" && !IsSpace(line[0]) && !IsSpace(line[|line| - 1])
    ensures TrimSpace(line) == line
  {
    TrimIdle(line);
  }

  // ----- Group lines -----

  lemma BehindWord(word: string, rest: string)
    requires Lower(word) == word
    ensures Behind(word + rest, word) == Some(rest)
  {
    assert (word + rest)[..|word|] == word && (word + rest)[|word|..] == rest;
  }

  lemma NotBehind(s: string, word: string)
    requires word != "" && (s == "" || LowerChar(s[0]) != word[0])
    ensures Behind(s, word) == None
  {
    if |s| >= |word| {
      assert Lower(s[..|word|])[0] == LowerChar(s[0]);
    }
  }

  lemma Cut(s: string, mark: char, rest: string)
    requires mark !in s
    ensures CutAt(s + [mark] + rest, mark) == Some((s, rest))
  {
    var text := s + [mark] + rest;
    assert text[|s|] == mark && text[..|s|] == s && text[|s| + 1..] == rest;
    FirstSeparator(text, mark, |s|);
  }

  lemma CommentStarts(rest: string)
    ensures Behind("<!-- " + rest, "<!--") == Some(" " + rest)
    ensures rest != "" && !IsSpace(rest[0]) ==> SkipSpace(" " + rest) == rest
  {
    assert Lower("<!--") == "<!--";
    assert "<!-- " + rest == "<!--" + (" " + rest);
    BehindWord("<!--", " " + rest);
    assert (" " + rest)[1..] == rest;
  }

  lemma GroupWord()
    ensures Lower("context-group:") == "context-group:" && Lower("/context-group") == "/context-group"
  {
  }

  lemma GroupLineParts(id: string, name: string, color: string)
    ensures GroupLine(id, name, color)
            == "<!-- " + ("context-group:" + (" " + id + "|" + (name + "|" + (color + " -->"))))
  {
    Reassociate("<!-- ", "context-group:", " ", id + "|" + name + "|" + color + " -->");
    assert " " + (id + "|" + name + "|" + color + " -->") == " " + id + "|" + (name + "|" + (color + " -->"));
  }

  lemma Reassociate(a: string, b: string, c: string, d: string)
    ensures a + b + c + d == a + (b + (c + d))
  {
  }

  lemma ClosesEnd()
    ensures Closes(" -->")
  {
    assert " -->"[1..] == "-->";
  }

  lemma ColorCut(color: string)
    requires IsColor(color)
    ensures var last := color + " -->"; |last| >= 7 && last[..7] == color && last[7..] == " -->"
  {
  }

  /** A written group line is read as that group. */
  lemma GroupLineIsRead(id: string, name: string, color: string)
    requires '|' !in id && '>' !in id && '|' !in name && '>' !in name && name != "" && IsColor(color)
    ensures GroupMarker(GroupLine(id, name, color)) == Some(Marker(" " + id, name, color))
  {
    hide GroupLine, CutAt, Behind, SkipSpace, IsColor, Closes, Lower;
    var last := color + " -->";
    var rest := name + "|" + last;
    var fields := " " + id + "|" + rest;
    GroupLineParts(id, name, color);
    CommentStarts("context-group:" + fields);
    GroupWord();
    BehindWord("context-group:", fields);
    Cut(" " + id, '|', rest);
    Cut(name, '|', last);
    ColorCut(color);
    ClosesEnd();
  }

  lemma EndLineIsRead()
    ensures GroupMarker(GROUP_END) == None && GroupEndMarker(GROUP_END)
  {
    hide Lower;
    var rest := "/context-group" + " -->";
    assert GROUP_END == "<!-- " + rest;
    CommentStarts(rest);
    GroupWord();
    BehindWord("/context-group", " -->");
    NotBehind(rest, "context-group:");
    ClosesEnd();
  }

  lemma NoComment(line: string)
    requires line != "" && line[0] != '<'
    ensures GroupMarker(line) == None && !GroupEndMarker(line)
  {
    assert LowerChar(line[0]) != '<';
    NotBehind(line, "<!--");
  }

  // ----- Title and command lines -----

  lemma {:induction false} NothingEscaped(s: string)
    requires !Contains(s, "\\#")
    ensures Unescaped(s) == s
  {
    if s != "" {
      forall i | 0 <= i <= |s| - 1 ensures !MatchAt(s[1..], "\\#", i) {
        if MatchAt(s[1..], "\\#", i) {
          MatchInSlice(s, "\\#", 1, |s|, i);
        }
      }
      assert !MatchAt(s, "\\#", 0);
      NothingEscaped(s[1..]);
    }
  }

  lemma FirstOfPair(line: string, i: nat)
    requires MatchAt(line, "\\#", i)
    ensures line[i] == '\\'
  {
    assert line[i..i + 2][0] == '\\';
  }

  lemma TitleLineIsRead(p: Parser, name: string)
    requires CanonicalTitle(name)
    ensures OnLine(p, "# " + name) == p.(title := name)
  {
    hide GroupMarker, GroupEndMarker, ParseCommand, NormalizeLabel, Contains, TrimSpace, IsSpace;
    var line := "# " + name;
    SolidTitle(name);
    NoComment(line);
    LabelKeptExactly(name);
  }

  lemma CommandIsSolid(c: Command)
    requires CanonicalCommand(c)
    ensures CommandLine(c) != "" && CommandLine(c)[0] != '<' && '\n' !in CommandLine(c)
    ensures TrimSpace(CommandLine(c)) == CommandLine(c)
  {
    hide Verb;
    VerbIsPlain(c.provider);
    IdIsPlain(c.id);
    var v0, v1 := Verb(c.provider)[0], Verb(c.provider)[1];
    var tail := if c.provider == Muse then " --yolo" else "";
    assert v0[0] in v0 && v0[0] in v0 + v1;
    assert forall x <- v0 :: x in v0 + v1;
    assert forall x <- v1 :: x in v0 + v1;
    assert c.id[|c.id| - 1] in c.id;
    assert CommandLine(c) == v0 + " " + v1 + " " + c.id + tail;
    LineOfParts(v0, v1, c.id, tail);
    hide CommandLine, IsSpace, TrimSpace;
    SolidLine(CommandLine(c));
  }

  lemma LineOfParts(v0: string, v1: string, id: string, tail: string)
    requires v0 != "" && id != "" && (tail == "" || tail == " --yolo")
    requires !IsSpace(v0[0]) && !IsSpace(id[|id| - 1])
    requires '\n' !in v0 && '\n' !in v1 && '\n' !in id
    ensures var line := v0 + " " + v1 + " " + id + tail;
            line != "" && line[0] == v0[0] && !IsSpace(line[0]) && !IsSpace(line[|line| - 1]) && '\n' !in line
  {
    var line := v0 + " " + v1 + " " + id + tail;
    if tail == "" {
      assert line[|line| - 1] == id[|id| - 1];
    } else {
      assert line[|line| - 1] == 'o';
    }
  }

  lemma CommandLineIsRead(p: Parser, c: Command)
    requires CanonicalCommand(c) && p.title != ""
    ensures OnLine(p, CommandLine(c)) == p.(items := p.items + [Session(c.id, p.title, c.id, c.provider)], title := "")
  {
    hide GroupMarker, GroupEndMarker, ParseCommand, CommandLine, TrimSpace, NormalizeLabel, CanonicalCommand;
    CommandIsSolid(c);
    NoComment(CommandLine(c));
    CommandRoundTrip(c);
  }

  // ----- Items -----

  lemma GroupNormal(id: string, name: string)
    requires NormalizeGroupId(id) == id && CanonicalGroupName(name)
    ensures '|' !in id && '>' !in id && '\n' !in id && NormalizeGroupId(" " + id) == id && TrimSpace(name) == name
  {
    assert forall c <- id :: GroupIdChar(c);
    SpaceTrimmed(id);
  }

  lemma GroupTextIsRead(p: Parser, item: ConfigItem, rest: string)
    requires item.Group? && CanonicalItem(item) && p.open.None? && p.title == ""
    ensures OnText(p, RenderItem(item) + rest) == OnText(Parser(p.items + [item], p.warnings, "", Some(item.id)), rest)
  {
    hide GroupMarker, GroupEndMarker, GroupLine, TrimSpace, NormalizeGroupId;
    hide NormalizeColor, CanonicalGroupName, OnText, IsSpace;
    var line := GroupLine(item.id, item.name, item.colorHex);
    GroupNormal(item.id, item.name);
    NameIsPlain(item.name);
    GroupLineIsRead(item.id, item.name, item.colorHex);
    GroupLineIsSolid(item.id, item.name, item.colorHex);
    SolidLine(line);
    assert RenderItem(item) == line + "\n";
    assert p.items + [] == p.items;
    assert OnLine(p, line) == Parser(p.items + [item], p.warnings, "", Some(item.id));
    TextLine(p, line, rest);
  }

  lemma NameIsPlain(name: string)
    requires CanonicalGroupName(name)
    ensures name != "" && TrimSpace(name) == name && '|' !in name && '>' !in name && '\n' !in name
  {
  }

  lemma GroupLineIsSolid(id: string, name: string, color: string)
    requires '\n' !in id && '\n' !in name && IsColor(color)
    ensures var line := GroupLine(id, name, color);
            line != "" && !IsSpace(line[0]) && !IsSpace(line[|line| - 1]) && '\n' !in line
  {
    assert '\n' !in color by {
      assert forall i | 0 <= i < 7 :: color[i] != '\n';
    }
    var front := GROUP_START + id + "|" + name + "|" + color;
    assert GroupLine(id, name, color) == front + " -->";
  }

  lemma EndTextIsRead(p: Parser, item: ConfigItem, rest: string)
    requires item.GroupEnd? && p.open == Some(item.id) && p.title == ""
    ensures OnText(p, RenderItem(item) + rest) == OnText(Parser(p.items + [item], p.warnings, "", None), rest)
  {
    hide GroupMarker, GroupEndMarker, TrimSpace, OnText;
    EndLineIsRead();
    SolidLine(GROUP_END);
    assert OnLine(p, GROUP_END) == Parser(p.items + [item], p.warnings, "", None);
    TextLine(p, GROUP_END, rest);
  }

  lemma SessionTextIsRead(p: Parser, item: ConfigItem, rest: string)
    requires item.Session? && CanonicalItem(item) && p.title == ""
    ensures OnText(p, RenderItem(item) + rest) == OnText(p.(items := p.items + [item]), rest)
  {
    hide CommandLine, TrimSpace, CanonicalTitle, OnText, OnLine, CanonicalCommand, ShortSessionId, Lower;
    var c := Command(item.provider, item.commandId);
    var command := CommandLine(c);
    WrittenIdIs(c);
    TitleIsPlain(item.name);
    CommandIsSolid(c);
    TitleLineIsRead(p, item.name);
    CommandLineIsRead(p.(title := item.name), c);
    var title := "# " + item.name;
    assert RenderItem(item) + rest == title + "\n" + (command + "\n" + rest);
    TextLine(p, title, command + "\n" + rest);
    TextLine(p.(title := item.name), command, rest);
  }

  lemma WrittenIdIs(c: Command)
    requires CanonicalCommand(c)
    ensures WrittenId(c.id, c.provider) == c.id
  {
    assert c.id[0] in c.id && c.id[|c.id| - 1] in c.id;
    TrimIdle(c.id);
  }

  lemma TitleIsPlain(name: string)
    requires CanonicalTitle(name)
    ensures name != "" && TrimSpace(name) == name && '\n' !in "# " + name
  {
  }

  lemma BlankLine(p: Parser, rest: string)
    ensures OnText(p, "\n" + rest) == OnText(p, rest)
  {
    assert "" + "\n" + rest == "\n" + rest;
    TextLine(p, "", rest);
    TextEnd(p);
  }

  /** Reading continues behind an item as if it had been taken over whole. */
  lemma ItemIsRead(p: Parser, item: ConfigItem, rest: string) returns (q: Parser)
    requires CanonicalItem(item) && p.title == ""
    requires item.Group? ==> p.open.None?
    requires item.GroupEnd? ==> p.open == Some(item.id)
    ensures q == Parser(p.items + [item], p.warnings, "",
                        if item.Group? then Some(item.id) else if item.GroupEnd? then None else p.open)
    ensures OnText(p, RenderItem(item) + rest) == OnText(q, rest)
  {
    hide OnText, RenderItem, CanonicalItem;
    q := Parser(p.items + [item], p.warnings, "",
                if item.Group? then Some(item.id) else if item.GroupEnd? then None else p.open);
    match item
    case Group(_, _, _) => GroupTextIsRead(p, item, rest);
    case GroupEnd(_) => EndTextIsRead(p, item, rest);
    case Session(_, _, _, _) => SessionTextIsRead(p, item, rest);
  }

  lemma {:induction false} RenderedIsRead(p: Parser, items: seq<ConfigItem>)
    requires p.title == "" && Bracketed(items, p.open) && forall item <- items :: CanonicalItem(item)
    ensures OnText(p, Render(items)) == Parser(p.items + items, p.warnings, "", None)
    decreases |items|
  {
    hide OnText, RenderItem, CanonicalItem, Render, Bracketed;
    BracketedFirst(items, p.open);
    if items == [] {
      RenderNothing();
      TextEnd(p);
      assert p.items + [] == p.items;
    } else {
      var later := items[1..];
      var gap := if |items| > 1 then "\n" else "";
      assert items[0] in items && forall item <- later :: item in items;
      var q := ItemIsRead(p, items[0], gap + Render(later));
      RenderStep(items);
      assert Render(items) == RenderItem(items[0]) + (gap + Render(later));
      SkipGap(q, gap, Render(later));
      RenderedIsRead(q, later);
      assert p.items + [items[0]] + later == p.items + items;
    }
  }

  lemma SkipGap(q: Parser, gap: string, rest: string)
    requires gap == "" || gap == "\n"
    ensures OnText(q, gap + rest) == OnText(q, rest)
  {
    hide OnText;
    if gap == "" {
      assert "" + rest == rest;
    } else {
      BlankLine(q, rest);
    }
  }

  lemma BracketedFirst(items: seq<ConfigItem>, open: Option<string>)
    requires Bracketed(items, open)
    ensures items == [] ==> open.None?
    ensures items != [] && items[0].Group? ==> open.None? && Bracketed(items[1..], Some(items[0].id))
    ensures items != [] && items[0].GroupEnd? ==> open == Some(items[0].id) && Bracketed(items[1..], None)
    ensures items != [] && items[0].Session? ==> Bracketed(items[1..], open)
  {
  }

  /** Reading what was written for canonical, well-bracketed items gives them back, without a warning. */
  lemma RoundTrip(items: seq<ConfigItem>)
    requires Bracketed(items, None) && forall item <- items :: CanonicalItem(item)
    ensures Parsed(Render(items)) == (items, [])
  {
    hide Bracketed, Render, OnLines, CanonicalItem;
    RenderedIsRead(FRESH, items);
    assert [] + items == items && items + [] == items;
  }

  // ----- Which titles are kept -----

  lemma {:induction false} UnescapedShorter(s: string)
    ensures |Unescaped(s)| <= |s|
    ensures Contains(s, "\\#") ==> |Unescaped(s)| < |s|
  {
    EmptyHasNone();
    hide Contains;
    if s != "" {
      if StartsWith(s, "\\#") {
        UnescapedShorter(s[2..]);
      } else {
        UnescapedShorter(s[1..]);
        if Contains(s, "\\#") {
          LaterPair(s);
        }
      }
    }
  }

  lemma EmptyHasNone()
    ensures !Contains("", "\\#")
  {
  }

  lemma LaterPair(s: string)
    requires s != "" && Contains(s, "\\#") && !StartsWith(s, "\\#")
    ensures Contains(s[1..], "\\#")
  {
    var i :| 0 <= i <= |s| && MatchAt(s, "\\#", i);
    MatchInSlice(s, "\\#", 1, |s|, i - 1);
    assert s[1..|s|] == s[1..] && MatchAt(s[1..], "\\#", i - 1);
  }

  lemma {:induction false} StripShorter(s: string, mark: char)
    ensures |StripMark(s, mark)| <= |s|
    ensures s != "" && s[0] == mark ==> |StripMark(s, mark)| < |s|
    decreases |s|
  {
    if s != "" && s[0] == mark {
      TrimShorter(s[1..]);
      StripShorter(TrimSpace(s[1..]), mark);
    }
  }

  lemma TitleUnescaped(name: string)
    ensures Unescaped("# " + name) == "# " + Unescaped(name)
  {
    hide Unescaped;
    FirstKept("# " + name);
    FirstKept(" " + name);
    assert ("# " + name)[1..] == " " + name && (" " + name)[1..] == name;
  }

  lemma FirstKept(s: string)
    requires s != "" && s[0] != '\\'
    ensures Unescaped(s) == [s[0]] + Unescaped(s[1..])
  {
    if StartsWith(s, "\\#") {
      FirstOfPair(s, 0);
    }
  }

  /** The label of a title line is the title exactly without an escaped hash and a mark in front. */
  lemma LabelKeptExactly(name: string)
    requires name != "" && TrimSpace(name) == name
    ensures NormalizeLabel("# " + name) == name <==> !Contains(name, "\\#") && name[0] !in "#*-"
  {
    hide Contains, NormalizeLabel, StripMark, IsSpace, Unescaped, TrimSpace;
    var whole := "# " + Unescaped(name);
    var a := TrimSpace(whole[1..]);
    LabelOfTitle(name);
    UnescapedShorter(name);
    BehindHash(Unescaped(name));
    if !Contains(name, "\\#") {
      NothingEscaped(name);
    }
    StripsTo(a, name, whole);
  }

  lemma LabelOfTitle(name: string)
    requires name != "" && TrimSpace(name) == name
    ensures NormalizeLabel("# " + name)
            == TrimSpace(StripMark(StripMark(StripMark("# " + Unescaped(name), '#'), '*'), '-'))
  {
    hide Unescaped, StripMark;
    TrimIdle(name);
    SolidLine("# " + name);
    TitleUnescaped(name);
  }

  lemma BehindHash(kept: string)
    ensures TrimSpace(("# " + kept)[1..]) == TrimSpace(kept) && |TrimSpace(kept)| <= |kept|
  {
    assert ("# " + kept)[1..] == " " + kept;
    SpaceTrimmed(kept);
    TrimShorter(kept);
  }

  lemma StripsTo(a: string, name: string, whole: string)
    requires whole != "" && whole[0] == '#' && TrimSpace(whole[1..]) == a
    requires name != "" && (a == name || |a| < |name|) && TrimSpace(name) == name
    ensures TrimSpace(StripMark(StripMark(StripMark(whole, '#'), '*'), '-')) == name <==> a == name && name[0] !in "#*-"
  {
    assert "#*-"[0] == '#' && "#*-"[1] == '*' && "#*-"[2] == '-';
    assert name[0] in "#*-" <==> name[0] == '#' || name[0] == '*' || name[0] == '-';
    var b := StripMark(a, '#');
    assert StripMark(whole, '#') == b;
    var c := StripMark(b, '*');
    var d := StripMark(c, '-');
    StripShorter(a, '#');
    StripShorter(b, '*');
    StripShorter(c, '-');
    TrimShorter(d);
    hide TrimSpace;
  }

  lemma {:induction false} UnescapedInside(s: string)
    ensures forall c <- Unescaped(s) :: c in s || c == '#'
  {
    if s != "" {
      if StartsWith(s, "\\#") {
        UnescapedInside(s[2..]);
      } else {
        UnescapedInside(s[1..]);
      }
    }
  }

  lemma {:induction false} StripInside(s: string, mark: char)
    ensures forall c <- StripMark(s, mark) :: c in s
    decreases |s|
  {
    if s != "" && s[0] == mark {
      TrimShorter(s[1..]);
      TrimTwice(s[1..]);
      StripInside(TrimSpace(s[1..]), mark);
    }
  }

  lemma LabelIsLine(line: string)
    requires '\n' !in line
    ensures TrimSpace(NormalizeLabel(line)) == NormalizeLabel(line) && '\n' !in NormalizeLabel(line)
  {
    hide TrimSpace, StripMark, Unescaped;
    var whole := Unescaped(TrimSpace(line));
    var a := StripMark(whole, '#');
    var b := StripMark(a, '*');
    var c := StripMark(b, '-');
    TrimTwice(line);
    UnescapedInside(TrimSpace(line));
    StripInside(whole, '#');
    StripInside(a, '*');
    StripInside(b, '-');
    TrimTwice(c);
  }

  /** A pending title is trimmed text of one line. */
  ghost predicate LineTitle(title: string) {
    TrimSpace(title) == title && '\n' !in title
  }

  lemma LineKeepsTitle(p: Parser, line: string)
    requires LineTitle(p.title) && '\n' !in line
    ensures LineTitle(OnLine(p, line).title)
  {
    hide GroupMarker, GroupEndMarker, ParseCommand, NormalizeLabel, NormalizeGroupId, NormalizeColor;
    hide ShortSessionId, Contains;
    TrimTwice(line);
    LabelIsLine(TrimSpace(line));
    TrimIdle("");
    hide TrimSpace;
  }

  lemma {:induction false} LinesKeepTitle(p: Parser, lines: seq<string>)
    requires LineTitle(p.title) && forall line <- lines :: '\n' !in line
    ensures LineTitle(OnLines(p, lines).title)
    decreases |lines|
  {
    hide OnLine, LineTitle;
    if lines != [] {
      assert lines[0] in lines && forall line <- lines[1..] :: line in lines;
      LineKeepsTitle(p, lines[0]);
      LinesKeepTitle(OnLine(p, lines[0]), lines[1..]);
    }
  }

  /** A trimmed title is taken from its line exactly when the line is no command and its label is the title. */
  lemma TitleLineExactly(p: Parser, name: string)
    requires name != "" && TrimSpace(name) == name && p.title == ""
    ensures OnLine(p, "# " + name) == p.(title := name)
            <==> ParseCommand("# " + name).None? && !Contains(name, "\\#") && name[0] !in "#*-"
  {
    hide GroupMarker, GroupEndMarker, ParseCommand, NormalizeLabel, Contains, TrimSpace, IsSpace, ShortSessionId;
    var line := "# " + name;
    SolidTitle(name);
    NoComment(line);
    LabelKeptExactly(name);
  }

  lemma SolidTitle(name: string)
    requires name != "" && TrimSpace(name) == name
    ensures TrimSpace("# " + name) == "# " + name
  {
    TrimIdle(name);
    SolidLine("# " + name);
  }

  /** A title survives being written and read exactly when it is canonical. */
  lemma TitleKeptExactly(p: Parser, name: string)
    requires name != "" && p.title == ""
    ensures OnText(p, "# " + name + "\n") == p.(title := name) <==> CanonicalTitle(name)
  {
    hide OnText, OnLine, ParseCommand, Contains, TrimSpace;
    var text := "# " + name + "\n";
    TextTitle(p, text);
    if LineTitle(name) {
      TitleLineExactly(p, name);
      assert text == "# " + name + "\n" + "";
      TextLine(p, "# " + name, "");
      TextEnd(OnLine(p, "# " + name));
    }
  }

  lemma TextTitle(p: Parser, text: string)
    requires p.title == ""
    ensures LineTitle(OnText(p, text).title)
  {
    hide OnLines, Split;
    TrimIdle("");
    PiecesWithout(text, '\n');
    LinesKeepTitle(p, Split(text, '\n'));
  }

  /** Two ampersands can hide a command in a title: it becomes a session, and the title is lost. */
  lemma CommandInTitle(p: Parser, front: string, c: Command)
    requires p.title == "" && front != "" && !IsSpace(front[0]) && CanonicalCommand(c)
    ensures var name := front + "&& " + CommandLine(c);
            !CanonicalTitle(name)
            && OnLine(p, "# " + name) == p.(items := p.items + [Session(c.id, ShortSessionId(c.id), c.id, c.provider)])
  {
    hide GroupMarker, GroupEndMarker, ParseCommand, CommandLine, CanonicalCommand, NormalizeLabel, ShortSessionId;
    hide Contains, TrimSpace, IsSpace;
    var name := front + "&& " + CommandLine(c);
    CommandBehindPair("# " + front, c);
    assert "# " + name == "# " + front + "&&" + (" " + CommandLine(c));
    CommandIsSolid(c);
    TrimIdle(CommandLine(c));
    assert name[|name| - 1] == CommandLine(c)[|CommandLine(c)| - 1];
    TrimIdle(name);
    SolidTitle(name);
    NoComment("# " + name);
  }

  // ----- Reading again what was read -----

  lemma {:induction false} TrimTwice(s: string)
    ensures TrimSpace(TrimSpace(s)) == TrimSpace(s)
    ensures forall c <- TrimSpace(s) :: c in s
  {
    if s != "" {
      if IsSpace(s[0]) {
        TrimTwice(s[1..]);
      } else if IsSpace(s[|s| - 1]) {
        TrimTwice(s[..|s| - 1]);
      }
    }
  }

  lemma {:induction false} KeptTwice(s: string)
    requires forall c <- s :: GroupIdChar(c)
    ensures KeptIdChars(s) == s
  {
    if s != "" {
      assert s[0] in s && s == [s[0]] + s[1..];
      KeptTwice(s[1..]);
    }
  }

  lemma IdTwice(id: string)
    ensures NormalizeGroupId(NormalizeGroupId(id)) == NormalizeGroupId(id)
  {
    hide NormalizeGroupId;
    var r := NormalizeGroupId(id);
    assert r[0] in r && r[|r| - 1] in r;
    SolidLine(r);
    KeptTwice(r);
    NormalFormOfKept(r);
  }

  lemma NormalFormOfKept(r: string)
    requires r != "" && TrimSpace(r) == r && KeptIdChars(r) == r
    ensures NormalizeGroupId(r) == r
  {
  }

  lemma ColorTwice(color: string)
    ensures NormalizeColor(NormalizeColor(color)) == NormalizeColor(color)
  {
    var r := NormalizeColor(color);
    SolidLine(r);
    assert forall i | 0 <= i < 7 :: UpperChar(r[i]) == r[i];
    assert Upper(r) == r;
  }

  lemma {:induction false} PiecesWithout(s: string, sep: char)
    ensures forall piece <- Split(s, sep) :: sep !in piece
    decreases |s|
  {
    hide Split;
    if sep in s {
      var i := FirstIn(s, sep);
      FirstSeparator(s, sep, i);
      PiecesWithout(s[i + 1..], sep);
      assert sep !in s[..i];
    } else {
      NoSeparator(s, sep);
    }
  }

  lemma BehindInside(s: string, word: string)
    ensures Behind(s, word).Some? ==> forall c <- Behind(s, word).value :: c in s
  {
  }

  lemma {:induction false} SkipInside(s: string)
    ensures forall c <- SkipSpace(s) :: c in s
  {
    if s != "" && IsSpace(s[0]) {
      SkipInside(s[1..]);
    }
  }

  lemma CutInside(s: string, mark: char)
    ensures CutAt(s, mark).Some? ==>
              && (forall c <- CutAt(s, mark).value.0 :: c in s && c != mark)
              && (forall c <- CutAt(s, mark).value.1 :: c in s)
  {
    if mark in s {
      FirstSeparator(s, mark, FirstIn(s, mark));
    } else {
      NoSeparator(s, mark);
    }
  }

  /** The fields of a group marker come from its line. */
  lemma MarkerFields(line: string)
    requires GroupMarker(line).Some? && '\n' !in line
    ensures var name := GroupMarker(line).value.name; '\n' !in name && '|' !in name && '>' !in name
  {
    hide Behind, SkipSpace, CutAt, IsColor, Closes;
    BehindInside(line, "<!--");
    var comment := Behind(line, "<!--").value;
    SkipInside(comment);
    BehindInside(SkipSpace(comment), "context-group:");
    var fields := Behind(SkipSpace(comment), "context-group:").value;
    CutInside(fields, '|');
    CutInside(CutAt(fields, '|').value.1, '|');
  }

  /** All that makes an item canonical, but for the title of a session. */
  predicate Settled(item: ConfigItem) {
    match item
    case Group(_, _, _) => CanonicalItem(item)
    case GroupEnd(_) => true
    case Session(id, _, commandId, provider) => id == commandId && CanonicalCommand(Command(provider, commandId))
  }

  ghost predicate AllSettled(items: seq<ConfigItem>) {
    forall item <- items :: Settled(item)
  }

  lemma GroupIsSettled(line: string)
    requires GroupMarker(line).Some? && '\n' !in line
    ensures var m := GroupMarker(line).value;
            var name := TrimSpace(m.name);
            Settled(Group(NormalizeGroupId(m.id), if name == "" then "Group" else name, NormalizeColor(m.color)))
  {
    hide GroupMarker, NormalizeGroupId, NormalizeColor, TrimSpace;
    var m := GroupMarker(line).value;
    MarkerFields(line);
    IdTwice(m.id);
    ColorTwice(m.color);
    TrimTwice(m.name);
    SolidLine("Group");
  }

  lemma LineSettles(p: Parser, line: string)
    requires AllSettled(p.items) && '\n' !in line
    ensures AllSettled(OnLine(p, line).items)
  {
    hide GroupMarker, GroupEndMarker, ParseCommand, NormalizeLabel, NormalizeGroupId, NormalizeColor;
    hide ShortSessionId, Contains, TrimSpace, CanonicalCommand, CanonicalItem;
    TrimTwice(line);
    var trimmed := TrimSpace(line);
    if GroupMarker(trimmed).Some? {
      GroupIsSettled(trimmed);
      hide Settled;
    }
  }

  lemma {:induction false} LinesSettle(p: Parser, lines: seq<string>)
    requires AllSettled(p.items) && forall line <- lines :: '\n' !in line
    ensures AllSettled(OnLines(p, lines).items)
    decreases |lines|
  {
    hide OnLine, AllSettled;
    if lines != [] {
      assert lines[0] in lines && forall line <- lines[1..] :: line in lines;
      LineSettles(p, lines[0]);
      LinesSettle(OnLine(p, lines[0]), lines[1..]);
    }
  }

  /** Whatever the text, writing its items and reading them again changes nothing, if the titles are canonical. */
  lemma Stable(text: string)
    requires forall item <- Parsed(text).0 | item.Session? :: CanonicalTitle(item.name)
    ensures Parsed(Render(Parsed(text).0)) == (Parsed(text).0, [])
  {
    hide OnLines, Split, Render, Bracketed, CanonicalTitle;
    var items := Parsed(text).0;
    ParsedIsBracketed(text);
    PiecesWithout(text, '\n');
    LinesSettle(FRESH, Split(text, '\n'));
    var p := OnLines(FRESH, Split(text, '\n'));
    forall item | item in items ensures CanonicalItem(item) {
      if item in p.items {
        assert Settled(item);
      }
    }
    RoundTrip(items);
  }
}
