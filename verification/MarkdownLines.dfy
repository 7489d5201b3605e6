// What the lines of a sessions file mean, also those that are never written:
// the marker comments as patterns, markers out of place, sessions without a
// title, and lines that only look like a marker.

module MarkdownLines {
  import opened Basics
  import opened LineSplitting
  import opened SessionCommands
  import opened MarkdownConfig
  import opened MarkdownRoundTrip

  // ----- The marker comments as patterns -----

  predicate Spaces(s: string) {
    forall c <- s :: IsSpace(c)
  }

  /** A word in any mixture of upper and lower case. */
  predicate Spells(s: string, word: string) {
    Lower(s) == word
  }

  predicate FieldText(s: string) {
    s != "" && '|' !in s && '>' !in s
  }

  /** Opening, spaces, word, fields with a bar between each two, spaces, closing. */
  ghost predicate GroupPattern(line: string, m: Marker) {
    FieldText(m.id) && FieldText(m.name) && IsColor(m.color)
    && exists front, word, back: string | Comment(front) && Spells(word, "context-group:") && Spaces(back) ::
         line == front + word + m.id + "|" + m.name + "|" + m.color + back + "-->"
  }

  ghost predicate EndPattern(line: string) {
    exists front, word, back: string | Comment(front) && Spells(word, "/context-group") && Spaces(back) ::
      line == front + word + back + "-->"
  }

  /** The opening of a comment with spaces behind it. */
  predicate Comment(s: string) {
    |s| >= 4 && s[..4] == "<!--" && Spaces(s[4..])
  }

  lemma {:induction false} SkipSpaces(s: string, rest: string)
    requires Spaces(s) && (rest == "" || !IsSpace(rest[0]))
    ensures SkipSpace(s + rest) == rest
  {
    hide IsSpace;
    if s == "" {
      assert s + rest == rest;
    } else {
      assert s[0] in s && forall c <- s[1..] :: c in s;
      assert (s + rest)[0] == s[0] && (s + rest)[1..] == s[1..] + rest;
      SkipSpaces(s[1..], rest);
    }
  }

  lemma {:induction false} SkippedSpaces(s: string) returns (front: string)
    ensures Spaces(front) && s == front + SkipSpace(s)
    ensures SkipSpace(s) == "" || !IsSpace(SkipSpace(s)[0])
  {
    hide IsSpace;
    if s != "" && IsSpace(s[0]) {
      var behind := SkippedSpaces(s[1..]);
      front := [s[0]] + behind;
      assert s == [s[0]] + s[1..];
    } else {
      front := "";
    }
  }

  lemma BehindSpelled(s: string, word: string, rest: string)
    requires Spells(s, word)
    ensures Behind(s + rest, word) == Some(rest)
  {
    assert (s + rest)[..|word|] == s && (s + rest)[|word|..] == rest;
  }

  lemma BehindIs(s: string, word: string)
    requires Behind(s, word).Some?
    ensures |s| >= |word| && Spells(s[..|word|], word) && s == s[..|word|] + Behind(s, word).value
  {
  }

  lemma CutIs(s: string, mark: char)
    requires CutAt(s, mark).Some?
    ensures var (a, b) := CutAt(s, mark).value; s == a + [mark] + b && mark !in a
  {
    var i := Find(s, [mark]).value;
    MatchesSeparator(s, mark, i);
    forall c <- s[..i] ensures c != mark {
      var k :| 0 <= k < i && s[k] == c;
      MatchesSeparator(s, mark, k);
    }
    assert s == s[..i] + [mark] + s[i + 1..];
  }

  lemma ClosesIs(s: string)
    ensures Closes(s) <==> exists back | Spaces(back) :: s == back + "-->"
  {
    if Closes(s) {
      var back := SkippedSpaces(s);
    }
    if back: string :| Spaces(back) && s == back + "-->" {
      SkipSpaces(back, "-->");
    }
  }

  lemma WordsAreSolid(word: string)
    requires Spells(word, "context-group:") || Spells(word, "/context-group")
    ensures word != "" && !IsSpace(word[0])
  {
    assert LowerChar(word[0]) == 'c' || LowerChar(word[0]) == '/';
  }

  lemma CommentIsCut(front: string, rest: string)
    requires Comment(front) && rest != "" && !IsSpace(rest[0])
    ensures Behind(front + rest, "<!--").Some? && SkipSpace(Behind(front + rest, "<!--").value) == rest
  {
    hide IsSpace;
    assert front == "<!--" + front[4..];
    assert front + rest == "<!--" + (front[4..] + rest);
    LowerIdle();
    BehindSpelled("<!--", "<!--", front[4..] + rest);
    SkipSpaces(front[4..], rest);
  }

  lemma LowerIdle()
    ensures Lower("<!--") == "<!--"
  {
  }

  lemma CommentOf(line: string) returns (front: string)
    requires Behind(line, "<!--").Some?
    ensures Comment(front) && line == front + SkipSpace(Behind(line, "<!--").value)
  {
    hide IsSpace;
    BehindIs(line, "<!--");
    LowerOpening(line[..4]);
    var spaces := SkippedSpaces(line[4..]);
    front := "<!--" + spaces;
    assert front[4..] == spaces;
  }

  lemma LowerOpening(s: string)
    requires Lower(s) == "<!--"
    ensures s == "<!--"
  {
    assert forall i | 0 <= i < 4 :: LowerChar(s[i]) == "<!--"[i];
  }

  /** A line is a group marker exactly if it has that pattern, and the fields are those of the pattern. */
  lemma GroupMarkerExactly(line: string, m: Marker)
    ensures GroupMarker(line) == Some(m) <==> GroupPattern(line, m)
  {
    if GroupMarker(line) == Some(m) {
      GroupMarkerHasPattern(line, m);
    }
    if GroupPattern(line, m) {
      PatternIsGroupMarker(line, m);
    }
  }

  lemma GroupMarkerHasPattern(line: string, m: Marker)
    requires GroupMarker(line) == Some(m)
    ensures GroupPattern(line, m)
  {
    hide Behind, CutAt, Closes, SkipSpace, IsColor, Spells, Comment;
    var front := CommentOf(line);
    var inner := SkipSpace(Behind(line, "<!--").value);
    BehindIs(inner, "context-group:");
    var fields := Behind(inner, "context-group:").value;
    CutIs(fields, '|');
    var (id, rest) := CutAt(fields, '|').value;
    CutIs(rest, '|');
    var (name, last) := CutAt(rest, '|').value;
    ClosesIs(last[7..]);
    var back: string :| Spaces(back) && last[7..] == back + "-->";
    var word := inner[..|"context-group:"|];
    assert last == m.color + (back + "-->");
    assert line == front + word + m.id + "|" + m.name + "|" + m.color + back + "-->";
  }

  lemma PatternIsGroupMarker(line: string, m: Marker)
    requires GroupPattern(line, m)
    ensures GroupMarker(line) == Some(m)
  {
    hide Behind, CutAt, Closes, SkipSpace, IsColor, Spells, Comment, Spaces, IsSpace;
    var front, word, back: string :| Comment(front) && Spells(word, "context-group:") && Spaces(back)
      && line == front + word + m.id + "|" + m.name + "|" + m.color + back + "-->";
    var last := m.color + (back + "-->");
    var rest := m.name + "|" + last;
    var fields := m.id + "|" + rest;
    assert line == front + (word + fields);
    WordsAreSolid(word);
    assert (word + fields)[0] == word[0];
    CommentIsCut(front, word + fields);
    BehindSpelled(word, "context-group:", fields);
    Cut(m.id, '|', rest);
    Cut(m.name, '|', last);
    ColorLength(m.color);
    assert last[..7] == m.color && last[7..] == back + "-->";
    ClosesIs(last[7..]);
  }

  lemma ColorLength(color: string)
    requires IsColor(color)
    ensures |color| == 7
  {
  }

  /** A line is an end marker exactly if it has that pattern. */
  lemma GroupEndExactly(line: string)
    ensures GroupEndMarker(line) <==> EndPattern(line)
  {
    hide Behind, Closes, SkipSpace, Spells, Comment, Spaces, IsSpace;
    if GroupEndMarker(line) {
      var front := CommentOf(line);
      var inner := SkipSpace(Behind(line, "<!--").value);
      BehindIs(inner, "/context-group");
      var last := Behind(inner, "/context-group").value;
      ClosesIs(last);
      var back: string :| Spaces(back) && last == back + "-->";
      var word := inner[..|"/context-group"|];
      assert line == front + word + back + "-->";
    }
    if EndPattern(line) {
      var front, word, back: string :| Comment(front) && Spells(word, "/context-group") && Spaces(back)
        && line == front + word + back + "-->";
      var last := back + "-->";
      assert line == front + (word + last);
      WordsAreSolid(word);
      assert (word + last)[0] == word[0];
      CommentIsCut(front, word + last);
      BehindSpelled(word, "/context-group", last);
      ClosesIs(last);
    }
  }

  // ----- Lines that only look like a marker -----

  lemma {:induction false} TrimKeeps(s: string, c: char)
    requires c in s && !IsSpace(c)
    ensures c in TrimSpace(s)
  {
    if IsSpace(s[0]) {
      assert c in s[1..];
      TrimKeeps(s[1..], c);
    } else if IsSpace(s[|s| - 1]) {
      assert c in s[..|s| - 1];
      TrimKeeps(s[..|s| - 1], c);
    }
  }

  lemma {:induction false} UnescapedKeeps(s: string, c: char)
    requires c in s && c != '\\' && c != '#'
    ensures c in Unescaped(s)
  {
    if StartsWith(s, "\\#") {
      assert s[0..2] == "\\#" && s[0..2][0] == s[0] && s[0..2][1] == s[1];
      assert s == [s[0], s[1]] + s[2..];
      UnescapedKeeps(s[2..], c);
    } else if s[0] != c {
      assert s == [s[0]] + s[1..];
      UnescapedKeeps(s[1..], c);
    }
  }

  lemma {:induction false} StripKeeps(s: string, mark: char, c: char)
    requires c in s && c != mark && !IsSpace(c)
    ensures c in StripMark(s, mark)
    decreases |s|
  {
    if s[0] == mark {
      assert c in s[1..];
      TrimKeeps(s[1..], c);
      TrimShorter(s[1..]);
      StripKeeps(TrimSpace(s[1..]), mark, c);
    }
  }

  /** The label of a line with a letter is not empty. */
  lemma LabelKeeps(line: string, c: char)
    requires c in line && 'a' <= c <= 'z'
    ensures c in NormalizeLabel(line)
  {
    hide TrimSpace, StripMark, Unescaped;
    var whole := Unescaped(TrimSpace(line));
    TrimKeeps(line, c);
    UnescapedKeeps(TrimSpace(line), c);
    StripKeeps(whole, '#', c);
    StripKeeps(StripMark(whole, '#'), '*', c);
    StripKeeps(StripMark(StripMark(whole, '#'), '*'), '-', c);
    TrimKeeps(StripMark(StripMark(StripMark(whole, '#'), '*'), '-'), c);
  }

  /** A line that names the marker but does not have its pattern is taken for a title. */
  lemma MalformedIsTitle(p: Parser, line: string)
    requires TrimSpace(line) == line && Contains(line, "context-group")
    requires GroupMarker(line).None? && !GroupEndMarker(line) && ParseCommand(line).None?
    ensures NormalizeLabel(line) != "" && OnLine(p, line) == p.(title := NormalizeLabel(line))
  {
    hide GroupMarker, GroupEndMarker, ParseCommand, NormalizeLabel, TrimSpace;
    var i :| 0 <= i <= |line| && MatchAt(line, "context-group", i);
    assert line[i..i + 13][0] == line[i] == 'c';
    LabelKeeps(line, 'c');
  }

  /** So nobody is ever warned of a malformed group: the only warnings are those of ends without a group. */
  lemma MalformedIsNeverWarned(text: string)
    ensures forall w <- Parsed(text).1 :: w.UnopenedEnd?
  {
    hide OnLines, Split;
    NoneMalformed(FRESH, Split(text, '\n'));
  }

  lemma {:induction false} NoneMalformed(p: Parser, lines: seq<string>)
    requires forall w <- p.warnings :: w.UnopenedEnd?
    ensures forall w <- OnLines(p, lines).warnings :: w.UnopenedEnd?
    decreases |lines|
  {
    hide OnLine;
    if lines != [] {
      NoneMalformedOnLine(p, lines[0]);
      NoneMalformed(OnLine(p, lines[0]), lines[1..]);
    }
  }

  lemma NoneMalformedOnLine(p: Parser, rawLine: string)
    requires forall w <- p.warnings :: w.UnopenedEnd?
    ensures forall w <- OnLine(p, rawLine).warnings :: w.UnopenedEnd?
  {
    hide GroupMarker, GroupEndMarker, ParseCommand, NormalizeLabel, TrimSpace, Contains, ShortSessionId;
    hide NormalizeGroupId, NormalizeColor;
    var line := TrimSpace(rawLine);
    TrimTwice(rawLine);
    if Contains(line, "context-group") && GroupMarker(line).None? && !GroupEndMarker(line)
       && ParseCommand(line).None? {
      MalformedIsTitle(p, line);
    }
  }

  // ----- Markers out of place, and titles -----

  /** An end without a group is reported, and forgets the title before it. */
  lemma UnopenedEndWarns(p: Parser, rest: string)
    requires p.open.None?
    ensures OnText(p, GROUP_END + "\n" + rest)
            == OnText(Parser(p.items, p.warnings + [UnopenedEnd(GROUP_END)], "", None), rest)
  {
    hide GroupMarker, GroupEndMarker, TrimSpace, OnText;
    EndLineIsRead();
    SolidLine(GROUP_END);
    TextLine(p, GROUP_END, rest);
  }

  /** A group that begins inside another one ends that first, and forgets the title before it. */
  lemma NextGroupCloses(p: Parser, item: ConfigItem, rest: string)
    requires item.Group? && CanonicalItem(item)
    ensures OnText(p, RenderItem(item) + rest)
            == OnText(Parser(p.items + EndOf(p.open) + [item], p.warnings, "", Some(item.id)), rest)
  {
    hide GroupMarker, GroupEndMarker, GroupLine, TrimSpace, NormalizeGroupId;
    hide NormalizeColor, CanonicalGroupName, OnText, IsSpace;
    var line := GroupLine(item.id, item.name, item.colorHex);
    GroupNormal(item.id, item.name);
    NameIsPlain(item.name);
    GroupLineIsRead(item.id, item.name, item.colorHex);
    GroupLineIsSolid(item.id, item.name, item.colorHex);
    SolidLine(line);
    assert RenderItem(item) == line + "\n";
    TextLine(p, line, rest);
  }

  /** A session without a title is named by the last four characters of its id. */
  lemma UntitledSession(p: Parser, c: Command, rest: string)
    requires CanonicalCommand(c) && p.title == ""
    ensures var name := if |c.id| <= 4 then c.id else c.id[|c.id| - 4..];
            OnText(p, CommandLine(c) + "\n" + rest)
            == OnText(p.(items := p.items + [Session(c.id, name, c.id, c.provider)]), rest)
  {
    hide GroupMarker, GroupEndMarker, ParseCommand, CommandLine, TrimSpace, NormalizeLabel, CanonicalCommand, OnText;
    CommandIsSolid(c);
    NoComment(CommandLine(c));
    CommandRoundTrip(c);
    IdIsTrimmed(c);
    TextLine(p, CommandLine(c), rest);
  }

  lemma IdIsTrimmed(c: Command)
    requires CanonicalCommand(c)
    ensures TrimSpace(c.id) == c.id
  {
    assert c.id[0] in c.id && c.id[|c.id| - 1] in c.id;
    TrimIdle(c.id);
  }

  /** Of several titles in a row the last one counts. */
  lemma LastTitleCounts(p: Parser, first: string, second: string)
    requires CanonicalTitle(first) && CanonicalTitle(second)
    ensures OnText(p, "# " + first + "\n" + ("# " + second + "\n")) == p.(title := second)
  {
    hide CanonicalTitle, OnText, OnLine;
    TitleIsPlain(first);
    TitleIsPlain(second);
    TitleLineIsRead(p, first);
    TitleLineIsRead(p.(title := first), second);
    TextLine(p, "# " + first, "# " + second + "\n");
    assert "# " + second + "\n" + "" == "# " + second + "\n";
    TextLine(p.(title := first), "# " + second, "");
    TextEnd(p.(title := second));
  }

  /** A group left open is closed at the end of the text. */
  lemma OpenGroupIsClosed(item: ConfigItem)
    requires item.Group? && CanonicalItem(item)
    ensures Parsed(RenderItem(item)) == ([item, GroupEnd(item.id)], [])
  {
    hide RenderItem, CanonicalItem, OnLines, OnLine, Split;
    NextGroupCloses(FRESH, item, "");
    assert RenderItem(item) + "" == RenderItem(item);
    var empty: seq<ConfigItem> := [];
    assert empty + EndOf(None) + [item] == [item];
    TextEnd(Parser([item], [], "", Some(item.id)));
    assert OnLines(FRESH, Split(RenderItem(item), '\n')) == Parser([item], [], "", Some(item.id));
    assert [item] + EndOf(Some(item.id)) == [item, GroupEnd(item.id)];
  }

  // ----- Characters -----

  /** The characters of a group id, and those of a color. */
  lemma IdAndColorCharacters(c: char)
    ensures GroupIdChar(c) <==> c in LETTERS || c in DIGITS || c == '-' || c == '_'
    ensures HexDigit(c) <==> c in DIGITS || c in LETTERS[..6] || c in CAPITALS[..6]
  {
    InLetters(c);
    LettersInOrder();
    hide LETTERS, CAPITALS, DIGITS;
    if 97 <= c as int < 103 {
      assert LETTERS[..6][c as int - 97] == c;
    }
    if 65 <= c as int < 71 {
      assert CAPITALS[..6][c as int - 65] == c;
    }
  }

  /** Upper and lower case exchange the letters of the alphabet one by one, and leave all other characters. */
  lemma CasesOfLetters(c: char)
    ensures forall i | 0 <= i < 26 :: UpperChar(LETTERS[i]) == CAPITALS[i] && LowerChar(CAPITALS[i]) == LETTERS[i]
    ensures c !in LETTERS ==> UpperChar(c) == c
    ensures c !in CAPITALS ==> LowerChar(c) == c
  {
    LettersInOrder();
    InLetters(c);
    hide LETTERS, CAPITALS, DIGITS;
  }
}
