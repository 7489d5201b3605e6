// The markdown file of sessions: groups between marker comments, and sessions
// as a title line and a command line. Parsing any text gives well-bracketed
// items, and parsing what was written for canonical items gives them back.

module MarkdownConfig {
  import opened Basics
  import opened LineSplitting
  import opened SessionCommands

  datatype ConfigItem =
    | Group(id: string, name: string, colorHex: string)
    | GroupEnd(id: string)
    | Session(id: string, name: string, commandId: string, provider: Provider)

  datatype Warning = UnopenedEnd(line: string) | MalformedGroup(line: string)

  const DEFAULT_COLOR: string := "#83A598"

  // ----- Normal forms -----

  predicate GroupIdChar(c: char) {
    '0' <= c <= '9' || 'a' <= c <= 'z' || c == '-' || c == '_'
  }

  function KeptIdChars(s: string): (r: string)
    ensures forall c <- r :: GroupIdChar(c)
  {
    if s == "" then ""
    else (if GroupIdChar(LowerChar(s[0])) then [LowerChar(s[0])] else "") + KeptIdChars(s[1..])
  }

  function NormalizeGroupId(id: string): (r: string)
    ensures r != "" && forall c <- r :: GroupIdChar(c)
  {
    var kept := KeptIdChars(TrimSpace(id));
    if kept == "" then "group" else kept
  }

  predicate HexDigit(c: char) {
    '0' <= c <= '9' || 'a' <= c <= 'f' || 'A' <= c <= 'F'
  }

  function UpperChar(c: char): char {
    if 'a' <= c <= 'z' then c - 'a' + 'A' else c
  }

  function Upper(s: string): (r: string)
    ensures |r| == |s| && forall i | 0 <= i < |r| :: r[i] == UpperChar(s[i])
  {
    seq(|s|, i requires 0 <= i < |s| => UpperChar(s[i]))
  }

  predicate IsColor(s: string) {
    |s| == 7 && s[0] == '#' && forall i | 1 <= i < 7 :: HexDigit(s[i])
  }

  function NormalizeColor(color: string): (r: string)
    ensures IsColor(r)
  {
    var trimmed := TrimSpace(color);
    if IsColor(trimmed) then Upper(trimmed) else DEFAULT_COLOR
  }

  function ShortSessionId(id: string): string {
    var value := TrimSpace(id);
    if |value| <= 4 then value else value[|value| - 4..]
  }

  /** Escaped hashes become hashes. */
  function Unescaped(s: string): string {
    if s == "" then ""
    else if StartsWith(s, "\\#") then "#" + Unescaped(s[2..])
    else [s[0]] + Unescaped(s[1..])
  }

  lemma {:induction false} TrimShorter(s: string)
    ensures |TrimSpace(s)| <= |s|
  {
    if s != "" {
      if IsSpace(s[0]) {
        TrimShorter(s[1..]);
      } else if IsSpace(s[|s| - 1]) {
        TrimShorter(s[..|s| - 1]);
      }
    }
  }

  function StripMark(s: string, mark: char): string
    decreases |s|
  {
    if s != "" && s[0] == mark then
      TrimShorter(s[1..]);
      StripMark(TrimSpace(s[1..]), mark)
    else s
  }

  function NormalizeLabel(line: string): string {
    TrimSpace(StripMark(StripMark(StripMark(Unescaped(TrimSpace(line)), '#'), '*'), '-'))
  }

  // ----- Marker comments -----

  function SkipSpace(s: string): (r: string)
    ensures |r| <= |s|
  {
    if s != "" && IsSpace(s[0]) then SkipSpace(s[1..]) else s
  }

  /** The text behind a word that ignores ASCII case. */
  function Behind(s: string, word: string): Option<string> {
    if |s| >= |word| && Lower(s[..|word|]) == word then Some(s[|word|..]) else None
  }

  /** The text before a mark that occurs, and the text behind it. */
  function CutAt(s: string, mark: char): Option<(string, string)> {
    match Find(s, [mark])
    case None => None
    case Some(i) => Some((s[..i], s[i + 1..]))
  }

  predicate Field(s: string) {
    s != "" && '>' !in s
  }

  predicate Closes(s: string) {
    SkipSpace(s) == "-->"
  }

  datatype Marker = Marker(id: string, name: string, color: string)

  /** `<!-- context-group: id|name|#color -->` on a trimmed line. */
  function GroupMarker(line: string): Option<Marker> {
    match Behind(line, "<!--")
    case None => None
    case Some(comment) =>
      match Behind(SkipSpace(comment), "context-group:")
      case None => None
      case Some(fields) =>
        match CutAt(fields, '|')
        case None => None
        case Some((id, rest)) =>
          match CutAt(rest, '|')
          case None => None
          case Some((name, last)) =>
            if Field(id) && Field(name) && |last| >= 7 && IsColor(last[..7]) && Closes(last[7..])
            then Some(Marker(id, name, last[..7])) else None
  }

  /** `<!-- /context-group -->` on a trimmed line. */
  predicate GroupEndMarker(line: string) {
    match Behind(line, "<!--")
    case None => false
    case Some(comment) =>
      match Behind(SkipSpace(comment), "/context-group")
      case None => false
      case Some(rest) => Closes(rest)
  }

  // ----- Parsing -----

  datatype Parser = Parser(items: seq<ConfigItem>, warnings: seq<Warning>, title: string, open: Option<string>)

  const FRESH: Parser := Parser([], [], "", None)

  function EndOf(open: Option<string>): seq<ConfigItem> {
    if open.None? then [] else [GroupEnd(open.value)]
  }

  function OnLine(p: Parser, rawLine: string): Parser {
    var line := TrimSpace(rawLine);
    if line == "" then p
    else match GroupMarker(line)
      case Some(m) =>
        var id := NormalizeGroupId(m.id);
        var name := TrimSpace(m.name);
        var group := Group(id, if name == "" then "Group" else name, NormalizeColor(m.color));
        Parser(p.items + EndOf(p.open) + [group], p.warnings, "", Some(id))
      case None =>
        if GroupEndMarker(line) then
          if p.open.Some? then Parser(p.items + EndOf(p.open), p.warnings, "", None)
          else Parser(p.items, p.warnings + [UnopenedEnd(line)], "", None)
        else match ParseCommand(line)
          case Some(c) =>
            var name := if p.title == "" then ShortSessionId(c.id) else p.title;
            p.(items := p.items + [Session(c.id, name, c.id, c.provider)], title := "")
          case None =>
            var normalized := NormalizeLabel(line);
            if normalized != "" then p.(title := normalized)
            else if Contains(line, "context-group") then p.(warnings := p.warnings + [MalformedGroup(line)])
            else p
  }

  function OnLines(p: Parser, lines: seq<string>): Parser
    decreases |lines|
  {
    if lines == [] then p else OnLines(OnLine(p, lines[0]), lines[1..])
  }

  function Parsed(text: string): (seq<ConfigItem>, seq<Warning>) {
    var p := OnLines(FRESH, Split(text, '\n'));
    (p.items + EndOf(p.open), p.warnings)
  }

  method ParseMarkdownItems(text: string) returns (items: seq<ConfigItem>, warnings: seq<Warning>)
    ensures (items, warnings) == Parsed(text)
  {
    hide GroupMarker, GroupEndMarker, ParseCommand, NormalizeLabel, NormalizeGroupId, NormalizeColor;
    hide ShortSessionId, Contains, Split, TrimSpace, OnLines;
    items, warnings := [], [];
    var pendingTitle := "";
    var openGroup: Option<string> := None;
    var lines := Split(text, '\n');
    var i := 0;
    assert lines[0..] == lines;
    while i < |lines|
      invariant i <= |lines|
      invariant OnLines(FRESH, lines) == OnLines(Parser(items, warnings, pendingTitle, openGroup), lines[i..])
    {
      ghost var before := Parser(items, warnings, pendingTitle, openGroup);
      LinesStep(before, lines, i);
      assert items + [] == items;
      var trimmed := TrimSpace(lines[i]);
      i := i + 1;
      if trimmed == "" {
        continue;
      }
      var marker := GroupMarker(trimmed);
      if marker.Some? {
        var id := NormalizeGroupId(marker.value.id);
        var name := TrimSpace(marker.value.name);
        if openGroup.Some? {
          items := items + [GroupEnd(openGroup.value)];
        }
        items := items + [Group(id, if name == "" then "Group" else name, NormalizeColor(marker.value.color))];
        openGroup := Some(id);
        pendingTitle := "";
        continue;
      }
      if GroupEndMarker(trimmed) {
        if openGroup.Some? {
          items := items + [GroupEnd(openGroup.value)];
        } else {
          warnings := warnings + [UnopenedEnd(trimmed)];
        }
        openGroup := None;
        pendingTitle := "";
        continue;
      }
      var command := ParseCommand(trimmed);
      if command.Some? {
        var name := if pendingTitle == "" then ShortSessionId(command.value.id) else pendingTitle;
        items := items + [Session(command.value.id, name, command.value.id, command.value.provider)];
        pendingTitle := "";
        continue;
      }
      var normalized := NormalizeLabel(trimmed);
      if normalized != "" {
        pendingTitle := normalized;
      } else if Contains(trimmed, "context-group") {
        warnings := warnings + [MalformedGroup(trimmed)];
      }
    }
    NoLines(Parser(items, warnings, pendingTitle, openGroup));
    assert lines[|lines|..] == [] && items + [] == items;
    if openGroup.Some? {
      items := items + [GroupEnd(openGroup.value)];
    }
  }

  lemma LinesStep(p: Parser, lines: seq<string>, i: nat)
    requires i < |lines|
    ensures OnLines(p, lines[i..]) == OnLines(OnLine(p, lines[i]), lines[i + 1..])
  {
    hide OnLine;
    assert lines[i..][1..] == lines[i + 1..];
  }

  lemma NoLines(p: Parser)
    ensures OnLines(p, []) == p
  {
  }

  // ----- Every text is well bracketed -----

  /** Groups do not nest, and each end carries the id of the open group. */
  predicate Bracketed(items: seq<ConfigItem>, open: Option<string>)
    decreases |items|
  {
    if items == [] then open.None?
    else match items[0]
      case Group(id, _, _) => open.None? && Bracketed(items[1..], Some(id))
      case GroupEnd(id) => open == Some(id) && Bracketed(items[1..], None)
      case Session(_, _, _, _) => Bracketed(items[1..], open)
  }

  lemma {:induction false} BracketedSession(items: seq<ConfigItem>, s: ConfigItem,
                                           end: seq<ConfigItem>, open: Option<string>)
    requires s.Session?
    ensures Bracketed(items + end, open) ==> Bracketed(items + [s] + end, open)
    decreases |items|
  {
    if items == [] {
      assert items + [s] + end == [s] + end && items + end == end;
    } else {
      assert (items + end)[1..] == items[1..] + end;
      assert (items + [s] + end)[1..] == items[1..] + [s] + end;
      BracketedSession(items[1..], s, end,
                       if items[0].Group? then Some(items[0].id) else if items[0].GroupEnd? then None else open);
    }
  }

  lemma {:induction false} BracketedGroup(items: seq<ConfigItem>, g: ConfigItem, open: Option<string>)
    requires g.Group?
    ensures Bracketed(items, open) ==> Bracketed(items + [g] + [GroupEnd(g.id)], open)
    decreases |items|
  {
    if items == [] {
      assert items + [g] + [GroupEnd(g.id)] == [g, GroupEnd(g.id)];
      assert [g, GroupEnd(g.id)][1..] == [GroupEnd(g.id)] && [GroupEnd(g.id)][1..] == [];
    } else {
      assert (items + [g] + [GroupEnd(g.id)])[1..] == items[1..] + [g] + [GroupEnd(g.id)];
      BracketedGroup(items[1..], g,
                       if items[0].Group? then Some(items[0].id) else if items[0].GroupEnd? then None else open);
    }
  }

  /** The items so far, with the open group closed, are bracketed. */
  ghost predicate Balanced(p: Parser) {
    Bracketed(p.items + EndOf(p.open), None)
  }

  lemma LineKeepsBalance(p: Parser, line: string)
    requires Balanced(p)
    ensures Balanced(OnLine(p, line))
  {
    hide GroupMarker, GroupEndMarker, ParseCommand, NormalizeLabel, NormalizeGroupId;
    hide NormalizeColor, ShortSessionId, Contains, TrimSpace, Bracketed;
    var r := OnLine(p, line);
    if r.open.Some? && r.items != p.items && r.items[|r.items| - 1].Group? {
      var g := r.items[|r.items| - 1];
      BracketedGroup(p.items + EndOf(p.open), g, None);
    } else if r.items == p.items + EndOf(p.open) {
      assert r.items + [] == r.items;
      assert p.items + [] == p.items;
    } else if r.items != p.items {
      BracketedSession(p.items, r.items[|r.items| - 1], EndOf(p.open), None);
    }
  }

  lemma {:induction false} LinesKeepBalance(p: Parser, lines: seq<string>)
    requires Balanced(p)
    ensures Balanced(OnLines(p, lines))
    decreases |lines|
  {
    hide Balanced, OnLine;
    if lines != [] {
      LineKeepsBalance(p, lines[0]);
      LinesKeepBalance(OnLine(p, lines[0]), lines[1..]);
    }
  }

  /** Whatever the text, its items are well bracketed. */
  lemma ParsedIsBracketed(text: string)
    ensures Bracketed(Parsed(text).0, None)
  {
    hide OnLines, Split;
    assert Balanced(FRESH);
    LinesKeepBalance(FRESH, Split(text, '\n'));
  }
}
