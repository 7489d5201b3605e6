// The command line that opens a Windows Terminal tab. Arguments of the payload
// pass two rounds of argument parsing, with Terminal joining them again in
// between. Texts are sequences of Unicode scalar values.

module TerminalEscaping {
  import opened Basics

  const MAX_ARGUMENT: nat := 16384
  const MAX_LINE: nat := 30000

  datatype Problem = ArgumentTooLong | ControlCharacter | UnsupportedWindow | LineTooLong

  // ----- Sizes -----

  function Utf8Units(c: char): nat {
    if c as int < 0x80 then 1 else if c as int < 0x800 then 2 else if c as int < 0x10000 then 3 else 4
  }

  function Utf16Units(c: char): nat {
    if c as int < 0x10000 then 1 else 2
  }

  function Utf8Size(s: string): nat {
    if s == [] then 0 else Utf8Size(s[..|s| - 1]) + Utf8Units(s[|s| - 1])
  }

  function Utf16Size(s: string): nat {
    if s == [] then 0 else Utf16Size(s[..|s| - 1]) + Utf16Units(s[|s| - 1])
  }

  predicate IsControl(c: char) {
    c as int < 32 || c as int == 127
  }

  function Checked(argument: string): (r: Result<string, Problem>)
    ensures r.Ok? ==> r.value == argument && forall c <- argument :: !IsControl(c)
  {
    if Utf8Size(argument) > MAX_ARGUMENT then Err(ArgumentTooLong)
    else if exists c <- argument :: IsControl(c) then Err(ControlCharacter)
    else Ok(argument)
  }

  // ----- Quoting -----

  function Slashes(n: nat): (r: string)
    ensures |r| == n && forall i | 0 <= i < n :: r[i] == '\\'
  {
    if n == 0 then "" else Slashes(n - 1) + "\\"
  }

  /** What quoting makes of a text behind `slashes` backslashes. */
  function Quoted(value: string, slashes: nat): string
    decreases |value|
  {
    if value == [] then Slashes(2 * slashes)
    else if value[0] == '\\' then Quoted(value[1..], slashes + 1)
    else if value[0] == '"' then Slashes(2 * slashes) + "\\\"" + Quoted(value[1..], 0)
    else Slashes(slashes) + [value[0]] + Quoted(value[1..], 0)
  }

  function QuoteOf(value: string): string {
    "\"" + Quoted(value, 0) + "\""
  }

  method Quote(value: string) returns (result: string)
    ensures result == QuoteOf(value)
  {
    result := "\"";
    var slashes := 0;
    assert value[0..] == value;
    assert result + Quoted(value[0..], 0) == "\"" + Quoted(value, 0);
    for i := 0 to |value|
      invariant "\"" + Quoted(value, 0) == result + Quoted(value[i..], slashes)
    {
      var c := value[i];
      assert value[i..][1..] == value[i + 1..];
      if c == '\\' {
        slashes := slashes + 1;
        continue;
      }
      ghost var before := result;
      result := result + Slashes(slashes * if c == '"' then 2 else 1);
      if c == '"' {
        result := result + "\\";
      }
      result := result + [c];
      assert before + Quoted(value[i..], slashes) == result + Quoted(value[i + 1..], 0);
      slashes := 0;
    }
    assert value[|value|..] == [];
    result := result + Slashes(slashes * 2);
    return result + "\"";
  }

  function Escaped(input: string): string {
    if input == [] then ""
    else (if input[0] == ';' then "\\;" else [input[0]]) + Escaped(input[1..])
  }

  lemma EscapedStep(input: string, i: nat)
    requires i < |input|
    ensures Escaped(input[i..]) == (if input[i] == ';' then "\\;" else [input[i]]) + Escaped(input[i + 1..])
  {
    assert input[i..][1..] == input[i + 1..];
  }

  method EscapeSemicolons(input: string) returns (value: string)
    ensures value == Escaped(input)
  {
    hide Escaped;
    value := "";
    var i := 0;
    assert input[0..] == input && "" + Escaped(input) == Escaped(input);
    while i < |input|
      invariant i <= |input|
      invariant value + Escaped(input[i..]) == Escaped(input)
    {
      EscapedStep(input, i);
      ghost var before, later := value, Escaped(input[i + 1..]);
      if input[i] == ';' {
        value := value + "\\";
        assert before + ("\\;" + later) == value + ";" + later;
      } else {
        assert before + ([input[i]] + later) == value + [input[i]] + later;
      }
      value := value + [input[i]];
      i := i + 1;
    }
    assert input[|input|..] == "" && Escaped("") == "" by { NothingEscaped(); }
    assert value + "" == value;
  }

  lemma NothingEscaped()
    ensures Escaped("") == ""
  {
  }

  // ----- The command line -----

  predicate NamedWindow(value: string) {
    8 < |value| <= 88 && value[..8] == "context-" && forall c <- value[8..] ::
      'a' <= c <= 'z' || 'A' <= c <= 'Z' || '0' <= c <= '9' || c == '_' || c == '-'
  }

  predicate Supported(arguments: seq<string>) {
    && 4 <= |arguments| <= 40 && arguments[0] == "-w" && (arguments[1] == "0" || NamedWindow(arguments[1]))
    && arguments[2] == "new-tab"
  }

  predicate BeginsPayload(argument: string) {
    argument == "wsl.exe" || argument == "powershell.exe"
  }

  predicate HasPayload(arguments: seq<string>) {
    exists a <- arguments :: BeginsPayload(a)
  }

  /** Payload that Terminal's joining would not keep as one argument is quoted for the second parse. */
  function Prepared(argument: string, payload: bool): string {
    if payload && ' ' in argument then Quoted(argument, 0)
    else if payload && ('"' in argument || argument == "") then QuoteOf(argument)
    else argument
  }

  /** What Terminal finds as its arguments after the first parse. */
  function Values(arguments: seq<string>): (r: seq<string>)
    ensures |r| == |arguments|
  {
    if arguments == [] then []
    else Values(arguments[..|arguments| - 1]) + [Escaped(Prepared(arguments[|arguments| - 1], HasPayload(arguments)))]
  }

  function Quotes(values: seq<string>): (r: seq<string>)
    ensures |r| == |values| && forall i | 0 <= i < |r| :: r[i] == QuoteOf(values[i])
  {
    seq(|values|, i requires 0 <= i < |values| => QuoteOf(values[i]))
  }

  /** Pieces with a space between each two. */
  function Joined(pieces: seq<string>): string {
    if pieces == [] then ""
    else if |pieces| == 1 then pieces[0]
    else Joined(pieces[..|pieces| - 1]) + " " + pieces[|pieces| - 1]
  }

  function FirstProblem(arguments: seq<string>): Option<Problem> {
    if arguments == [] then None
    else match FirstProblem(arguments[..|arguments| - 1])
      case Some(p) => Some(p)
      case None => match Checked(arguments[|arguments| - 1])
        case Err(p) => Some(p)
        case Ok(_) => None
  }

  function LineOf(arguments: seq<string>): Result<string, Problem> {
    if !Supported(arguments) then Err(UnsupportedWindow)
    else match FirstProblem(arguments)
      case Some(p) => Err(p)
      case None =>
        var line := Joined(Quotes(Values(arguments)));
        if Utf16Size(line) > MAX_LINE then Err(LineTooLong) else Ok(line)
  }

  /** One argument as it stands in the command line. */
  method Piece(argument: string, payload: bool) returns (r: Result<string, Problem>)
    ensures Checked(argument).Err? ==> r == Err(Checked(argument).error)
    ensures Checked(argument).Ok? ==> r == Ok(QuoteOf(Escaped(Prepared(argument, payload))))
  {
    hide Quoted, QuoteOf, Escaped, Checked;
    var wide := Checked(argument);
    if wide.Err? {
      return Err(wide.error);
    }
    var input := wide.value;
    if payload && (' ' in input || '"' in input || input == "") {
      var wraps := ' ' in input;
      input := Quote(input);
      Unwrapped(argument);
      if wraps {
        input := input[1..|input| - 1];
      }
    }
    var value := EscapeSemicolons(input);
    var quoted := Quote(value);
    return Ok(quoted);
  }

  method TerminalCommandLine(arguments: seq<string>) returns (r: Result<string, Problem>)
    ensures r == LineOf(arguments)
  {
    hide QuoteOf, Escaped, Prepared, Checked, Supported, HasPayload, Joined, FirstProblem, Values, Utf16Size;
    if !Supported(arguments) {
      return Err(UnsupportedWindow);
    }
    var line := "";
    var payload := false;
    var i := 0;
    assert arguments[..0] == [];
    NoPieces();
    while i < |arguments|
      invariant i <= |arguments|
      invariant payload == HasPayload(arguments[..i])
      invariant FirstProblem(arguments[..i]) == None
      invariant line == Joined(Quotes(Values(arguments[..i])))
      invariant line == "" <==> i == 0
    {
      NextArgument(arguments, i);
      payload := payload || BeginsPayload(arguments[i]);
      var piece := Piece(arguments[i], payload);
      if piece.Err? {
        ProblemStays(arguments, i + 1);
        return Err(piece.error);
      }
      AddPiece(Values(arguments[..i]), Escaped(Prepared(arguments[i], payload)));
      line := (if line != "" then line + " " else line) + piece.value;
      i := i + 1;
    }
    assert arguments[..|arguments|] == arguments;
    if Utf16Size(line) > MAX_LINE {
      return Err(LineTooLong);
    }
    return Ok(line);
  }

  lemma NextArgument(arguments: seq<string>, i: nat)
    requires i < |arguments|
    ensures var front, upTo := arguments[..i], arguments[..i + 1];
            && HasPayload(upTo) == (HasPayload(front) || BeginsPayload(arguments[i]))
            && Values(upTo) == Values(front) + [Escaped(Prepared(arguments[i], HasPayload(upTo)))]
            && (FirstProblem(front) == None ==>
                  FirstProblem(upTo) == match Checked(arguments[i]) case Err(p) => Some(p) case Ok(_) => None)
  {
    hide Escaped, Prepared, Checked;
    var upTo := arguments[..i + 1];
    assert upTo[..i] == arguments[..i] && upTo == arguments[..i] + [arguments[i]];
    PayloadSoFar(arguments[..i], arguments[i]);
    hide HasPayload;
  }

  lemma AddPiece(values: seq<string>, value: string)
    ensures Joined(Quotes(values + [value]))
            == (if values == [] then "" else Joined(Quotes(values)) + " ") + QuoteOf(value)
    ensures Joined(Quotes(values + [value])) != ""
  {
    hide Joined;
    JoinStep(Quotes(values), QuoteOf(value));
    assert Quotes(values) + [QuoteOf(value)] == Quotes(values + [value]);
    NotEmpty(value);
  }

  lemma NoPieces()
    ensures Joined([]) == "" && !HasPayload([]) && Values([]) == [] && FirstProblem([]) == None
  {
  }

  lemma PayloadSoFar(front: seq<string>, last: string)
    ensures HasPayload(front + [last]) <==> HasPayload(front) || BeginsPayload(last)
  {
    assert last in front + [last];
    assert forall a <- front :: a in front + [last];
  }

  lemma {:induction false} ProblemStays(arguments: seq<string>, n: nat)
    requires n <= |arguments| && FirstProblem(arguments[..n]).Some?
    ensures FirstProblem(arguments) == FirstProblem(arguments[..n])
    decreases |arguments| - n
  {
    hide Checked;
    if n < |arguments| {
      assert arguments[..n + 1][..n] == arguments[..n];
      ProblemStays(arguments, n + 1);
    } else {
      assert arguments[..n] == arguments;
    }
  }

  lemma Unwrapped(value: string)
    ensures var q := QuoteOf(value); |q| >= 2 && q[1..|q| - 1] == Quoted(value, 0)
  {
  }

  lemma NotEmpty(value: string)
    ensures QuoteOf(value) != ""
  {
  }

  lemma JoinStep(pieces: seq<string>, piece: string)
    ensures Joined(pieces + [piece]) == (if pieces == [] then "" else Joined(pieces) + " ") + piece
  {
    assert (pieces + [piece])[..|pieces|] == pieces;
    assert "" + piece == piece;
  }

  // ----- How Windows programs split a command line -----

  predicate IsGap(c: char) {
    c == ' ' || c == '\t'
  }

  /**
   * Reads one argument, `slashes` backslashes of it being pending: the argument
   * and the text behind it. Two backslashes before a quote stand for one, an odd
   * one makes the quote literal, and elsewhere backslashes are ordinary. With
   * `pairs`, two quotes inside quotes stand for a quote.
   */
  function ScanArgument(s: string, inQuotes: bool, slashes: nat, pairs: bool): (r: (string, string))
    ensures |r.1| <= |s|
    ensures r.1 == [] || IsGap(r.1[0])
    decreases |s|
  {
    if s == [] then (Slashes(slashes), [])
    else if s[0] == '\\' then ScanArgument(s[1..], inQuotes, slashes + 1, pairs)
    else if s[0] == '"' then
      if slashes % 2 == 1 then
        var (argument, rest) := ScanArgument(s[1..], inQuotes, 0, pairs);
        (Slashes(slashes / 2) + "\"" + argument, rest)
      else if inQuotes && pairs && |s| > 1 && s[1] == '"' then
        var (argument, rest) := ScanArgument(s[2..], inQuotes, 0, pairs);
        (Slashes(slashes / 2) + "\"" + argument, rest)
      else
        var (argument, rest) := ScanArgument(s[1..], !inQuotes, 0, pairs);
        (Slashes(slashes / 2) + argument, rest)
    else if !inQuotes && IsGap(s[0]) then (Slashes(slashes), s)
    else
      var (argument, rest) := ScanArgument(s[1..], inQuotes, 0, pairs);
      (Slashes(slashes) + [s[0]] + argument, rest)
  }

  function Arguments(s: string, pairs: bool): seq<string>
    decreases |s|, 1
  {
    if s == [] then []
    else if IsGap(s[0]) then Arguments(s[1..], pairs)
    else NonEmptyArguments(s, pairs)
  }

  function NonEmptyArguments(s: string, pairs: bool): seq<string>
    requires s != [] && !IsGap(s[0])
    decreases |s|, 0
  {
    var (argument, rest) := ScanArgument(s, false, 0, pairs);
    if |rest| < |s| then [argument] + Arguments(rest, pairs) else [argument]
  }

  /** The program name has no escapes: up to a gap, or between quotes. */
  function ProgramName(s: string): (n: nat)
    ensures n <= |s|
  {
    if s == [] || IsGap(s[0]) then 0 else 1 + ProgramName(s[1..])
  }

  /** All arguments of a command line whose program name is not quoted. */
  function Argv(line: string, pairs: bool): seq<string> {
    var n := ProgramName(line);
    [line[..n]] + Arguments(line[n..], pairs)
  }

  // ----- Quoting is undone by the parse -----

  lemma SlashesSum(a: nat, b: nat)
    ensures Slashes(a + b) == Slashes(a) + Slashes(b)
    ensures Slashes(0) == "" && Slashes(1) == "\\"
  {
  }

  predicate AtGap(rest: string) {
    rest == [] || IsGap(rest[0])
  }

  /** One more backslash pending. */
  lemma ScanSlash(t: string, inQuotes: bool, slashes: nat, pairs: bool)
    ensures ScanArgument("\\" + t, inQuotes, slashes, pairs) == ScanArgument(t, inQuotes, slashes + 1, pairs)
  {
    assert ("\\" + t)[0] == '\\' && ("\\" + t)[1..] == t;
  }

  /** A quote behind an odd number of backslashes. */
  lemma ScanLiteralQuote(t: string, inQuotes: bool, n: nat, pairs: bool)
    ensures var (argument, rest) := ScanArgument(t, inQuotes, 0, pairs);
            ScanArgument("\"" + t, inQuotes, 2 * n + 1, pairs) == (Slashes(n) + "\"" + argument, rest)
  {
    assert ("\"" + t)[0] == '"' && ("\"" + t)[1..] == t;
    assert (2 * n + 1) % 2 == 1 && (2 * n + 1) / 2 == n;
  }

  /** A quote that opens or closes, and is not one of a pair. */
  lemma ScanDelimiter(t: string, inQuotes: bool, n: nat, pairs: bool)
    requires inQuotes ==> AtGap(t)
    ensures var (argument, rest) := ScanArgument(t, !inQuotes, 0, pairs);
            ScanArgument("\"" + t, inQuotes, 2 * n, pairs) == (Slashes(n) + argument, rest)
  {
    assert ("\"" + t)[0] == '"' && ("\"" + t)[1..] == t;
    assert (2 * n) % 2 == 0 && (2 * n) / 2 == n;
    if t != [] {
      assert ("\"" + t)[1] == t[0];
    }
  }

  lemma ScanOrdinary(c: char, t: string, inQuotes: bool, slashes: nat, pairs: bool)
    requires c != '\\' && c != '"' && (inQuotes || !IsGap(c))
    ensures var (argument, rest) := ScanArgument(t, inQuotes, 0, pairs);
            ScanArgument([c] + t, inQuotes, slashes, pairs) == (Slashes(slashes) + [c] + argument, rest)
  {
    assert ([c] + t)[0] == c && ([c] + t)[1..] == t;
  }

  lemma ScanEnd(rest: string, slashes: nat, pairs: bool)
    requires AtGap(rest)
    ensures ScanArgument(rest, false, slashes, pairs) == (Slashes(slashes), rest)
  {
  }

  /** Backslashes are counted before anything is decided about them. */
  lemma {:induction false} CountSlashes(n: nat, t: string, inQuotes: bool, slashes: nat, pairs: bool)
    ensures ScanArgument(Slashes(n) + t, inQuotes, slashes, pairs) == ScanArgument(t, inQuotes, slashes + n, pairs)
    decreases n
  {
    hide ScanArgument, Slashes;
    if n == 0 {
      assert Slashes(0) + t == t;
    } else {
      SlashesSum(1, n - 1);
      assert Slashes(n) + t == "\\" + (Slashes(n - 1) + t);
      ScanSlash(Slashes(n - 1) + t, inQuotes, slashes, pairs);
      CountSlashes(n - 1, t, inQuotes, slashes + 1, pairs);
    }
  }

  /** Reading a quoted body up to its closing quote gives the text that was quoted. */
  lemma {:induction false} ScanQuoted(value: string, slashes: nat, rest: string, pairs: bool)
    requires AtGap(rest)
    ensures ScanArgument(Quoted(value, slashes) + ("\"" + rest), true, 0, pairs) == (Slashes(slashes) + value, rest)
    decreases |value|
  {
    hide ScanArgument, Slashes, Quoted;
    var close := "\"" + rest;
    SlashesSum(slashes, 0);
    QuotedFirst(value, slashes);
    if value == [] {
      CountSlashes(2 * slashes, close, true, 0, pairs);
      ScanDelimiter(rest, true, slashes, pairs);
      ScanEnd(rest, 0, pairs);
      assert Slashes(slashes) + value == Slashes(slashes);
    } else if value[0] == '\\' {
      ScanQuoted(value[1..], slashes + 1, rest, pairs);
      SlashesSum(slashes, 1);
      assert Slashes(slashes) + "\\" + value[1..] == Slashes(slashes) + value;
    } else {
      ScanQuoted(value[1..], 0, rest, pairs);
      assert Slashes(0) + value[1..] == value[1..];
      ScanBehind(value, slashes, rest, pairs);
    }
  }

  lemma QuotedFirst(value: string, slashes: nat)
    ensures value == [] ==> Quoted(value, slashes) == Slashes(2 * slashes)
    ensures value != [] && value[0] == '\\' ==> Quoted(value, slashes) == Quoted(value[1..], slashes + 1)
  {
  }

  /** A quote or an ordinary character, and the backslashes before it. */
  lemma ScanBehind(value: string, slashes: nat, rest: string, pairs: bool)
    requires value != [] && value[0] != '\\'
    requires ScanArgument(Quoted(value[1..], 0) + ("\"" + rest), true, 0, pairs) == (value[1..], rest)
    ensures ScanArgument(Quoted(value, slashes) + ("\"" + rest), true, 0, pairs) == (Slashes(slashes) + value, rest)
  {
    hide ScanArgument, Slashes, Quoted;
    var close := "\"" + rest;
    var inner := Quoted(value[1..], 0) + close;
    if value[0] == '"' {
      QuoteSplit(value, slashes, close);
      CountSlashes(2 * slashes + 1, "\"" + inner, true, 0, pairs);
      ScanLiteralQuote(inner, true, slashes, pairs);
      assert Slashes(slashes) + "\"" + value[1..] == Slashes(slashes) + value;
    } else {
      PlainSplit(value, slashes, close);
      CountSlashes(slashes, [value[0]] + inner, true, 0, pairs);
      ScanOrdinary(value[0], inner, true, slashes, pairs);
      assert Slashes(slashes) + [value[0]] + value[1..] == Slashes(slashes) + value;
    }
  }

  lemma Regroup(a: string, x: string, y: string, b: string, c: string)
    ensures a + (x + y) + b + c == a + x + (y + (b + c))
  {
  }

  lemma QuoteSplit(value: string, slashes: nat, close: string)
    requires value != [] && value[0] == '"'
    ensures Quoted(value, slashes) + close == Slashes(2 * slashes + 1) + ("\"" + (Quoted(value[1..], 0) + close))
  {
    hide Slashes;
    SlashesSum(2 * slashes, 1);
    Regroup(Slashes(2 * slashes), "\\", "\"", Quoted(value[1..], 0), close);
    assert "\\\"" == "\\" + "\"";
  }

  lemma PlainSplit(value: string, slashes: nat, close: string)
    requires value != [] && value[0] != '"' && value[0] != '\\'
    ensures Quoted(value, slashes) + close == Slashes(slashes) + ([value[0]] + (Quoted(value[1..], 0) + close))
  {
    hide Slashes;
    Regroup(Slashes(slashes), "", [value[0]], Quoted(value[1..], 0), close);
    assert "" + [value[0]] == [value[0]] && Slashes(slashes) + "" == Slashes(slashes);
  }

  /** One parse takes exactly the quoted argument, whatever follows at a gap. */
  lemma ScanQuoteOf(value: string, rest: string, pairs: bool)
    requires AtGap(rest)
    ensures ScanArgument(QuoteOf(value) + rest, false, 0, pairs) == (value, rest)
  {
    hide ScanArgument, Quoted, Slashes;
    var body := Quoted(value, 0) + ("\"" + rest);
    assert QuoteOf(value) + rest == "\"" + body;
    SlashesSum(0, 0);
    ScanQuoted(value, 0, rest, pairs);
    ScanDelimiter(body, false, 0, pairs);
    assert "" + value == value;
  }

  /** An argument without gaps and quotes is read as it is. */
  lemma {:induction false} ScanPlain(value: string, slashes: nat, rest: string, pairs: bool)
    requires AtGap(rest) && forall c <- value :: !IsGap(c) && c != '"'
    ensures ScanArgument(value + rest, false, slashes, pairs) == (Slashes(slashes) + value, rest)
    decreases |value|
  {
    hide ScanArgument, Slashes;
    SlashesSum(slashes, 0);
    if value == [] {
      assert value + rest == rest && Slashes(slashes) + value == Slashes(slashes);
      ScanEnd(rest, slashes, pairs);
    } else {
      var c, tail := value[0], value[1..];
      assert c in value && forall x <- tail :: x in value;
      assert value + rest == [c] + (tail + rest);
      if c == '\\' {
        ScanPlain(tail, slashes + 1, rest, pairs);
        ScanSlash(tail + rest, false, slashes, pairs);
        SlashesSum(slashes, 1);
        assert Slashes(slashes) + "\\" + tail == Slashes(slashes) + value;
      } else {
        ScanPlain(tail, 0, rest, pairs);
        ScanOrdinary(c, tail + rest, false, slashes, pairs);
        assert Slashes(0) + tail == tail;
        assert Slashes(slashes) + [c] + tail == Slashes(slashes) + value;
      }
    }
  }

  // ----- From lines to arguments -----

  /** Text that is read as one argument wherever a gap or the end follows. */
  ghost predicate Reads(piece: string, argument: string, pairs: bool) {
    piece != "" && !IsGap(piece[0])
    && forall rest | AtGap(rest) :: ScanArgument(piece + rest, false, 0, pairs) == (argument, rest)
  }

  lemma QuoteReads(value: string, pairs: bool)
    ensures Reads(QuoteOf(value), value, pairs)
  {
    forall rest | AtGap(rest) ensures ScanArgument(QuoteOf(value) + rest, false, 0, pairs) == (value, rest) {
      ScanQuoteOf(value, rest, pairs);
    }
  }

  lemma PlainReads(value: string, pairs: bool)
    requires value != "" && forall c <- value :: !IsGap(c) && c != '"'
    ensures Reads(value, value, pairs)
  {
    SlashesSum(0, 0);
    forall rest | AtGap(rest) ensures ScanArgument(value + rest, false, 0, pairs) == (value, rest) {
      ScanPlain(value, 0, rest, pairs);
      assert Slashes(0) + value == value;
    }
    assert value[0] in value;
  }

  lemma TakeOne(piece: string, argument: string, rest: string, pairs: bool)
    requires Reads(piece, argument, pairs) && AtGap(rest)
    ensures Arguments(piece + rest, pairs) == [argument] + Arguments(rest, pairs)
  {
    hide ScanArgument;
    assert (piece + rest)[0] == piece[0];
  }

  lemma {:induction false} JoinedFront(pieces: seq<string>)
    requires |pieces| > 1
    ensures Joined(pieces) == pieces[0] + (" " + Joined(pieces[1..]))
  {
    var n := |pieces| - 1;
    if n > 1 {
      JoinedFront(pieces[..n]);
      assert pieces[..n][1..] == pieces[1..][..n - 1];
    }
  }

  /** Joined pieces are parsed into the arguments they stand for. */
  lemma {:induction false} JoinedReads(pieces: seq<string>, arguments: seq<string>, pairs: bool)
    requires |pieces| == |arguments| && forall i | 0 <= i < |pieces| :: Reads(pieces[i], arguments[i], pairs)
    ensures Arguments(Joined(pieces), pairs) == arguments
    decreases |pieces|
  {
    hide Reads;
    if |pieces| == 1 {
      TakeOne(pieces[0], arguments[0], "", pairs);
      assert pieces[0] + "" == pieces[0];
    } else if |pieces| > 1 {
      var later := Joined(pieces[1..]);
      JoinedFront(pieces);
      JoinedReads(pieces[1..], arguments[1..], pairs);
      hide Joined;
      TakeOne(pieces[0], arguments[0], " " + later, pairs);
      assert (" " + later)[1..] == later;
      assert [arguments[0]] + arguments[1..] == arguments;
    }
  }

  lemma ProgramNameStep(c: char, later: string)
    requires !IsGap(c)
    ensures ProgramName([c] + later) == 1 + ProgramName(later)
  {
    assert ([c] + later)[0] == c && ([c] + later)[1..] == later;
  }

  lemma ProgramNameEnds(rest: string)
    requires AtGap(rest)
    ensures ProgramName(rest) == 0
  {
  }

  lemma {:induction false} ProgramNameIs(name: string, rest: string)
    requires (forall c <- name :: !IsGap(c)) && AtGap(rest)
    ensures ProgramName(name + rest) == |name|
  {
    hide ProgramName, IsGap, AtGap;
    if name == "" {
      assert name + rest == rest;
      ProgramNameEnds(rest);
    } else {
      assert name[0] in name && forall c <- name[1..] :: c in name;
      assert name + rest == [name[0]] + (name[1..] + rest);
      ProgramNameStep(name[0], name[1..] + rest);
      ProgramNameIs(name[1..], rest);
    }
  }

  lemma ArgvSplit(name: string, later: string, pairs: bool)
    requires forall c <- name :: !IsGap(c)
    ensures Argv(name + (" " + later), pairs) == [name] + Arguments(later, pairs)
  {
    var line := name + (" " + later);
    ProgramNameIs(name, " " + later);
    assert line[..|name|] == name && line[|name|..] == " " + later && (" " + later)[1..] == later;
  }

  lemma ArgvAlone(name: string, pairs: bool)
    requires forall c <- name :: !IsGap(c)
    ensures Argv(name, pairs) == [name]
  {
    ProgramNameIs(name, "");
    assert name + "" == name && name[|name|..] == "" && name[..|name|] == name;
  }

  // ----- What Terminal does in between -----

  /** Removes the backslash before each semicolon. */
  function Unescaped(value: string): string {
    if value == [] then ""
    else if |value| > 1 && value[0] == '\\' && value[1] == ';' then ";" + Unescaped(value[2..])
    else [value[0]] + Unescaped(value[1..])
  }

  /** Quotes only around arguments with spaces, and without any escaping. */
  function Rejoined(value: string): string {
    if ' ' in value then "\"" + value + "\"" else value
  }

  function ChildPieces(values: seq<string>): (r: seq<string>)
    ensures |r| == |values| && forall i | 0 <= i < |r| :: r[i] == Rejoined(Unescaped(values[i]))
  {
    seq(|values|, i requires 0 <= i < |values| => Rejoined(Unescaped(values[i])))
  }

  lemma {:induction false} UnescapedEscaped(input: string)
    ensures Unescaped(Escaped(input)) == input
  {
    if input != "" {
      var c, tail := input[0], Escaped(input[1..]);
      UnescapedEscaped(input[1..]);
      if c == ';' {
        assert ("\\;" + tail)[2..] == tail;
      } else {
        assert ([c] + tail)[1..] == tail;
        assert tail != "" ==> tail[0] != ';';
      }
    }
  }

  lemma {:induction false} QuotedCharacters(value: string, slashes: nat)
    ensures ' ' in Quoted(value, slashes) <==> ' ' in value
    decreases |value|
  {
    assert forall n: nat :: ' ' !in Slashes(n);
    if value != "" {
      QuotedCharacters(value[1..], if value[0] == '\\' then slashes + 1 else 0);
      assert value == [value[0]] + value[1..];
    }
  }

  /** After Terminal's joining, a payload argument is read as the original one. */
  lemma PayloadReads(argument: string, pairs: bool)
    requires forall c <- argument :: !IsControl(c)
    ensures Reads(Rejoined(Prepared(argument, true)), argument, pairs)
  {
    hide Reads, Quoted;
    QuotedCharacters(argument, 0);
    if ' ' in argument || '"' in argument || argument == "" {
      QuoteReads(argument, pairs);
      assert ' ' in QuoteOf(argument) <==> ' ' in Quoted(argument, 0);
    } else {
      PlainReads(argument, pairs);
    }
  }

  // ----- Both layers -----

  lemma {:induction false} ValueAt(arguments: seq<string>, i: nat)
    requires i < |arguments|
    ensures Values(arguments)[i] == Escaped(Prepared(arguments[i], HasPayload(arguments[..i + 1])))
  {
    hide Escaped, Prepared, HasPayload;
    var n := |arguments| - 1;
    if i < n {
      ValueAt(arguments[..n], i);
      assert arguments[..n][..i + 1] == arguments[..i + 1];
    } else {
      assert arguments[..i + 1] == arguments;
    }
  }

  lemma {:induction false} AllChecked(arguments: seq<string>, i: nat)
    requires i < |arguments| && FirstProblem(arguments) == None
    ensures forall c <- arguments[i] :: !IsControl(c)
  {
    if i < |arguments| - 1 {
      AllChecked(arguments[..|arguments| - 1], i);
    }
  }

  /** The first argument that starts the payload. */
  predicate PayloadStarts(arguments: seq<string>, p: nat) {
    p < |arguments| && BeginsPayload(arguments[p]) && forall i | 0 <= i < p :: !BeginsPayload(arguments[i])
  }

  lemma PayloadFrom(arguments: seq<string>, p: nat, i: nat)
    requires PayloadStarts(arguments, p) && i < |arguments|
    ensures HasPayload(arguments[..i + 1]) <==> p <= i
  {
    if p <= i {
      assert arguments[..i + 1][p] == arguments[p];
    }
  }

  /** The first parse yields the prepared values, for either reading of paired quotes. */
  lemma FirstParse(arguments: seq<string>, pairs: bool)
    requires LineOf(arguments).Ok?
    ensures Argv("wt.exe " + LineOf(arguments).value, pairs) == ["wt.exe"] + Values(arguments)
  {
    hide Reads, FirstProblem, Utf16Size, Supported, ScanArgument, Quoted;
    var values := Values(arguments);
    var line := LineOf(arguments).value;
    forall i | 0 <= i < |values| ensures Reads(Quotes(values)[i], values[i], pairs) {
      QuoteReads(values[i], pairs);
    }
    JoinedReads(Quotes(values), values, pairs);
    assert "wt.exe " + line == "wt.exe" + (" " + line);
    ArgvSplit("wt.exe", line, pairs);
  }

  /** Terminal's joining and the second parse give back the payload as it was requested. */
  lemma SecondParse(arguments: seq<string>, p: nat, pairs: bool)
    requires LineOf(arguments).Ok? && PayloadStarts(arguments, p)
    ensures Argv(Joined(ChildPieces(Values(arguments)[p..])), pairs) == arguments[p..]
  {
    hide Reads, Utf16Size, Supported, ScanArgument, Joined, Values, Prepared, Rejoined;
    var values := Values(arguments)[p..];
    var wanted := arguments[p..];
    var pieces := ChildPieces(values);
    forall i | 0 <= i < |pieces| ensures Reads(pieces[i], wanted[i], pairs) {
      ValueAt(arguments, p + i);
      PayloadFrom(arguments, p, p + i);
      AllChecked(arguments, p + i);
      UnescapedEscaped(Prepared(wanted[i], true));
      PayloadReads(wanted[i], pairs);
    }
    assert pieces[0] == wanted[0] by {
      ValueAt(arguments, p);
      PayloadFrom(arguments, p, p);
      UnescapedEscaped(Prepared(wanted[0], true));
      ProgramIsPlain(wanted[0]);
      PlainRejoined(wanted[0]);
    }
    ProgramIsPlain(wanted[0]);
    ProgramFirst(pieces, wanted, pairs);
  }

  lemma ProgramIsPlain(program: string)
    requires BeginsPayload(program)
    ensures program != "" && forall c <- program :: !IsGap(c) && c != '"'
  {
  }

  lemma PlainRejoined(program: string)
    requires program != "" && forall c <- program :: !IsGap(c) && c != '"'
    ensures Rejoined(Prepared(program, true)) == program
  {
    assert forall c <- program :: c != ' ';
  }

  lemma ProgramFirst(pieces: seq<string>, wanted: seq<string>, pairs: bool)
    requires pieces != [] && |pieces| == |wanted| && pieces[0] == wanted[0]
    requires forall c <- wanted[0] :: !IsGap(c)
    requires forall i | 0 <= i < |pieces| :: Reads(pieces[i], wanted[i], pairs)
    ensures Argv(Joined(pieces), pairs) == wanted
  {
    hide Reads, Argv, Joined, IsGap;
    if |pieces| == 1 {
      ArgvAlone(wanted[0], pairs);
      JoinStep([], pieces[0]);
      assert [] + [pieces[0]] == pieces && "" + pieces[0] == pieces[0];
    } else {
      JoinedFront(pieces);
      forall i | 0 <= i < |pieces| - 1 ensures Reads(pieces[1..][i], wanted[1..][i], pairs) {
        assert Reads(pieces[i + 1], wanted[i + 1], pairs);
      }
      JoinedReads(pieces[1..], wanted[1..], pairs);
      ArgvSplit(wanted[0], Joined(pieces[1..]), pairs);
      assert [wanted[0]] + wanted[1..] == wanted;
    }
  }

  /** Before the payload, Terminal sees each argument as it was, with no semicolon left to act on. */
  lemma OptionsUnchanged(arguments: seq<string>, i: nat)
    requires LineOf(arguments).Ok? && i < |arguments| && !HasPayload(arguments[..i + 1])
    ensures Unescaped(Values(arguments)[i]) == arguments[i]
  {
    ValueAt(arguments, i);
    UnescapedEscaped(arguments[i]);
  }

  /** No value holds a semicolon that Terminal would take for an action separator. */
  lemma EverySemicolonEscaped(input: string, k: nat)
    requires k < |Escaped(input)| && Escaped(input)[k] == ';'
    ensures k > 0 && Escaped(input)[k - 1] == '\\'
  {
    if input != "" {
      var front := if input[0] == ';' then "\\;" else [input[0]];
      if k >= |front| {
        EverySemicolonEscaped(input[1..], k - |front|);
      }
    }
  }
}
