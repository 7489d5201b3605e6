// Which requests for a terminal tab get a command line: all within the limits,
// and how much an argument can grow until it stands in the line.

module TerminalLimits {
  import opened Basics
  import opened TerminalEscaping

  // ----- How much an argument grows -----

  lemma {:induction false} SizeOfSum(a: string, b: string)
    ensures Utf16Size(a + b) == Utf16Size(a) + Utf16Size(b)
  {
    if b == [] {
      assert a + b == a;
    } else {
      assert (a + b)[..|a + b| - 1] == a + b[..|b| - 1];
      SizeOfSum(a, b[..|b| - 1]);
    }
  }

  lemma SizeOfOne(c: char)
    ensures Utf16Size([c]) == Utf16Units(c)
  {
    assert [c][..0] == [];
  }

  lemma SizeOfFirst(s: string)
    requires s != ""
    ensures Utf16Size(s) == Utf16Units(s[0]) + Utf16Size(s[1..])
  {
    assert s == [s[0]] + s[1..];
    SizeOfSum([s[0]], s[1..]);
    SizeOfOne(s[0]);
  }

  lemma EmptySize()
    ensures Utf16Size("") == 0
  {
  }

  lemma {:induction false} SizeOfSlashes(n: nat)
    ensures Utf16Size(Slashes(n)) == n
  {
    hide Utf16Size;
    if n == 0 {
      EmptySize();
    } else {
      SizeOfSlashes(n - 1);
      SizeOfSum(Slashes(n - 1), "\\");
      SizeOfOne('\\');
    }
  }

  /** A quoted text has at most two units for each one, and for each backslash pending. */
  lemma {:induction false} QuotedGrowth(value: string, slashes: nat)
    ensures Utf16Size(Quoted(value, slashes)) <= 2 * (Utf16Size(value) + slashes)
    decreases |value|
  {
    hide Utf16Size, Slashes;
    SizeOfSlashes(slashes);
    SizeOfSlashes(2 * slashes);
    if value != "" {
      var tail := value[1..];
      SizeOfFirst(value);
      if value[0] == '\\' {
        QuotedGrowth(tail, slashes + 1);
      } else if value[0] == '"' {
        QuotedGrowth(tail, 0);
        SizeOfSum(Slashes(2 * slashes) + "\\\"", Quoted(tail, 0));
        SizeOfSum(Slashes(2 * slashes), "\\\"");
        EscapedQuoteSize();
      } else {
        QuotedGrowth(tail, 0);
        SizeOfSum(Slashes(slashes) + [value[0]], Quoted(tail, 0));
        SizeOfSum(Slashes(slashes), [value[0]]);
        SizeOfOne(value[0]);
      }
    }
  }

  lemma EscapedQuoteSize()
    ensures Utf16Size("\\\"") == 2 && Utf16Size("\"") == 1 && Utf16Size("\\;") == 2 && Utf16Size(" ") == 1
    ensures Utf16Size("") == 0
  {
    SizeOfOne('\\');
    SizeOfOne('"');
    SizeOfOne(';');
    SizeOfOne(' ');
    SizeOfSum("\\", "\"");
    SizeOfSum("\\", ";");
    assert "\\" + "\"" == "\\\"" && "\\" + ";" == "\\;";
  }

  lemma QuoteGrowth(value: string)
    ensures Utf16Size(QuoteOf(value)) <= 2 * Utf16Size(value) + 2
  {
    hide Utf16Size, Quoted;
    QuotedGrowth(value, 0);
    SizeOfSum("\"" + Quoted(value, 0), "\"");
    SizeOfSum("\"", Quoted(value, 0));
    EscapedQuoteSize();
  }

  lemma {:induction false} EscapedGrowth(input: string)
    ensures Utf16Size(Escaped(input)) <= 2 * Utf16Size(input)
  {
    hide Utf16Size;
    EscapedQuoteSize();
    if input != "" {
      SizeOfFirst(input);
      EscapedGrowth(input[1..]);
      var front := if input[0] == ';' then "\\;" else [input[0]];
      SizeOfSum(front, Escaped(input[1..]));
      SizeOfOne(input[0]);
    }
  }

  lemma PreparedGrowth(argument: string, payload: bool)
    ensures Utf16Size(Prepared(argument, payload)) <= 2 * Utf16Size(argument) + 2
  {
    hide Utf16Size, Quoted, QuoteOf;
    QuotedGrowth(argument, 0);
    QuoteGrowth(argument);
  }

  /** What one argument adds to the line at most, with the space in front of it. */
  function Allowance(argument: string): nat {
    8 * Utf16Size(argument) + 11
  }

  function Allowances(arguments: seq<string>): nat {
    if arguments == [] then 0 else Allowances(arguments[..|arguments| - 1]) + Allowance(arguments[|arguments| - 1])
  }

  lemma PieceGrowth(argument: string, payload: bool)
    ensures Utf16Size(QuoteOf(Escaped(Prepared(argument, payload)))) + 1 <= Allowance(argument)
  {
    hide Utf16Size, QuoteOf, Escaped, Prepared;
    PreparedGrowth(argument, payload);
    EscapedGrowth(Prepared(argument, payload));
    QuoteGrowth(Escaped(Prepared(argument, payload)));
  }

  /** The line is never longer than its arguments allow. */
  lemma {:induction false} LineGrowth(arguments: seq<string>)
    ensures Utf16Size(Joined(Quotes(Values(arguments)))) <= Allowances(arguments)
    ensures arguments != [] ==> Utf16Size(Joined(Quotes(Values(arguments)))) < Allowances(arguments)
  {
    hide Utf16Size, QuoteOf, Escaped, Prepared, Joined, Allowance;
    EscapedQuoteSize();
    if arguments == [] {
      NoPieces();
    } else {
      var n := |arguments| - 1;
      var front, value := arguments[..n], Escaped(Prepared(arguments[n], HasPayload(arguments)));
      hide HasPayload;
      LineGrowth(front);
      AddPiece(Values(front), value);
      PieceGrowth(arguments[n], HasPayload(arguments));
      var line := Joined(Quotes(Values(front)));
      SizeOfSum(line + " ", QuoteOf(value));
      SizeOfSum(line, " ");
      SizeOfSum("", QuoteOf(value));
    }
  }

  // ----- Which requests are supported -----

  predicate WindowChar(c: char) {
    'a' <= c <= 'z' || 'A' <= c <= 'Z' || '0' <= c <= '9' || c == '_' || c == '-'
  }

  predicate WindowName(name: string) {
    1 <= |name| <= 80 && forall c <- name :: WindowChar(c)
  }

  /** The window in front, or one of the program's own by a name of 1 to 80 characters. */
  ghost predicate Window(w: string) {
    w == "0" || exists name: string :: WindowName(name) && w == "context-" + name
  }

  /** A new tab in such a window, with 4 to 40 arguments in all. */
  ghost predicate NewTab(arguments: seq<string>) {
    4 <= |arguments| <= 40 && arguments[..3] == ["-w", arguments[1], "new-tab"] && Window(arguments[1])
  }

  lemma WindowExactly(w: string)
    ensures Window(w) <==> w == "0" || NamedWindow(w)
  {
    if NamedWindow(w) {
      assert w == "context-" + w[8..];
      assert WindowName(w[8..]);
    }
    if Window(w) && w != "0" {
      var name: string :| WindowName(name) && w == "context-" + name;
      assert w[..8] == "context-" && w[8..] == name;
    }
  }

  lemma SupportedExactly(arguments: seq<string>)
    ensures Supported(arguments) <==> NewTab(arguments)
  {
    hide Window, NamedWindow;
    if |arguments| >= 4 {
      WindowExactly(arguments[1]);
      assert arguments[..3] == [arguments[0], arguments[1], arguments[2]];
    }
  }

  predicate Fine(argument: string) {
    Utf8Size(argument) <= MAX_ARGUMENT && forall c <- argument :: c as int >= 32 && c as int != 127
  }

  lemma {:induction false} NoProblem(arguments: seq<string>)
    requires forall a <- arguments :: Fine(a)
    ensures FirstProblem(arguments) == None
  {
    if arguments != [] {
      assert forall a <- arguments[..|arguments| - 1] :: a in arguments;
      NoProblem(arguments[..|arguments| - 1]);
      assert arguments[|arguments| - 1] in arguments;
    }
  }

  lemma FirstProblemIs(arguments: seq<string>, i: nat)
    requires i < |arguments| && (forall j | 0 <= j < i :: Fine(arguments[j])) && !Fine(arguments[i])
    ensures FirstProblem(arguments)
            == Some(if Utf8Size(arguments[i]) > MAX_ARGUMENT then ArgumentTooLong else ControlCharacter)
  {
    var upTo := arguments[..i + 1];
    assert upTo[..i] == arguments[..i];
    NoProblem(arguments[..i]);
    ProblemStays(arguments, i + 1);
  }

  // ----- The outcome of every request -----

  /** A new tab in a supported window is refused for its size only; short arguments always get their line. */
  lemma LineIsProduced(arguments: seq<string>)
    requires NewTab(arguments) && forall a <- arguments :: Fine(a)
    ensures LineOf(arguments).Ok? || LineOf(arguments) == Err(LineTooLong)
    ensures Allowances(arguments) <= MAX_LINE + 1 ==> LineOf(arguments).Ok?
    ensures LineOf(arguments).Ok? ==> Utf16Size(LineOf(arguments).value) <= MAX_LINE
  {
    hide Supported, NewTab, Fine, Utf16Size, Joined, Values, Allowances;
    SupportedExactly(arguments);
    NoProblem(arguments);
    SizeOfNothing(arguments);
    LineGrowth(arguments);
  }

  lemma SizeOfNothing(arguments: seq<string>)
    requires NewTab(arguments)
    ensures arguments != []
  {
    hide Window;
  }

  /** Anything but a new tab in a supported window is refused as such, before any argument is looked at. */
  lemma RefusedWindow(arguments: seq<string>)
    ensures LineOf(arguments) == Err(UnsupportedWindow) <==> !NewTab(arguments)
  {
    hide Supported, NewTab;
    SupportedExactly(arguments);
    if Supported(arguments) && FirstProblem(arguments).Some? {
      ProblemOfArgument(arguments);
    }
  }

  lemma {:induction false} ProblemOfArgument(arguments: seq<string>)
    requires FirstProblem(arguments).Some?
    ensures FirstProblem(arguments).value != UnsupportedWindow
  {
    var front := arguments[..|arguments| - 1];
    if FirstProblem(front).Some? {
      ProblemOfArgument(front);
    }
  }

  /** The first argument that is too long or holds a control character decides the refusal. */
  lemma RefusedArgument(arguments: seq<string>, i: nat)
    requires NewTab(arguments)
    requires i < |arguments| && (forall j | 0 <= j < i :: Fine(arguments[j])) && !Fine(arguments[i])
    ensures LineOf(arguments)
            == Err(if Utf8Size(arguments[i]) > MAX_ARGUMENT then ArgumentTooLong else ControlCharacter)
  {
    hide Supported, NewTab, Fine;
    SupportedExactly(arguments);
    FirstProblemIs(arguments, i);
  }

  /** Terminal finds the options in the line, and joins the rest to a line that its child reads as the payload. */
  ghost predicate Arrives(line: string, options: seq<string>, payload: seq<string>, pairs: bool) {
    var argv := Argv("wt.exe " + line, pairs);
    && |argv| == 1 + |options| + |payload| && argv[0] == "wt.exe"
    && (forall i | 0 <= i < |options| :: Unescaped(argv[1 + i]) == options[i])
    && Argv(Joined(ChildPieces(argv[1 + |options|..])), pairs) == payload
  }

  /** A short request arrives: the payload is run as it was asked for, in a tab with the options asked for. */
  lemma RequestArrives(window: string, options: seq<string>, payload: seq<string>, pairs: bool)
    requires Window(window) && payload != [] && BeginsPayload(payload[0])
    requires var arguments := ["-w", window, "new-tab"] + options + payload;
             4 <= |arguments| <= 40 && (forall a <- arguments :: Fine(a)) && Allowances(arguments) <= MAX_LINE + 1
             && forall a <- options :: !BeginsPayload(a)
    ensures var r := LineOf(["-w", window, "new-tab"] + options + payload);
            r.Ok? && Arrives(r.value, ["-w", window, "new-tab"] + options, payload, pairs)
  {
    hide Fine, LineOf, Values, Argv, Joined, Allowances, Window, BeginsPayload;
    var front := ["-w", window, "new-tab"] + options;
    var arguments := front + payload;
    var p := |front|;
    assert arguments[..3] == ["-w", window, "new-tab"];
    LineIsProduced(arguments);
    FirstParse(arguments, pairs);
    WindowIsNoPayload(window);
    forall i | 0 <= i < p ensures !BeginsPayload(arguments[i]) {
      assert arguments[i] == front[i] && (i >= 3 ==> arguments[i] in options);
    }
    assert arguments[p] == payload[0] && arguments[p..] == payload;
    SecondParse(arguments, p, pairs);
    forall i | 0 <= i < p ensures Unescaped(Values(arguments)[i]) == front[i] {
      NoPayloadYet(arguments, i);
      OptionsUnchanged(arguments, i);
    }
    assert (["wt.exe"] + Values(arguments))[1 + p..] == Values(arguments)[p..];
  }

  lemma WindowIsNoPayload(window: string)
    requires Window(window)
    ensures !BeginsPayload("-w") && !BeginsPayload(window) && !BeginsPayload("new-tab")
  {
    if window != "0" {
      assert window[..8] == "context-" && window[0] == 'c';
    }
  }

  lemma NoPayloadYet(arguments: seq<string>, i: nat)
    requires i < |arguments| && forall j | 0 <= j <= i :: !BeginsPayload(arguments[j])
    ensures !HasPayload(arguments[..i + 1])
  {
  }

  // ----- Sizes -----

  /** UTF-8 takes a byte more beyond 7, 11 and 16 bits, and UTF-16 a unit more beyond 16 bits. */
  lemma UnitsExactly(c: char)
    ensures 1 <= Utf8Units(c) <= 4
    ensures Utf8Units(c) <= 1 <==> (c as int) < Pow2(7)
    ensures Utf8Units(c) <= 2 <==> (c as int) < Pow2(11)
    ensures Utf8Units(c) <= 3 <==> (c as int) < Pow2(16)
    ensures Utf16Units(c) == if (c as int) < Pow2(16) then 1 else 2
  {
    assert Pow2(4) == 16;
    assert Pow2(8) == 256;
    assert Pow2(12) == 4096;
  }

  /** The size of a text is the sum of those of its characters. */
  lemma {:induction false} SizesAdd(a: string, b: string)
    ensures Utf8Size(a + b) == Utf8Size(a) + Utf8Size(b) && Utf16Size(a + b) == Utf16Size(a) + Utf16Size(b)
    ensures |a| == 1 ==> Utf8Size(a) == Utf8Units(a[0]) && Utf16Size(a) == Utf16Units(a[0])
  {
    SizeOfSum(a, b);
    if |a| == 1 {
      assert a[..0] == [];
    }
    if b == [] {
      assert a + b == a;
    } else {
      assert (a + b)[..|a + b| - 1] == a + b[..|b| - 1];
      SizesAdd(a, b[..|b| - 1]);
    }
  }

  /** The payload begins with one of two programs. */
  lemma PayloadPrograms(argument: string)
    ensures BeginsPayload(argument) <==> argument in {"wsl.exe", "powershell.exe"}
  {
  }
}
