// The incremental reader of an append-only index of sessions: it folds new
// lines into cached rows and must agree with folding the whole file again.
// What a line of JSON means is an arbitrary classifier.

module KimiIndex {
  import opened Basics
  import opened LineSplitting

  const MAX_INDEX_BYTES: nat := 16 * 1024 * 1024
  const PREFIX: nat := 4096
  const BOUNDARY: nat := 64

  datatype Entry = Entry(sessionDir: string, workDir: Option<string>)

  /** What one line does: nothing (also when it is not a record), or something about one id. */
  datatype Effect = Nothing | Delete(id: string) | Put(id: string, entry: Entry)

  datatype Rows = Rows(entries: map<string, Entry>, deleted: set<string>)

  type Classifier = seq<byte> -> Effect

  const EMPTY: Rows := Rows(map[], {})

  function Apply(rows: Rows, e: Effect): Rows {
    match e
    case Nothing => rows
    case Delete(id) => Rows(rows.entries - {id}, rows.deleted + {id})
    case Put(id, entry) => Rows(rows.entries[id := entry], rows.deleted - {id})
  }

  // ----- Folding lines -----

  function Fold(c: Classifier, rows: Rows, lines: seq<seq<byte>>): Rows
    decreases |lines|
  {
    if lines == [] then rows else Fold(c, Apply(rows, c(lines[0])), lines[1..])
  }

  /** The rows of a whole file, read from scratch. */
  function RowsOf(c: Classifier, bytes: seq<byte>): Rows {
    Fold(c, EMPTY, Split(bytes, NEWLINE))
  }

  lemma {:induction false} FoldConcat(c: Classifier, rows: Rows, x: seq<seq<byte>>, y: seq<seq<byte>>)
    ensures Fold(c, rows, x + y) == Fold(c, Fold(c, rows, x), y)
    decreases |x|
  {
    if x == [] {
      assert x + y == y;
    } else {
      assert (x + y)[1..] == x[1..] + y;
      FoldConcat(c, Apply(rows, c(x[0])), x[1..], y);
    }
  }

  /** Folding a complete part and then the rest is folding all of it. */
  lemma FoldAfterComplete(c: Classifier, rows: Rows, a: seq<byte>, b: seq<byte>)
    requires Complete(a, NEWLINE) && c([]) == Nothing
    ensures Fold(c, rows, Split(a + b, NEWLINE)) == Fold(c, Fold(c, rows, Split(a, NEWLINE)), Split(b, NEWLINE))
  {
    SplitAfterComplete(a, b, NEWLINE);
    var n := |Split(a, NEWLINE)|;
    var front := Split(a, NEWLINE)[..n - 1];
    assert Split(a, NEWLINE) == front + [[]];
    FoldConcat(c, rows, front, [[]]);
    FoldConcat(c, rows, front, Split(b, NEWLINE));
    FoldOne(c, Fold(c, rows, front), []);
  }

  lemma FoldOne(c: Classifier, rows: Rows, line: seq<byte>)
    ensures Fold(c, rows, [line]) == Apply(rows, c(line))
  {
    assert [line][1..] == [];
  }

  /** The rows of a text are those of its complete part and the effect of its unterminated tail. */
  lemma TailEffect(c: Classifier, bytes: seq<byte>)
    requires c([]) == Nothing
    ensures var k := AfterLast(bytes, NEWLINE);
            RowsOf(c, bytes) == Apply(RowsOf(c, bytes[..k]), c(bytes[k..]))
  {
    var k := AfterLast(bytes, NEWLINE);
    assert bytes == bytes[..k] + bytes[k..];
    FoldAfterComplete(c, EMPTY, bytes[..k], bytes[k..]);
    NoSeparator(bytes[k..], NEWLINE);
    FoldOne(c, RowsOf(c, bytes[..k]), bytes[k..]);
  }

  // ----- What the rows say -----

  /** The last record about an id decides, and an id that has none is not in the rows. */
  lemma {:induction false} LastRecordDecides(c: Classifier, lines: seq<seq<byte>>, id: string, k: nat)
    requires k <= |lines| && !Touches(c, lines[k..], id)
    requires k > 0 ==> !c(lines[k - 1]).Nothing? && c(lines[k - 1]).id == id
    ensures Status(Fold(c, EMPTY, lines), id)
            == if k == 0 then (None, false)
               else match c(lines[k - 1])
                 case Put(_, entry) => (Some(entry), false)
                 case _ => (None, true)
  {
    hide Fold, Touches;
    if k == 0 {
      assert lines[0..] == lines;
      FoldStatus(c, EMPTY, EMPTY, lines, id);
    } else {
      var rows := Fold(c, EMPTY, lines[..k - 1]);
      assert lines == lines[..k - 1] + ([lines[k - 1]] + lines[k..]);
      FoldConcat(c, EMPTY, lines[..k - 1], [lines[k - 1]] + lines[k..]);
      FoldConcat(c, rows, [lines[k - 1]], lines[k..]);
      FoldOne(c, rows, lines[k - 1]);
      FoldStatus(c, Apply(rows, c(lines[k - 1])), rows, lines[k..], id);
    }
  }

  // ----- When a tail already applied does no harm -----

  predicate Touches(c: Classifier, lines: seq<seq<byte>>, id: string) {
    exists line <- lines :: !c(line).Nothing? && c(line).id == id
  }

  /** What the rows say about one id. */
  function Status(rows: Rows, id: string): (Option<Entry>, bool) {
    (if id in rows.entries then Some(rows.entries[id]) else None, id in rows.deleted)
  }

  lemma SameStatus(a: Rows, b: Rows)
    ensures a == b <==> forall id :: Status(a, id) == Status(b, id)
  {
    if forall id :: Status(a, id) == Status(b, id) {
      forall id ensures id in a.entries <==> id in b.entries {
        assert Status(a, id) == Status(b, id);
      }
      forall id | id in a.entries ensures a.entries[id] == b.entries[id] {
        assert Status(a, id) == Status(b, id);
      }
      assert a.entries == b.entries;
      forall id ensures id in a.deleted <==> id in b.deleted {
        assert Status(a, id) == Status(b, id);
      }
    }
  }

  /** An id that lines touch ends up independent of the rows before; any other is left alone. */
  lemma {:induction false} FoldStatus(c: Classifier, a: Rows, b: Rows, lines: seq<seq<byte>>, id: string)
    ensures !Touches(c, lines, id) ==> Status(Fold(c, a, lines), id) == Status(a, id)
    ensures Touches(c, lines, id) || Status(a, id) == Status(b, id) ==>
              Status(Fold(c, a, lines), id) == Status(Fold(c, b, lines), id)
    decreases |lines|
  {
    if lines != [] {
      var e := c(lines[0]);
      FoldStatus(c, Apply(a, e), Apply(b, e), lines[1..], id);
      assert Touches(c, lines, id) <==> Touches(c, lines[1..], id) || (!e.Nothing? && e.id == id);
    }
  }

  /** Exactly when folding on top of an early tail gives what folding without it gives. */
  predicate Harmless(c: Classifier, base: Rows, tail: Effect, lines: seq<seq<byte>>) {
    tail.Nothing? || Touches(c, lines, tail.id) || Apply(base, tail) == base
  }

  lemma HarmlessExactly(c: Classifier, base: Rows, tail: Effect, lines: seq<seq<byte>>)
    ensures Fold(c, Apply(base, tail), lines) == Fold(c, base, lines) <==> Harmless(c, base, tail, lines)
  {
    var early := Apply(base, tail);
    if Harmless(c, base, tail, lines) {
      forall id ensures Status(Fold(c, early, lines), id) == Status(Fold(c, base, lines), id) {
        FoldStatus(c, early, base, lines, id);
      }
      SameStatus(Fold(c, early, lines), Fold(c, base, lines));
    } else {
      FoldStatus(c, early, base, lines, tail.id);
      FoldStatus(c, base, early, lines, tail.id);
      if Status(early, tail.id) == Status(base, tail.id) {
        forall id ensures Status(early, id) == Status(base, id) {
        }
        SameStatus(early, base);
        assert false;
      }
    }
  }

  // ----- The reader -----

  datatype Cache = Cache(
    path: string, created: Option<int>, modified: Option<int>, size: nat,
    offset: nat, prefix: seq<byte>, boundary: seq<byte>, rows: Rows)

  datatype Problem = TooLarge | GrewTooLarge | Unreadable

  /** What one read meets: the file at its stat, and what it then found in it. */
  datatype Look =
    | Missing
    | Look(path: string, created: Option<int>, modified: Option<int>, atStat: seq<byte>, content: seq<byte>)

  predicate WellFormed(cache: Option<Cache>) {
    cache.Some? ==> |cache.value.prefix| == Min(cache.value.offset, PREFIX)
                    && |cache.value.boundary| == Min(cache.value.offset, BOUNDARY)
  }

  predicate SameFile(cache: Option<Cache>, look: Look)
    requires look.Look?
  {
    cache.Some? && cache.value.path == look.path && cache.value.created == look.created
  }

  predicate Hit(cache: Option<Cache>, look: Look)
    requires look.Look?
  {
    SameFile(cache, look) && cache.value.size == |look.atStat| && cache.value.modified == look.modified
  }

  /** The file is longer, so the start of it may still be the cached one. */
  predicate Longer(cache: Option<Cache>, look: Look)
    requires look.Look?
  {
    SameFile(cache, look) && |look.atStat| > cache.value.size
  }

  predicate Appended(cache: Option<Cache>, look: Look)
    requires look.Look? && WellFormed(cache)
  {
    Longer(cache, look) && |look.content| >= cache.value.offset
    && look.content[..|cache.value.prefix|] == cache.value.prefix
    && look.content[cache.value.offset - |cache.value.boundary|..cache.value.offset] == cache.value.boundary
  }

  function ReadOf(c: Classifier, cache: Option<Cache>, look: Look): (r: (Result<Rows, Problem>, Option<Cache>))
    requires WellFormed(cache)
    ensures WellFormed(r.1)
  {
    if look.Missing? then (Ok(EMPTY), cache)
    else if |look.atStat| > MAX_INDEX_BYTES then (Err(TooLarge), cache)
    else if Hit(cache, look) then (Ok(cache.value.rows), cache)
    else if Longer(cache, look) && |look.content| < cache.value.offset then (Err(Unreadable), cache)
    else
      var append := Appended(cache, look);
      var start := if append then cache.value.offset else 0;
      var bytes := look.content[start..];
      if |bytes| > MAX_INDEX_BYTES then (Err(GrewTooLarge), cache)
      else
        var rows := Fold(c, if append then cache.value.rows else EMPTY, Split(bytes, NEWLINE));
        var offset := start + AfterLast(bytes, NEWLINE);
        (Ok(rows), Some(Cache(look.path, look.created, look.modified, |look.atStat|, offset,
                              look.content[..Min(offset, PREFIX)],
                              look.content[offset - Min(offset, BOUNDARY)..offset], rows)))
  }

  method FoldLines(c: Classifier, start: Rows, bytes: seq<byte>) returns (rows: Rows)
    ensures rows == Fold(c, start, Split(bytes, NEWLINE))
  {
    hide Split;
    rows := start;
    var from, at := 0, 0;
    assert bytes[0..] == bytes;
    while at < |bytes|
      invariant from <= at <= |bytes|
      invariant forall i | from <= i < at :: bytes[i] != NEWLINE
      invariant Fold(c, start, Split(bytes, NEWLINE)) == Fold(c, rows, Split(bytes[from..], NEWLINE))
    {
      if bytes[at] == NEWLINE {
        LineStep(c, rows, bytes, from, at);
        rows := Apply(rows, c(bytes[from..at]));
        from := at + 1;
      }
      at := at + 1;
    }
    NoSeparator(bytes[from..], NEWLINE);
    FoldOne(c, rows, bytes[from..]);
    rows := Apply(rows, c(bytes[from..]));
  }

  lemma LineStep(c: Classifier, rows: Rows, bytes: seq<byte>, from: nat, at: nat)
    requires from <= at < |bytes| && bytes[at] == NEWLINE
    requires forall i | from <= i < at :: bytes[i] != NEWLINE
    ensures Fold(c, rows, Split(bytes[from..], NEWLINE))
            == Fold(c, Apply(rows, c(bytes[from..at])), Split(bytes[at + 1..], NEWLINE))
  {
    var rest := bytes[from..];
    FirstSeparator(rest, NEWLINE, at - from);
    assert rest[..at - from] == bytes[from..at];
    assert rest[at - from + 1..] == bytes[at + 1..];
    hide Split;
    assert ([bytes[from..at]] + Split(bytes[at + 1..], NEWLINE))[1..] == Split(bytes[at + 1..], NEWLINE);
  }

  method CompletePart(bytes: seq<byte>) returns (complete: nat)
    ensures complete == AfterLast(bytes, NEWLINE)
  {
    complete := |bytes|;
    while complete > 0 && bytes[complete - 1] != NEWLINE
      invariant complete <= |bytes|
      invariant forall i | complete <= i < |bytes| :: bytes[i] != NEWLINE
    {
      complete := complete - 1;
    }
    AfterLastIs(bytes, NEWLINE, complete);
  }

  class IndexReader {
    var cache: Option<Cache>

    constructor ()
      ensures cache == None
    {
      cache := None;
    }

    method Read(c: Classifier, look: Look) returns (r: Result<Rows, Problem>)
      requires WellFormed(cache)
      modifies this
      ensures WellFormed(cache)
      ensures (r, cache) == ReadOf(c, old(cache), look)
    {
      hide Split, Fold;
      if look.Missing? {
        return Ok(EMPTY);
      }
      if |look.atStat| > MAX_INDEX_BYTES {
        return Err(TooLarge);
      }
      if Hit(cache, look) {
        return Ok(cache.value.rows);
      }
      var append := false;
      if Longer(cache, look) {
        if |look.content| < cache.value.offset {
          return Err(Unreadable);
        }
        append := Appended(cache, look);
      }
      var start, rows := 0, EMPTY;
      if append {
        start, rows := cache.value.offset, cache.value.rows;
      }
      var bytes := look.content[start..];
      if |bytes| > MAX_INDEX_BYTES {
        return Err(GrewTooLarge);
      }
      var complete := CompletePart(bytes);
      rows := FoldLines(c, rows, bytes);
      var offset := start + complete;
      cache := Some(Cache(look.path, look.created, look.modified, |look.atStat|, offset,
                          look.content[..Min(offset, PREFIX)],
                              look.content[offset - Min(offset, BOUNDARY)..offset], rows));
      return Ok(rows);
    }
  }

  // ----- Agreement with reading everything again -----

  /** The cache is what a read of exactly these bytes leaves. */
  ghost predicate Describes(c: Classifier, cache: Cache, seen: seq<byte>) {
    && cache.offset == AfterLast(seen, NEWLINE)
    && cache.prefix == seen[..Min(cache.offset, PREFIX)]
    && cache.boundary == seen[cache.offset - Min(cache.offset, BOUNDARY)..cache.offset]
    && cache.rows == RowsOf(c, seen)
    && cache.size <= |seen|
  }

  /** A later state of the file does not contradict the tail an earlier read already applied. */
  predicate TailKept(c: Classifier, seen: seq<byte>, content: seq<byte>)
    requires AfterLast(seen, NEWLINE) <= |content|
  {
    var k := AfterLast(seen, NEWLINE);
    Harmless(c, RowsOf(c, seen[..k]), c(seen[k..]), Split(content[k..], NEWLINE))
  }

  /** Folding the appended part on the cached rows is right exactly when the tail was kept. */
  lemma IncrementalExactly(c: Classifier, seen: seq<byte>, content: seq<byte>)
    requires c([]) == Nothing && seen <= content
    ensures var k := AfterLast(seen, NEWLINE);
            Fold(c, RowsOf(c, seen), Split(content[k..], NEWLINE)) == RowsOf(c, content) <==> TailKept(c, seen, content)
  {
    hide Split, Fold, Harmless;
    var k := AfterLast(seen, NEWLINE);
    TailEffect(c, seen);
    assert content == seen[..k] + content[k..];
    FoldAfterComplete(c, EMPTY, seen[..k], content[k..]);
    HarmlessExactly(c, RowsOf(c, seen[..k]), c(seen[k..]), Split(content[k..], NEWLINE));
  }

  lemma CursorMoves(seen: seq<byte>, content: seq<byte>)
    requires seen <= content
    ensures var k := AfterLast(seen, NEWLINE); k + AfterLast(content[k..], NEWLINE) == AfterLast(content, NEWLINE)
  {
    hide AfterLast;
    var k := AfterLast(seen, NEWLINE);
    var rest := content[k..];
    var m := AfterLast(rest, NEWLINE);
    forall i | k + m <= i < |content| ensures content[i] != NEWLINE {
      assert rest[i - k] != NEWLINE;
    }
    AfterLastIs(content, NEWLINE, k + m);
  }

  // ----- One read -----

  /** The file only grew since the cached read, also between the stat and the read. */
  ghost predicate OnlyGrew(cache: Option<Cache>, seen: seq<byte>, look: Look) {
    look.Look? ==> look.atStat <= look.content && (SameFile(cache, look) ==> seen <= look.atStat)
  }

  ghost predicate Tidy(c: Classifier, cache: Option<Cache>, seen: seq<byte>) {
    WellFormed(cache) && (cache.Some? ==> Describes(c, cache.value, seen))
  }

  lemma AppendIsFound(c: Classifier, cache: Option<Cache>, seen: seq<byte>, look: Look)
    requires Tidy(c, cache, seen) && look.Look? && Longer(cache, look) && OnlyGrew(cache, seen, look)
    ensures Appended(cache, look)
  {
    hide AfterLast, RowsOf;
    var k := cache.value.offset;
    assert seen[..k] == look.content[..k];
    assert seen[..Min(k, PREFIX)] == look.content[..Min(k, PREFIX)];
    assert seen[k - Min(k, BOUNDARY)..k] == look.content[k - Min(k, BOUNDARY)..k];
  }

  /** A successful read of a file that only grew is right exactly when it finds the tail kept. */
  lemma ReadExactly(c: Classifier, cache: Option<Cache>, seen: seq<byte>, look: Look)
    requires c([]) == Nothing && look.Look?
    requires Tidy(c, cache, seen) && OnlyGrew(cache, seen, look)
    requires ReadOf(c, cache, look).0.Ok?
    ensures var r := ReadOf(c, cache, look);
            if Hit(cache, look) then r.0.value == RowsOf(c, look.atStat) && r.1 == cache
            else
              && (r.0.value == RowsOf(c, look.content) <==> (Longer(cache, look) ==> TailKept(c, seen, look.content)))
              && (r.0.value == RowsOf(c, look.content) ==> Tidy(c, r.1, look.content))
              && SameFile(r.1, look)
  {
    hide Split, Fold, AfterLast, TailKept;
    if Hit(cache, look) {
      assert seen == look.atStat;
    } else if Longer(cache, look) {
      AppendIsFound(c, cache, seen, look);
      IncrementalExactly(c, seen, look.content);
      CursorMoves(seen, look.content);
    } else {
      assert !Appended(cache, look);
      assert look.content[0..] == look.content;
    }
  }

  /** Where reading begins: behind the complete lines of a file that grew, and else at its start. */
  function Cursor(cache: Option<Cache>, look: Look): nat
    requires look.Look?
  {
    if Longer(cache, look) then cache.value.offset else 0
  }

  /** A read of a file that only grew fails for its size alone; within the limit it succeeds. */
  lemma ReadSucceedsExactly(c: Classifier, cache: Option<Cache>, seen: seq<byte>, look: Look)
    requires look.Look? && Tidy(c, cache, seen) && OnlyGrew(cache, seen, look)
    ensures var r := ReadOf(c, cache, look).0;
            && (r == Err(TooLarge) <==> |look.atStat| > MAX_INDEX_BYTES)
            && (r == Err(GrewTooLarge) <==>
                  |look.atStat| <= MAX_INDEX_BYTES && !Hit(cache, look)
                  && |look.content| - Cursor(cache, look) > MAX_INDEX_BYTES)
            && r != Err(Unreadable)
            && (|look.content| <= MAX_INDEX_BYTES ==> r.Ok?)
  {
    hide Split, Fold, AfterLast, Describes, Appended;
    if Longer(cache, look) {
      AppendIsFound(c, cache, seen, look);
      CursorInside(c, cache.value, seen);
    } else {
      NotAppended(cache, look);
    }
  }

  lemma CursorInside(c: Classifier, cache: Cache, seen: seq<byte>)
    requires Describes(c, cache, seen)
    ensures cache.offset <= |seen|
  {
    hide RowsOf;
  }

  lemma NotAppended(cache: Option<Cache>, look: Look)
    requires look.Look? && WellFormed(cache) && !Longer(cache, look)
    ensures !Appended(cache, look)
  {
  }

  /** A file that is not longer than before, or another file, is read from its start, whatever the cache holds. */
  lemma OtherwiseReadWhole(c: Classifier, cache: Option<Cache>, look: Look)
    requires look.Look? && WellFormed(cache)
    requires |look.atStat| <= MAX_INDEX_BYTES && |look.content| <= MAX_INDEX_BYTES
    requires cache.Some? ==>
               || cache.value.path != look.path || cache.value.created != look.created
               || |look.atStat| < cache.value.size
               || (|look.atStat| == cache.value.size && cache.value.modified != look.modified)
    ensures ReadOf(c, cache, look).0 == Ok(RowsOf(c, look.content))
  {
    hide Split, Fold, AfterLast;
    assert look.content[0..] == look.content;
  }

  /** A file that lost lines already read, though it seemed to have grown, is not read at all. */
  lemma LostLinesFail(c: Classifier, cache: Option<Cache>, look: Look)
    requires look.Look? && WellFormed(cache) && cache.Some?
    requires cache.value.path == look.path && cache.value.created == look.created
    requires cache.value.size < |look.atStat| <= MAX_INDEX_BYTES && |look.content| < cache.value.offset
    ensures ReadOf(c, cache, look) == (Err(Unreadable), cache)
  {
  }

  /** After a read that looked at the file, the same file needs no second look. */
  lemma ThenItIsCached(c: Classifier, cache: Option<Cache>, look: Look, later: Look)
    requires look.Look? && later.Look? && WellFormed(cache) && ReadOf(c, cache, look).0.Ok?
    requires later.path == look.path && later.created == look.created && later.modified == look.modified
    requires later.atStat == look.atStat
    ensures ReadOf(c, ReadOf(c, cache, look).1, later) == ReadOf(c, cache, look)
  {
    hide Split, Fold, AfterLast;
  }

  // ----- Whole runs -----

  function CacheAfter(c: Classifier, looks: seq<Look>): (cache: Option<Cache>)
    ensures WellFormed(cache)
  {
    if looks == [] then None
    else ReadOf(c, CacheAfter(c, looks[..|looks| - 1]), looks[|looks| - 1]).1
  }

  predicate SameIdentity(a: Look, b: Look) {
    a.Look? && b.Look? && a.path == b.path && a.created == b.created
  }

  /** Every file only grows: between two reads, and between the stat and the read. */
  ghost predicate AppendOnly(looks: seq<Look>) {
    && (forall i | 0 <= i < |looks| && looks[i].Look? :: looks[i].atStat <= looks[i].content)
    && (forall i, j | 0 <= i < j < |looks| && SameIdentity(looks[i], looks[j]) :: looks[i].content <= looks[j].atStat)
  }

  /** Tails read before they were terminated are completed to the same effect, or overwritten. */
  ghost predicate TailsKept(c: Classifier, looks: seq<Look>)
    requires AppendOnly(looks)
  {
    forall i, j | 0 <= i < j < |looks| && SameIdentity(looks[i], looks[j]) ::
      && looks[i].content <= looks[j].atStat && looks[j].atStat <= looks[j].content
      && TailKept(c, looks[i].content, looks[j].content)
  }

  /** The cache is that of one of the reads so far. */
  ghost predicate OfSomeRead(c: Classifier, cache: Option<Cache>, looks: seq<Look>) {
    cache.Some? ==>
      exists i :: 0 <= i < |looks| && looks[i].Look? && SameFile(cache, looks[i])
        && Describes(c, cache.value, looks[i].content)
  }

  lemma {:induction false} CacheIsOfSomeRead(c: Classifier, looks: seq<Look>)
    requires c([]) == Nothing && AppendOnly(looks) && TailsKept(c, looks)
    ensures OfSomeRead(c, CacheAfter(c, looks), looks)
  {
    hide ReadOf, Describes, TailKept;
    if looks != [] {
      var n := |looks| - 1;
      var before := looks[..n];
      var cache := CacheAfter(c, before);
      CacheIsOfSomeRead(c, before);
      assert forall i | 0 <= i < n :: before[i] == looks[i];
      LastRead(c, looks, cache);
    }
  }

  /** Every read of a run gives what reading the whole file at its stat, or at its read, gives. */
  lemma EveryReadAgrees(c: Classifier, looks: seq<Look>)
    requires c([]) == Nothing && AppendOnly(looks) && TailsKept(c, looks) && looks != []
    ensures var look := looks[|looks| - 1];
            var r := ReadOf(c, CacheAfter(c, looks[..|looks| - 1]), look).0;
            && (r.Ok? ==> r.value == (if look.Missing? then EMPTY
                                      else if Hit(CacheAfter(c, looks[..|looks| - 1]), look) then RowsOf(c, look.atStat)
                                      else RowsOf(c, look.content)))
            && (look.Missing? || |look.content| <= MAX_INDEX_BYTES ==> r.Ok?)
            && r != Err(Unreadable)
  {
    hide ReadOf, Describes, TailKept, CacheAfter;
    var n := |looks| - 1;
    var before := looks[..n];
    CacheIsOfSomeRead(c, before);
    assert forall i | 0 <= i < n :: before[i] == looks[i];
    LastRead(c, looks, CacheAfter(c, before));
  }

  lemma LastRead(c: Classifier, looks: seq<Look>, cache: Option<Cache>)
    requires looks != [] && WellFormed(cache)
    requires c([]) == Nothing && AppendOnly(looks) && TailsKept(c, looks)
    requires OfSomeRead(c, cache, looks[..|looks| - 1])
    ensures OfSomeRead(c, ReadOf(c, cache, looks[|looks| - 1]).1, looks)
    ensures var look := looks[|looks| - 1];
            var r := ReadOf(c, cache, look).0;
            && (r.Ok? ==> r.value == (if look.Missing? then EMPTY
                                      else if Hit(cache, look) then RowsOf(c, look.atStat)
                                      else RowsOf(c, look.content)))
            && (look.Missing? || |look.content| <= MAX_INDEX_BYTES ==> r.Ok?)
            && r != Err(Unreadable)
  {
    hide RowsOf, TailKept, Split, Fold, AfterLast;
    var n := |looks| - 1;
    var look := looks[n];
    var seen: seq<byte> := [];
    if cache.Some? {
      var i :| 0 <= i < n && looks[i].Look? && SameFile(cache, looks[i]) && Describes(c, cache.value, looks[i].content);
      seen := looks[i].content;
      if look.Look? && SameFile(cache, look) {
        assert SameIdentity(looks[i], look);
      }
    }
    if look.Look? {
      ReadSucceedsExactly(c, cache, seen, look);
      if ReadOf(c, cache, look).0.Ok? {
        ReadExactly(c, cache, seen, look);
      }
    }
    hide Describes;
  }

  /** The proviso is needed: a record read early and then spoilt before its line ends stays in the rows. */
  lemma SpoiltTailStays(c: Classifier, record: seq<byte>, junk: byte)
    requires c([]) == Nothing && NEWLINE !in record && junk != NEWLINE
    requires c(record) == Delete("a") && c(record + [junk]) == Nothing
    ensures !TailKept(c, record, record + [junk, NEWLINE])
    ensures Fold(c, RowsOf(c, record), Split(record + [junk, NEWLINE], NEWLINE)) != RowsOf(c, record + [junk, NEWLINE])
  {
    hide Split, Fold, Touches;
    var content := record + [junk, NEWLINE];
    AfterLastIs(record, NEWLINE, 0);
    assert record[0..] == record && record[..0] == [] && content[0..] == content;
    FirstSeparator(content, NEWLINE, |record| + 1);
    assert content[..|record| + 1] == record + [junk] && content[|record| + 2..] == [];
    NoSeparator([], NEWLINE);
    FoldOne(c, EMPTY, []);
    NotTouched(c, [record + [junk]] + [[]]);
    assert "a" in Apply(EMPTY, Delete("a")).deleted;
    IncrementalExactly(c, record, content);
  }

  lemma NotTouched(c: Classifier, lines: seq<seq<byte>>)
    requires forall line <- lines :: c(line) == Nothing
    ensures !Touches(c, lines, "a")
  {
  }
}
