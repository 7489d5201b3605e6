// The cache of recent sessions: an entry is kept while the sources it was read
// from carry the stamps taken before they were read. The file system is a
// history of what each path holds at each moment.

module RecentCache {
  import opened Basics

  const MAX_WATCHED_PATHS: nat := 256
  const MAX_WATCHED_DIRECTORIES: nat := 64
  const REDISCOVERY_INTERVAL: int := 30
  const MAX_ENTRIES: nat := 8

  /** Size and times of a path, as one number; nothing when it does not exist. */
  datatype Stamp = Stamp(path: string, state: Option<nat>, directory: bool)

  /** A sessions file and a provider. */
  datatype Key = Key(markdown: string, provider: string)

  datatype Entry = Entry(key: Key, stamps: seq<Stamp>, items: seq<string>, scanned: int)

  // ----- Tracking sources -----

  predicate IsTracked(stamps: seq<Stamp>, path: string) {
    exists s <- stamps :: s.path == path
  }

  function Directories(stamps: seq<Stamp>): nat {
    if stamps == [] then 0
    else Directories(stamps[..|stamps| - 1]) + if stamps[|stamps| - 1].directory then 1 else 0
  }

  predicate HasRoom(stamps: seq<Stamp>, s: Stamp) {
    |stamps| < MAX_WATCHED_PATHS && !(s.directory && Directories(stamps) >= MAX_WATCHED_DIRECTORIES)
  }

  /** The stamps that remain of all that a load asked to track. */
  function Tracked(asked: seq<Stamp>): seq<Stamp> {
    if asked == [] then []
    else
      var stamps, s := Tracked(asked[..|asked| - 1]), asked[|asked| - 1];
      if HasRoom(stamps, s) && !IsTracked(stamps, s.path) then stamps + [s] else stamps
  }

  // ----- One visit -----

  /** What a visit meets: the clock and the stamps it reads before, during and after a load. */
  datatype Visit = Visit(
    key: Key, limit: nat, now: int, before: string -> Stamp,
    asked: seq<Stamp>, loaded: Option<seq<string>>, after: string -> Stamp, finished: int)

  predicate Unchanged(stamps: seq<Stamp>, read: string -> Stamp) {
    forall s <- stamps :: read(s.path) == s
  }

  function IndexOf(cache: seq<Entry>, key: Key): (k: Option<nat>)
    ensures k.Some? ==> k.value < |cache| && cache[k.value].key == key
    ensures k.None? ==> forall e <- cache :: e.key != key
  {
    if cache == [] then None
    else if cache[0].key == key then Some(0)
    else match IndexOf(cache[1..], key)
      case None => None
      case Some(k) => Some(k + 1)
  }

  predicate Valid(e: Entry, v: Visit) {
    v.now - e.scanned < REDISCOVERY_INTERVAL && Unchanged(e.stamps, v.before)
  }

  predicate Hit(cache: seq<Entry>, v: Visit) {
    var k := IndexOf(cache, v.key);
    k.Some? && Valid(cache[k.value], v)
  }

  function Without(cache: seq<Entry>, key: Key): seq<Entry> {
    match IndexOf(cache, key)
    case None => cache
    case Some(k) => cache[..k] + cache[k + 1..]
  }

  function Newest(cache: seq<Entry>): seq<Entry> {
    if |cache| > MAX_ENTRIES then cache[|cache| - MAX_ENTRIES..] else cache
  }

  function Limited(items: seq<string>, limit: nat): seq<string> {
    if |items| <= limit then items else items[..limit]
  }

  function Scanned(v: Visit): Entry
    requires v.loaded.Some?
  {
    var stamps := Tracked(v.asked);
    Entry(v.key, stamps, v.loaded.value,
          if Unchanged(stamps, v.after) then v.finished else v.finished - REDISCOVERY_INTERVAL)
  }

  function LoadOf(cache: seq<Entry>, v: Visit): (Option<seq<string>>, seq<Entry>) {
    if Hit(cache, v) then
      var e := cache[IndexOf(cache, v.key).value];
      (Some(Limited(e.items, v.limit)), Without(cache, v.key) + [e])
    else if v.loaded.None? then (None, Without(cache, v.key))
    else (Some(Limited(v.loaded.value, v.limit)), Newest(Without(cache, v.key) + [Scanned(v)]))
  }

  class Cache {
    var entries: seq<Entry>
    var tracked: Option<seq<Stamp>>

    constructor ()
      ensures entries == [] && tracked == None
    {
      entries, tracked := [], None;
    }

    /** Asked by a loader before it reads a source. */
    method Track(stamp: Stamp)
      modifies this`tracked
      ensures old(tracked).None? ==> tracked.None?
      ensures old(tracked).Some? ==>
                var stamps := old(tracked).value;
                tracked == Some(if HasRoom(stamps, stamp) && !IsTracked(stamps, stamp.path)
                                then stamps + [stamp] else stamps)
    {
      if tracked.Some? {
        var paths := tracked.value;
        if |paths| < MAX_WATCHED_PATHS && !IsTracked(paths, stamp.path) {
          var directories := CountDirectories(paths);
          if stamp.directory && directories >= MAX_WATCHED_DIRECTORIES {
            return;
          }
          tracked := Some(paths + [stamp]);
        }
      }
    }

    method CountDirectories(stamps: seq<Stamp>) returns (n: nat)
      ensures n == Directories(stamps)
    {
      n := 0;
      assert stamps[..0] == [];
      for i := 0 to |stamps|
        invariant n == Directories(stamps[..i])
      {
        assert stamps[..i + 1][..i] == stamps[..i];
        if stamps[i].directory {
          n := n + 1;
        }
      }
      assert stamps[..|stamps|] == stamps;
    }

    /** The requests of a loader while it runs. */
    method TrackAll(asked: seq<Stamp>)
      requires tracked == Some([])
      modifies this`tracked
      ensures tracked == Some(Tracked(asked))
    {
      hide Tracked, HasRoom, IsTracked;
      var i := 0;
      NothingTracked();
      assert asked[..0] == [];
      while i < |asked|
        invariant i <= |asked|
        invariant tracked == Some(Tracked(asked[..i]))
      {
        TrackedStep(asked, i);
        Track(asked[i]);
        i := i + 1;
      }
      assert asked[..|asked|] == asked;
    }

    method Load(v: Visit) returns (r: Option<seq<string>>)
      modifies this
      ensures (r, entries) == LoadOf(old(entries), v)
      ensures tracked == None || tracked == old(tracked)
    {
      hide Tracked, Unchanged, HasRoom, IsTracked, Limited, Newest, Valid;
      var k := Position(v.key);
      if k < |entries| {
        var entry := entries[k];
        var valid := Valid(entry, v);
        entries := entries[..k] + entries[k + 1..];
        if valid {
          entries := entries + [entry];
          return Some(Limited(entry.items, v.limit));
        }
      }
      ghost var rest := entries;
      assert rest == Without(old(entries), v.key);
      tracked := Some([]);
      TrackAll(v.asked);
      var stamps := tracked.value;
      tracked := None;
      if v.loaded.None? {
        return None;
      }
      var stable := Unchanged(stamps, v.after);
      entries := entries + [Entry(v.key, stamps, v.loaded.value,
                                  if stable then v.finished else v.finished - REDISCOVERY_INTERVAL)];
      assert entries == rest + [Scanned(v)];
      while |entries| > MAX_ENTRIES
        invariant tracked == None && Newest(entries) == Newest(rest + [Scanned(v)])
      {
        OneOldest(entries);
        entries := entries[1..];
      }
      AllNewest(entries);
      return Some(Limited(v.loaded.value, v.limit));
    }

    method Position(key: Key) returns (k: nat)
      ensures k <= |entries|
      ensures IndexOf(entries, key) == if k < |entries| then Some(k) else None
    {
      k := 0;
      while k < |entries| && entries[k].key != key
        invariant k <= |entries|
        invariant forall i | 0 <= i < k :: entries[i].key != key
      {
        k := k + 1;
      }
      IndexIs(entries, key, k);
    }
  }

  lemma {:induction false} IndexIs(cache: seq<Entry>, key: Key, k: nat)
    requires k <= |cache| && forall i | 0 <= i < k :: cache[i].key != key
    requires k < |cache| ==> cache[k].key == key
    ensures IndexOf(cache, key) == if k < |cache| then Some(k) else None
  {
    if k > 0 {
      IndexIs(cache[1..], key, k - 1);
    }
  }

  lemma OneOldest(cache: seq<Entry>)
    requires |cache| > MAX_ENTRIES
    ensures Newest(cache[1..]) == Newest(cache)
  {
  }

  lemma AllNewest(cache: seq<Entry>)
    requires |cache| <= MAX_ENTRIES
    ensures Newest(cache) == cache
  {
  }

  lemma NothingTracked()
    ensures Tracked([]) == []
  {
  }

  lemma TrackedStep(asked: seq<Stamp>, i: nat)
    requires i < |asked|
    ensures var stamps := Tracked(asked[..i]);
            Tracked(asked[..i + 1])
            == if HasRoom(stamps, asked[i]) && !IsTracked(stamps, asked[i].path) then stamps + [asked[i]] else stamps
  {
    assert asked[..i + 1][..i] == asked[..i];
  }

  // ----- The shape of the cache -----

  function CacheAfter(visits: seq<Visit>): seq<Entry> {
    if visits == [] then [] else LoadOf(CacheAfter(visits[..|visits| - 1]), visits[|visits| - 1]).1
  }

  ghost predicate DistinctKeys(keys: seq<Key>) {
    forall i, j | 0 <= i < j < |keys| :: keys[i] != keys[j]
  }

  function Keys(cache: seq<Entry>): (r: seq<Key>)
    ensures |r| == |cache| && forall i | 0 <= i < |r| :: r[i] == cache[i].key
  {
    seq(|cache|, i requires 0 <= i < |cache| => cache[i].key)
  }

  function KeysWithout(keys: seq<Key>, key: Key): seq<Key> {
    if keys == [] then []
    else KeysWithout(keys[..|keys| - 1], key) + if keys[|keys| - 1] == key then [] else [keys[|keys| - 1]]
  }

  /** Keys by their last successful use, oldest first; a failed load forgets its key. */
  function Uses(visits: seq<Visit>): seq<Key> {
    if visits == [] then []
    else
      var v := visits[|visits| - 1];
      var earlier := KeysWithout(Uses(visits[..|visits| - 1]), v.key);
      if LoadOf(CacheAfter(visits[..|visits| - 1]), v).0.Some? then earlier + [v.key] else earlier
  }

  ghost predicate Suffix(a: seq<Key>, b: seq<Key>) {
    |a| <= |b| && b[|b| - |a|..] == a
  }

  lemma {:induction false} KeysWithoutAbsent(keys: seq<Key>, key: Key)
    requires key !in keys
    ensures KeysWithout(keys, key) == keys
  {
    if keys != [] {
      KeysWithoutAbsent(keys[..|keys| - 1], key);
    }
  }

  lemma {:induction false} KeysWithoutConcat(a: seq<Key>, b: seq<Key>, key: Key)
    ensures KeysWithout(a + b, key) == KeysWithout(a, key) + KeysWithout(b, key)
  {
    if b == [] {
      assert a + b == a;
    } else {
      var front := b[..|b| - 1];
      assert (a + b)[..|a + b| - 1] == a + front;
      KeysWithoutConcat(a, front, key);
    }
  }

  lemma {:induction false} KeysWithoutKeys(keys: seq<Key>, key: Key)
    requires DistinctKeys(keys)
    ensures key !in KeysWithout(keys, key) && DistinctKeys(KeysWithout(keys, key))
    ensures forall k <- KeysWithout(keys, key) :: k in keys
    ensures |KeysWithout(keys, key)| <= |keys|
  {
    if keys != [] {
      var front, last := keys[..|keys| - 1], keys[|keys| - 1];
      assert last !in front && forall k <- front :: k in keys;
      KeysWithoutKeys(front, key);
    }
  }

  lemma OnlyOnce(keys: seq<Key>, k: nat)
    requires DistinctKeys(keys) && k < |keys|
    ensures keys[k] !in keys[..k] && keys[k] !in keys[k + 1..]
  {
  }

  lemma CutMiddle(a: seq<Key>, key: Key, b: seq<Key>)
    requires key !in a && key !in b
    ensures KeysWithout(a + ([key] + b), key) == a + b
  {
    hide KeysWithout;
    KeysWithoutConcat(a, [key] + b, key);
    KeysWithoutConcat([key], b, key);
    KeysWithoutAbsent(a, key);
    KeysWithoutAbsent(b, key);
    OnlyKey(key);
    assert [] + b == b;
  }

  lemma OnlyKey(key: Key)
    ensures KeysWithout([key], key) == []
  {
    assert [key][..0] == [];
  }

  lemma KeysCut(cache: seq<Entry>, k: nat)
    requires k < |cache|
    ensures var a, b := Keys(cache)[..k], Keys(cache)[k + 1..];
            Keys(cache) == a + ([cache[k].key] + b) && Keys(cache[..k] + cache[k + 1..]) == a + b
  {
  }

  lemma WithoutKeys(cache: seq<Entry>, key: Key)
    requires DistinctKeys(Keys(cache))
    ensures Keys(Without(cache, key)) == KeysWithout(Keys(cache), key)
  {
    hide KeysWithout, DistinctKeys;
    match IndexOf(cache, key)
    case None =>
      KeysWithoutAbsent(Keys(cache), key);
    case Some(k) =>
      var a, b := Keys(cache)[..k], Keys(cache)[k + 1..];
      OnlyOnce(Keys(cache), k);
      CutMiddle(a, key, b);
      KeysCut(cache, k);
  }

  /** Keys stay unique, at most eight, and are the most recently used ones in order. */
  lemma {:induction false} RecencyOrder(visits: seq<Visit>)
    ensures DistinctKeys(Keys(CacheAfter(visits))) && |CacheAfter(visits)| <= MAX_ENTRIES
    ensures DistinctKeys(Uses(visits)) && Suffix(Keys(CacheAfter(visits)), Uses(visits))
  {
    if visits != [] {
      var front, v := visits[..|visits| - 1], visits[|visits| - 1];
      RecencyOrder(front);
      RecencyStep(CacheAfter(front), Uses(front), v);
    }
  }

  lemma {:induction false} SuffixWithout(a: seq<Key>, b: seq<Key>, key: Key)
    requires Suffix(a, b)
    ensures Suffix(KeysWithout(a, key), KeysWithout(b, key))
  {
    var gone := b[..|b| - |a|];
    assert b == gone + a;
    KeysWithoutConcat(gone, a, key);
  }

  lemma RecencyStep(cache: seq<Entry>, uses: seq<Key>, v: Visit)
    requires DistinctKeys(Keys(cache)) && |cache| <= MAX_ENTRIES && DistinctKeys(uses) && Suffix(Keys(cache), uses)
    ensures var (r, next) := LoadOf(cache, v);
            var later := if r.Some? then KeysWithout(uses, v.key) + [v.key] else KeysWithout(uses, v.key);
            DistinctKeys(Keys(next)) && |next| <= MAX_ENTRIES && DistinctKeys(later) && Suffix(Keys(next), later)
  {
    hide KeysWithout, Without, IndexOf, Valid, Scanned, Suffix, DistinctKeys;
    var rest, earlier := Without(cache, v.key), KeysWithout(uses, v.key);
    WithoutKeys(cache, v.key);
    KeysWithoutKeys(Keys(cache), v.key);
    KeysWithoutKeys(uses, v.key);
    SuffixWithout(Keys(cache), uses, v.key);
    if Hit(cache, v) {
      var e := cache[IndexOf(cache, v.key).value];
      AddLast(rest, e, earlier);
      OneLess(cache, v.key);
    } else if v.loaded.Some? {
      ScannedKey(v);
      AddLast(rest, Scanned(v), earlier);
      KeepNewest(rest + [Scanned(v)], earlier + [v.key]);
    }
  }

  lemma ScannedKey(v: Visit)
    requires v.loaded.Some?
    ensures Scanned(v).key == v.key
  {
  }

  lemma AddLast(rest: seq<Entry>, e: Entry, earlier: seq<Key>)
    requires Suffix(Keys(rest), earlier) && DistinctKeys(Keys(rest)) && DistinctKeys(earlier)
    requires e.key !in Keys(rest) && e.key !in earlier
    ensures Suffix(Keys(rest + [e]), earlier + [e.key])
    ensures DistinctKeys(Keys(rest + [e])) && DistinctKeys(earlier + [e.key])
  {
    assert Keys(rest + [e]) == Keys(rest) + [e.key];
  }

  lemma KeepNewest(cache: seq<Entry>, uses: seq<Key>)
    requires Suffix(Keys(cache), uses) && DistinctKeys(Keys(cache))
    ensures Suffix(Keys(Newest(cache)), uses) && DistinctKeys(Keys(Newest(cache))) && |Newest(cache)| <= MAX_ENTRIES
  {
    if |cache| > MAX_ENTRIES {
      assert Keys(Newest(cache)) == Keys(cache)[|cache| - MAX_ENTRIES..];
    }
  }

  lemma OneLess(cache: seq<Entry>, key: Key)
    requires IndexOf(cache, key).Some?
    ensures |Without(cache, key)| == |cache| - 1
  {
  }

  // ----- Tracking budgets -----

  function Paths(asked: seq<Stamp>): set<string> {
    set s | s in asked :: s.path
  }

  function DirectoryPaths(asked: seq<Stamp>): set<string> {
    set s | s in asked && s.directory :: s.path
  }

  /** A load that asks for few enough paths keeps the first stamp it took of each. */
  lemma {:induction false} BudgetKeepsFirst(asked: seq<Stamp>, i: nat)
    requires |Paths(asked)| <= MAX_WATCHED_PATHS && |DirectoryPaths(asked)| <= MAX_WATCHED_DIRECTORIES
    requires i < |asked| && forall j | 0 <= j < i :: asked[j].path != asked[i].path
    ensures asked[i] in Tracked(asked)
  {
    var n := |asked| - 1;
    var front := asked[..n];
    FewerPaths(asked);
    TrackedShape(front);
    if i < n {
      BudgetKeepsFirst(front, i);
    } else {
      assert forall s <- front :: exists j :: 0 <= j < n && asked[j] == s;
      assert asked == front + [asked[n]];
      Room(front, asked[n]);
    }
  }

  lemma FewerPaths(asked: seq<Stamp>)
    requires asked != []
    ensures |Paths(asked[..|asked| - 1])| <= |Paths(asked)|
    ensures |DirectoryPaths(asked[..|asked| - 1])| <= |DirectoryPaths(asked)|
  {
    var front := asked[..|asked| - 1];
    assert forall s <- front :: s in asked;
    SubsetCount(Paths(front), Paths(asked));
    SubsetCount(DirectoryPaths(front), DirectoryPaths(asked));
  }

  /** Tracked paths are distinct and were asked for, so there are no more than those. */
  lemma {:induction false} TrackedShape(asked: seq<Stamp>)
    ensures |Tracked(asked)| == |Paths(Tracked(asked))| && Paths(Tracked(asked)) <= Paths(asked)
    ensures Directories(Tracked(asked)) == |DirectoryPaths(Tracked(asked))|
    ensures DirectoryPaths(Tracked(asked)) <= DirectoryPaths(asked)
  {
    hide Tracked, HasRoom, IsTracked, Directories, Paths, DirectoryPaths;
    if asked == [] {
      NothingTracked();
      NoPaths();
    } else {
      var front, s := asked[..|asked| - 1], asked[|asked| - 1];
      TrackedShape(front);
      assert asked == front + [s];
      TrackedOneMore(front, s);
      OneMore(front, s);
      OneMore(Tracked(front), s);
      if Tracked(asked) != Tracked(front) {
        AddPath(Tracked(front), s);
      }
    }
  }

  lemma NoPaths()
    ensures Paths([]) == {} && DirectoryPaths([]) == {} && Directories([]) == 0
  {
  }

  lemma TrackedOneMore(front: seq<Stamp>, s: Stamp)
    ensures Tracked(front + [s]) == Tracked(front)
            || (Tracked(front + [s]) == Tracked(front) + [s] && !IsTracked(Tracked(front), s.path))
  {
    hide HasRoom, IsTracked;
    assert (front + [s])[..|front|] == front;
  }

  lemma AddPath(stamps: seq<Stamp>, s: Stamp)
    requires |stamps| == |Paths(stamps)| && Directories(stamps) == |DirectoryPaths(stamps)|
    requires !IsTracked(stamps, s.path)
    ensures |stamps + [s]| == |Paths(stamps + [s])|
    ensures Directories(stamps + [s]) == |DirectoryPaths(stamps + [s])|
  {
    OneMore(stamps, s);
    assert s.path !in Paths(stamps) && s.path !in DirectoryPaths(stamps);
    hide Paths, DirectoryPaths, Directories;
  }

  lemma OneMore(stamps: seq<Stamp>, s: Stamp)
    ensures Paths(stamps + [s]) == Paths(stamps) + {s.path}
    ensures DirectoryPaths(stamps + [s]) == DirectoryPaths(stamps) + if s.directory then {s.path} else {}
    ensures Directories(stamps + [s]) == Directories(stamps) + if s.directory then 1 else 0
  {
    assert (stamps + [s])[..|stamps|] == stamps;
    assert s in stamps + [s];
    assert forall x <- stamps :: x in stamps + [s];
  }

  lemma Room(front: seq<Stamp>, s: Stamp)
    requires |Paths(front + [s])| <= MAX_WATCHED_PATHS && |DirectoryPaths(front + [s])| <= MAX_WATCHED_DIRECTORIES
    requires s.path !in Paths(front)
    ensures HasRoom(Tracked(front), s) && !IsTracked(Tracked(front), s.path)
  {
    var stamps := Tracked(front);
    TrackedShape(front);
    OneMore(front, s);
    SubsetCount(Paths(stamps), Paths(front + [s]));
    if s.directory {
      assert s.path !in DirectoryPaths(stamps);
      SubsetCount(DirectoryPaths(stamps), DirectoryPaths(front + [s]));
    }
  }

  // ----- Coherence with a changing file system -----

  /** What a path holds: its stamp fields and its content. */
  datatype Source = Source(state: Option<nat>, directory: bool, content: string)

  /** What each path holds at each moment. */
  type History = (nat, string) -> Source

  function StampAt(h: History, path: string, t: nat): Stamp {
    Stamp(path, h(t, path).state, h(t, path).directory)
  }

  /** Every change of a source alters its stamp, and no stamp comes back. */
  ghost predicate StampsNotReused(h: History) {
    forall path: string, a: nat, m: nat, b: nat | a <= m <= b && StampAt(h, path, a) == StampAt(h, path, b)
      :: h(m, path) == h(a, path)
  }

  datatype Action = Read(path: string) | Done(items: Option<seq<string>>)

  /** A loader decides what to read next from what it has read so far. */
  type Plan = seq<Source> -> Action

  datatype Access = Access(path: string, read: nat)

  function Seen(h: History, accesses: seq<Access>): (r: seq<Source>)
    ensures |r| == |accesses| && forall k | 0 <= k < |r| :: r[k] == h(accesses[k].read, accesses[k].path)
  {
    seq(|accesses|, k requires 0 <= k < |accesses| => h(accesses[k].read, accesses[k].path))
  }

  /** A loader may run like this, and end with these items. */
  ghost predicate Loads(h: History, plan: Plan, accesses: seq<Access>, items: Option<seq<string>>) {
    && (forall k | 0 <= k < |accesses| :: plan(Seen(h, accesses)[..k]) == Read(accesses[k].path))
    && plan(Seen(h, accesses)) == Done(items)
  }

  function Instant(accesses: seq<Access>, t: nat): (r: seq<Access>)
    ensures |r| == |accesses| && forall k | 0 <= k < |r| :: r[k] == Access(accesses[k].path, t)
  {
    seq(|accesses|, k requires 0 <= k < |accesses| => Access(accesses[k].path, t))
  }

  /** A load at one moment, as if nothing changed while it reads. */
  ghost predicate FreshLoad(h: History, plan: Plan, t: nat, items: Option<seq<string>>) {
    exists accesses :: accesses == Instant(accesses, t) && Loads(h, plan, accesses, items)
  }

  /** When a visit happened: its validation, its accesses if it loaded, and its end. */
  datatype Moments = Moments(begin: nat, validated: string -> nat, askedAt: seq<nat>, accesses: seq<Access>, end: nat)

  /** Each source read was tracked before, within the budgets. */
  ghost predicate TracksFirst(v: Visit, m: Moments) {
    |m.askedAt| == |v.asked| && forall access <- m.accesses :: KeptBefore(v, m, access)
  }

  ghost predicate KeptBefore(v: Visit, m: Moments, access: Access)
    requires |m.askedAt| == |v.asked|
  {
    exists i | 0 <= i < |v.asked| ::
      v.asked[i].path == access.path && m.askedAt[i] <= access.read && v.asked[i] in Tracked(v.asked)
  }

  /** A loader asks for the stamp of every source before it reads it, one after another. */
  ghost predicate AsksFirst(v: Visit, m: Moments) {
    && |m.askedAt| == |v.asked|
    && (forall i, j | 0 <= i <= j < |v.asked| :: m.askedAt[i] <= m.askedAt[j])
    && forall access <- m.accesses :: exists i | 0 <= i < |v.asked| ::
         v.asked[i].path == access.path && m.askedAt[i] <= access.read
  }

  /** Within the budgets a loader that asks first has the stamp of every source it reads kept. */
  lemma BudgetTracksFirst(v: Visit, m: Moments)
    requires |Paths(v.asked)| <= MAX_WATCHED_PATHS && |DirectoryPaths(v.asked)| <= MAX_WATCHED_DIRECTORIES
    requires AsksFirst(v, m)
    ensures TracksFirst(v, m)
  {
    hide Tracked, Paths, DirectoryPaths;
    forall access <- m.accesses ensures KeptBefore(v, m, access) {
      var i :| 0 <= i < |v.asked| && v.asked[i].path == access.path && m.askedAt[i] <= access.read;
      var first := FirstOfPath(v.asked, i);
      BudgetKeepsFirst(v.asked, first);
      assert m.askedAt[first] <= m.askedAt[i];
    }
  }

  lemma FirstOfPath(asked: seq<Stamp>, i: nat) returns (first: nat)
    requires i < |asked|
    ensures first <= i && asked[first].path == asked[i].path
    ensures forall j | 0 <= j < first :: asked[j].path != asked[first].path
  {
    first := 0;
    while asked[first].path != asked[i].path
      invariant first <= i && forall j | 0 <= j < first :: asked[j].path != asked[i].path
      decreases i - first
    {
      first := first + 1;
    }
  }

  /** Validation read the stamps of the history, between the beginning and the end of the visit. */
  ghost predicate Happened(h: History, v: Visit, m: Moments) {
    && (forall path :: m.begin <= m.validated(path) && v.before(path) == StampAt(h, path, m.validated(path)))
    && m.begin <= m.end
  }

  /** The visit ran its loader, which tracked each source before it read it. */
  ghost predicate Loaded(h: History, plan: Plan, v: Visit, m: Moments) {
    && (forall k | 0 <= k < |m.accesses| :: m.accesses[k].read <= m.end)
    && |m.askedAt| == |v.asked|
    && (forall i | 0 <= i < |v.asked| :: v.asked[i] == StampAt(h, v.asked[i].path, m.askedAt[i]))
    && Loads(h, plan, m.accesses, v.loaded)
    && TracksFirst(v, m)
  }

  /** The items were loaded from sources whose stamps the entry took before. */
  ghost predicate Grounded(h: History, plan: Plan, e: Entry, accesses: seq<Access>, horizon: nat) {
    && Loads(h, plan, accesses, Some(e.items))
    && forall k | 0 <= k < |accesses| ::
         accesses[k].read <= horizon
         && exists a: nat :: a <= accesses[k].read && StampAt(h, accesses[k].path, a) in e.stamps
  }

  /** Sources with unchanged stamps give the same load at the moment of validation. */
  lemma ValidIsFresh(h: History, plan: Plan, e: Entry, accesses: seq<Access>, v: Visit, m: Moments)
    requires StampsNotReused(h)
    requires Grounded(h, plan, e, accesses, m.begin) && Unchanged(e.stamps, v.before)
    requires forall path :: m.begin <= m.validated(path) && v.before(path) == StampAt(h, path, m.validated(path))
    ensures FreshLoad(h, plan, m.begin, Some(e.items))
  {
    var now := Instant(accesses, m.begin);
    forall k | 0 <= k < |accesses| ensures Seen(h, now)[k] == Seen(h, accesses)[k] {
      var path := accesses[k].path;
      var a: nat :| a <= accesses[k].read && StampAt(h, path, a) in e.stamps;
      assert v.before(path) == StampAt(h, path, a);
      assert StampAt(h, path, a) == StampAt(h, path, m.validated(path));
      assert h(accesses[k].read, path) == h(a, path) && h(m.begin, path) == h(a, path);
    }
    assert Seen(h, now) == Seen(h, accesses);
    assert now == Instant(now, m.begin);
    assert Loads(h, plan, now, Some(e.items));
  }

  /** There is only one load at a moment. */
  lemma {:induction false} OneFreshLoad(h: History, plan: Plan, a: seq<Access>, b: seq<Access>, t: nat, k: nat,
                                        x: Option<seq<string>>, y: Option<seq<string>>)
    requires a == Instant(a, t) && b == Instant(b, t) && Loads(h, plan, a, x) && Loads(h, plan, b, y)
    requires k <= |a| && k <= |b| && a[..k] == b[..k]
    ensures x == y
    decreases |a| - k
  {
    assert Seen(h, a)[..k] == Seen(h, a[..k]) && Seen(h, b)[..k] == Seen(h, b[..k]);
    assert Seen(h, a)[..|a|] == Seen(h, a) && Seen(h, b)[..|b|] == Seen(h, b);
    if k < |a| && k < |b| {
      assert a[k] == b[k];
      assert a[..k + 1] == a[..k] + [a[k]] && b[..k + 1] == b[..k] + [b[k]];
      OneFreshLoad(h, plan, a, b, t, k + 1, x, y);
    }
  }

  lemma LoadedIsGrounded(h: History, plan: Plan, v: Visit, m: Moments)
    requires Loaded(h, plan, v, m) && v.loaded.Some?
    ensures Grounded(h, plan, Scanned(v), m.accesses, m.end)
  {
    forall k | 0 <= k < |m.accesses|
      ensures exists a: nat :: a <= m.accesses[k].read && StampAt(h, m.accesses[k].path, a) in Scanned(v).stamps
    {
      assert KeptBefore(v, m, m.accesses[k]);
      var i :| 0 <= i < |v.asked| && v.asked[i].path == m.accesses[k].path && m.askedAt[i] <= m.accesses[k].read
               && v.asked[i] in Tracked(v.asked);
      assert StampAt(h, m.accesses[k].path, m.askedAt[i]) == v.asked[i];
    }
  }

  // ----- Whole runs -----

  /** Visits that happened one after another in one history; those that are no hit loaded. */
  ghost predicate InHistory(h: History, plans: Key -> Plan, visits: seq<Visit>, moments: seq<Moments>) {
    && |moments| == |visits|
    && (forall i | 0 <= i < |visits| :: Happened(h, visits[i], moments[i]))
    && (forall i | 0 <= i < |visits| ::
          Hit(CacheAfter(visits[..i]), visits[i]) || Loaded(h, plans(visits[i].key), visits[i], moments[i]))
    && (forall i, j | 0 <= i < j < |visits| :: moments[i].end <= moments[j].begin)
  }

  /** Every entry was loaded by one of the visits. */
  ghost predicate AllGrounded(h: History, plans: Key -> Plan, cache: seq<Entry>,
                              visits: seq<Visit>, moments: seq<Moments>) {
    forall e <- cache :: GroundedBy(h, plans, e, visits, moments)
  }

  ghost predicate GroundedBy(h: History, plans: Key -> Plan, e: Entry, visits: seq<Visit>, moments: seq<Moments>) {
    exists i :: 0 <= i < |visits| && i < |moments|
      && Grounded(h, plans(e.key), e, moments[i].accesses, moments[i].end)
  }

  lemma LoadOfEntries(cache: seq<Entry>, v: Visit)
    ensures forall e <- LoadOf(cache, v).1 :: e in cache || (!Hit(cache, v) && v.loaded.Some? && e == Scanned(v))
  {
  }

  lemma EarlierVisits(h: History, plans: Key -> Plan, visits: seq<Visit>, moments: seq<Moments>)
    requires InHistory(h, plans, visits, moments) && visits != []
    ensures InHistory(h, plans, visits[..|visits| - 1], moments[..|visits| - 1])
  {
    hide Happened, Loaded, Hit, CacheAfter;
    var n := |visits| - 1;
    forall i | 0 <= i < n
      ensures Hit(CacheAfter(visits[..n][..i]), visits[i]) || Loaded(h, plans(visits[i].key), visits[i], moments[i])
    {
      assert visits[..n][..i] == visits[..i];
    }
  }

  lemma {:induction false} EntriesGrounded(h: History, plans: Key -> Plan, visits: seq<Visit>, moments: seq<Moments>)
    requires InHistory(h, plans, visits, moments)
    ensures AllGrounded(h, plans, CacheAfter(visits), visits, moments)
  {
    hide Grounded, Happened, Loaded, Hit, LoadOf;
    if visits != [] {
      var n := |visits| - 1;
      var cache := CacheAfter(visits[..n]);
      EarlierVisits(h, plans, visits, moments);
      EntriesGrounded(h, plans, visits[..n], moments[..n]);
      LoadOfEntries(cache, visits[n]);
      if !Hit(cache, visits[n]) && visits[n].loaded.Some? {
        LoadedIsGrounded(h, plans(visits[n].key), visits[n], moments[n]);
        ScannedKey(visits[n]);
      }
      forall e | e in CacheAfter(visits) ensures GroundedBy(h, plans, e, visits, moments) {
        if e in cache {
          assert GroundedBy(h, plans, e, visits[..n], moments[..n]);
          var i :| 0 <= i < n && Grounded(h, plans(e.key), e, moments[..n][i].accesses, moments[..n][i].end);
          assert moments[..n][i] == moments[i];
        } else {
          assert e == Scanned(visits[n]);
        }
      }
    }
  }

  /** Every hit of every run is what a fresh load would give at that moment, whatever was written in between. */
  lemma HitsAreFresh(h: History, plans: Key -> Plan, visits: seq<Visit>, moments: seq<Moments>)
    returns (items: seq<string>)
    requires StampsNotReused(h) && InHistory(h, plans, visits, moments) && visits != []
    requires Hit(CacheAfter(visits[..|visits| - 1]), visits[|visits| - 1])
    ensures var n := |visits| - 1;
            && FreshLoad(h, plans(visits[n].key), moments[n].begin, Some(items))
            && LoadOf(CacheAfter(visits[..n]), visits[n]).0 == Some(Limited(items, visits[n].limit))
  {
    hide Loads, FreshLoad, StampsNotReused, Loaded, LoadOf, CacheAfter, Grounded, Hit, Valid, IndexOf;
    var n := |visits| - 1;
    var v, m := visits[n], moments[n];
    var cache := CacheAfter(visits[..n]);
    EarlierVisits(h, plans, visits, moments);
    EntriesGrounded(h, plans, visits[..n], moments[..n]);
    var e := HitReturns(cache, v);
    items := e.items;
    assert GroundedBy(h, plans, e, visits[..n], moments[..n]);
    var i :| 0 <= i < n && Grounded(h, plans(e.key), e, moments[..n][i].accesses, moments[..n][i].end);
    GroundedLater(h, plans(e.key), e, moments[i].accesses, moments[i].end, m.begin);
    ValidIsFresh(h, plans(v.key), e, moments[i].accesses, v, m);
  }

  lemma HitReturns(cache: seq<Entry>, v: Visit) returns (e: Entry)
    requires Hit(cache, v)
    ensures e in cache && e.key == v.key && Unchanged(e.stamps, v.before)
    ensures LoadOf(cache, v).0 == Some(Limited(e.items, v.limit))
  {
    e := cache[IndexOf(cache, v.key).value];
  }

  lemma GroundedLater(h: History, plan: Plan, e: Entry, accesses: seq<Access>, horizon: nat, later: nat)
    requires Grounded(h, plan, e, accesses, horizon) && horizon <= later
    ensures Grounded(h, plan, e, accesses, later)
  {
  }

  /** A load during which a source changed is never used again, with a clock that does not go back. */
  lemma UnstableIsNeverHit(v: Visit, later: Visit)
    requires v.loaded.Some? && later.now >= v.finished
    requires !Unchanged(Tracked(v.asked), v.after)
    ensures !Valid(Scanned(v), later)
  {
  }
}
