// When the cache of recent sessions answers without loading, and when it must
// load: a stable load serves the visits of the next thirty seconds as long as
// its sources stay as they were and fewer than eight other keys are visited.

module CacheHits {
  import opened Basics
  import opened RecentCache

  /** A visit of the key that an entry answers: it is recent, and its sources carry the stamps taken for it. */
  predicate Answers(e: Entry, v: Visit) {
    e.key == v.key && v.now - e.scanned < 30 && forall s <- e.stamps :: v.before(s.path) == s
  }

  /** A visit that loads and finds its sources afterwards as they were before it read them. */
  predicate LoadsWell(v: Visit) {
    v.loaded.Some? && forall s <- Tracked(v.asked) :: v.after(s.path) == s
  }

  /** How many entries stand behind this one. */
  ghost predicate Behind(cache: seq<Entry>, e: Entry, n: nat) {
    exists i | 0 <= i < |cache| :: cache[i] == e && |cache| - 1 - i <= n
  }

  lemma WithoutMoves(cache: seq<Entry>, e: Entry, key: Key, n: nat)
    requires Behind(cache, e, n) && e.key != key
    ensures Behind(Without(cache, key), e, n)
  {
    var i :| 0 <= i < |cache| && cache[i] == e && |cache| - 1 - i <= n;
    match IndexOf(cache, key)
    case None =>
    case Some(k) =>
      var rest := cache[..k] + cache[k + 1..];
      assert rest[if i < k then i else i - 1] == e;
  }

  lemma AddedMoves(cache: seq<Entry>, e: Entry, last: Entry, n: nat)
    requires Behind(cache, e, n) && n < 7 && |cache| <= 8
    ensures Behind(cache + [last], e, n + 1) && Behind(Newest(cache + [last]), e, n + 1)
  {
    var i :| 0 <= i < |cache| && cache[i] == e && |cache| - 1 - i <= n;
    var all := cache + [last];
    assert all[i] == e;
    if |all| > 8 {
      assert Newest(all)[i - 1] == e;
    }
  }

  /** A visit of another key moves an entry by one place at most. */
  lemma OtherVisitMoves(cache: seq<Entry>, e: Entry, v: Visit, n: nat)
    requires Behind(cache, e, n) && e.key != v.key && n < 7 && |cache| <= 8
    ensures Behind(LoadOf(cache, v).1, e, n + 1)
  {
    hide Behind, Without, IndexOf, Newest, Scanned, Valid;
    WithoutMoves(cache, e, v.key, n);
    var rest := Without(cache, v.key);
    WithoutShorter(cache, v.key);
    if Hit(cache, v) {
      AddedMoves(rest, e, cache[IndexOf(cache, v.key).value], n);
    } else if v.loaded.Some? {
      AddedMoves(rest, e, Scanned(v), n);
    } else {
      BehindMore(rest, e, n);
    }
  }

  lemma BehindMore(cache: seq<Entry>, e: Entry, n: nat)
    requires Behind(cache, e, n)
    ensures Behind(cache, e, n + 1)
  {
  }

  lemma WithoutShorter(cache: seq<Entry>, key: Key)
    ensures |Without(cache, key)| <= |cache|
  {
  }

  /** An entry just used stays through visits of other keys, as long as there are fewer than eight of them. */
  lemma {:induction false} EntryStays(before: seq<Visit>, later: seq<Visit>, e: Entry)
    requires Behind(CacheAfter(before), e, 0) && |later| < 8
    requires forall v <- later :: v.key != e.key
    ensures Behind(CacheAfter(before + later), e, |later|)
  {
    hide Behind, LoadOf, CacheAfter;
    if later == [] {
      assert before + later == before;
    } else {
      var front, last := later[..|later| - 1], later[|later| - 1];
      assert forall v <- front :: v in later;
      assert last in later;
      EntryStays(before, front, e);
      RecencyOrder(before + front);
      OtherVisitMoves(CacheAfter(before + front), e, last, |front|);
      AfterOneMore(before + front, last);
      assert before + later == before + front + [last];
    }
  }

  lemma AfterOneMore(visits: seq<Visit>, v: Visit)
    ensures CacheAfter(visits + [v]) == LoadOf(CacheAfter(visits), v).1
  {
    assert (visits + [v])[..|visits|] == visits;
  }

  /** The entry of a key is found, because there is only one. */
  lemma FoundByKey(cache: seq<Entry>, e: Entry, n: nat)
    requires Behind(cache, e, n) && DistinctKeys(Keys(cache))
    ensures IndexOf(cache, e.key).Some? && cache[IndexOf(cache, e.key).value] == e
  {
    var i :| 0 <= i < |cache| && cache[i] == e && |cache| - 1 - i <= n;
    assert cache[i] in cache;
    var k := IndexOf(cache, e.key);
    assert Keys(cache)[k.value] == Keys(cache)[i];
  }

  lemma LoadedLast(cache: seq<Entry>, v: Visit)
    requires !Hit(cache, v) && v.loaded.Some?
    ensures Behind(LoadOf(cache, v).1, Scanned(v), 0)
  {
    hide Without, IndexOf, Scanned, Hit;
    var all := Without(cache, v.key) + [Scanned(v)];
    assert Newest(all)[|Newest(all)| - 1] == Scanned(v);
  }

  /**
   * A load serves later visits of its key: what it found is returned again, for
   * thirty seconds and while its sources do not change, if its sources did not
   * change while it read and fewer than eight other visits came between.
   */
  lemma LoadServesLaterVisits(before: seq<Visit>, v: Visit, later: seq<Visit>, w: Visit)
    requires !Hit(CacheAfter(before), v) && LoadsWell(v)
    requires |later| < 8 && forall u <- later :: u.key != v.key
    requires w.key == v.key && w.now - v.finished < 30 && forall s <- Tracked(v.asked) :: w.before(s.path) == s
    ensures var cache := CacheAfter(before + [v] + later);
            Hit(cache, w) && LoadOf(cache, w).0 == Some(Limited(v.loaded.value, w.limit))
  {
    hide CacheAfter, Hit, Tracked, Without, Behind, IndexOf;
    var e := Scanned(v);
    assert e.key == v.key && e.scanned == v.finished && e.stamps == Tracked(v.asked) && e.items == v.loaded.value;
    LoadedLast(CacheAfter(before), v);
    AfterOneMore(before, v);
    EntryStays(before + [v], later, e);
    var cache := CacheAfter(before + [v] + later);
    RecencyOrder(before + [v] + later);
    FoundByKey(cache, e, |later|);
    AnswersIsHit(cache, e, w);
  }

  lemma AnswersIsHit(cache: seq<Entry>, e: Entry, w: Visit)
    requires IndexOf(cache, e.key).Some? && cache[IndexOf(cache, e.key).value] == e && Answers(e, w)
    ensures Hit(cache, w) && LoadOf(cache, w).0 == Some(Limited(e.items, w.limit))
  {
    hide IndexOf, Without;
  }

  /** Without an entry that answers it, a visit returns what its own load finds, or fails with it. */
  lemma OtherwiseItLoads(cache: seq<Entry>, v: Visit)
    requires forall e <- cache :: !Answers(e, v)
    ensures LoadOf(cache, v).0 == (if v.loaded.None? then None else Some(Limited(v.loaded.value, v.limit)))
    ensures v.loaded.None? ==> forall e <- LoadOf(cache, v).1 :: e in cache
  {
    hide Without, Scanned, Newest;
    if Hit(cache, v) {
      HitAnswers(cache, v);
    }
    WithoutOnly(cache, v.key);
  }

  lemma HitAnswers(cache: seq<Entry>, v: Visit)
    requires Hit(cache, v)
    ensures exists e <- cache :: Answers(e, v)
  {
    assert Answers(cache[IndexOf(cache, v.key).value], v);
  }

  lemma WithoutOnly(cache: seq<Entry>, key: Key)
    ensures forall e <- Without(cache, key) :: e in cache
  {
  }

  /** At most as many items as asked for, and those the first ones. */
  lemma FirstItems(items: seq<string>, limit: nat)
    ensures Limited(items, limit) <= items && |Limited(items, limit)| == Min(limit, |items|)
  {
  }

  /** Whatever a loader asks for, no more than 256 paths and 64 directories are watched, each once. */
  lemma {:induction false} BudgetsHold(asked: seq<Stamp>)
    ensures |Tracked(asked)| <= 256 && Directories(Tracked(asked)) <= 64
    ensures forall i, j | 0 <= i < j < |Tracked(asked)| :: Tracked(asked)[i].path != Tracked(asked)[j].path
  {
    if asked != [] {
      var front, s := asked[..|asked| - 1], asked[|asked| - 1];
      BudgetsHold(front);
      assert Tracked(asked) != Tracked(front) ==> (Tracked(front) + [s])[..|Tracked(front)|] == Tracked(front);
    }
  }
}
