// Reading the usage of several accounts with a few workers on a shared queue,
// and the order of account slots: whatever the schedule, the sorted result is
// that of reading one account after the other.

module UsageWorkers {
  import opened Basics

  const MAX_CONCURRENT_READS: nat := 3

  // ----- Slots -----

  predicate IsDigitChar(c: char) {
    '0' <= c <= '9'
  }

  /** A positive decimal number without leading zeros. */
  predicate Canonical(slot: string) {
    slot != "" && slot[0] != '0' && Digits(slot)
  }

  function ValidateSlot(value: string): (r: Option<string>)
    ensures r == if Canonical(TrimSpace(value)) then Some(TrimSpace(value)) else None
  {
    var slot := TrimSpace(value);
    if slot == "" || slot == "0" || !Digits(slot) || (|slot| > 1 && slot[0] == '0') then None
    else Some(slot)
  }

  predicate Digits(s: string) {
    forall c <- s :: IsDigitChar(c)
  }

  function Digit(c: char): nat
    requires IsDigitChar(c)
  {
    c as int - '0' as int
  }

  function Number(slot: string): nat
    requires Digits(slot)
  {
    if slot == "" then 0
    else
      assert slot[|slot| - 1] in slot;
      10 * Number(slot[..|slot| - 1]) + Digit(slot[|slot| - 1])
  }

  /** The slot of a number. */
  function Decimal(n: nat): (s: string)
    ensures s != ""
  {
    (if n < 10 then "" else Decimal(n / 10)) + [('0' as int + n % 10) as char]
  }

  /** Every positive number has its slot, which is accepted. */
  lemma {:induction false} EveryNumberHasASlot(n: nat)
    ensures Digits(Decimal(n)) && Number(Decimal(n)) == n
    ensures n > 0 ==> Canonical(Decimal(n)) && ValidateSlot(Decimal(n)) == Some(Decimal(n))
  {
    hide TrimSpace, Number, ValidateSlot;
    var s, last := Decimal(n), ('0' as int + n % 10) as char;
    if n >= 10 {
      EveryNumberHasASlot(n / 10);
      NumberOfLonger(Decimal(n / 10), last);
      assert s == Decimal(n / 10) + [last] && s[0] == Decimal(n / 10)[0];
    } else {
      NumberOfLonger("", last);
      assert s == "" + [last] == [last];
    }
    hide Decimal;
    DigitsAreTrimmed(s);
  }

  lemma NumberOfLonger(front: string, last: char)
    requires Digits(front) && IsDigitChar(last)
    ensures Digits(front + [last]) && Number(front + [last]) == 10 * Number(front) + Digit(last)
    ensures Number("") == 0
  {
    assert (front + [last])[..|front|] == front;
  }

  lemma DigitsAreTrimmed(s: string)
    requires s != "" && Digits(s)
    ensures TrimSpace(s) == s
  {
    assert s[0] in s && s[|s| - 1] in s;
  }

  datatype Ordering = Less | Equal | Greater

  function Lexicographic(l: string, r: string): Ordering {
    if l == "" && r == "" then Equal
    else if l == "" then Less
    else if r == "" then Greater
    else if l[0] < r[0] then Less
    else if l[0] > r[0] then Greater
    else Lexicographic(l[1..], r[1..])
  }

  /** Shorter slots first, and slots of one length in text order. */
  function CompareSlots(l: string, r: string): Ordering {
    if |l| < |r| then Less else if |l| > |r| then Greater else Lexicographic(l, r)
  }

  lemma DigitsInside(s: string)
    requires s != "" && Digits(s)
    ensures IsDigitChar(s[0]) && IsDigitChar(s[|s| - 1]) && Digits(s[1..]) && Digits(s[..|s| - 1])
  {
  }

  lemma Regroup(d: nat, p: nat, m: nat, e: nat)
    ensures 10 * (d * p + m) + e == d * (10 * p) + (10 * m + e)
  {
  }

  lemma {:induction false} NumberFront(s: string)
    requires s != "" && Digits(s)
    ensures IsDigitChar(s[0]) && Digits(s[1..])
    ensures Number(s) == Digit(s[0]) * Pow10(|s| - 1) + Number(s[1..])
  {
    hide Digits;
    DigitsInside(s);
    var n := |s| - 1;
    if n == 0 {
      assert s[..0] == "" && s[1..] == "" && Number("") == 0;
    } else {
      var front, behind := s[..n], s[1..];
      assert front[1..] == behind[..n - 1] && behind[n - 1] == s[n];
      NumberFront(front);
      DigitsInside(behind);
      hide Number;
      assert Number(behind) == 10 * Number(front[1..]) + Digit(s[n]) by { NumberLast(behind); }
      assert Number(s) == 10 * Number(front) + Digit(s[n]) by { NumberLast(s); }
      Regroup(Digit(s[0]), Pow10(n - 1), Number(front[1..]), Digit(s[n]));
    }
  }

  lemma NumberLast(s: string)
    requires s != "" && Digits(s)
    ensures IsDigitChar(s[|s| - 1]) && Digits(s[..|s| - 1])
    ensures Number(s) == 10 * Number(s[..|s| - 1]) + Digit(s[|s| - 1])
  {
    DigitsInside(s);
  }

  lemma {:induction false} NumberBelow(s: string)
    requires Digits(s)
    ensures Number(s) < Pow10(|s|)
  {
    if s != "" {
      DigitsInside(s);
      NumberBelow(s[..|s| - 1]);
    }
  }

  lemma {:induction false} SameLengthOrder(l: string, r: string)
    requires |l| == |r| && Digits(l) && Digits(r)
    ensures Lexicographic(l, r) == if Number(l) < Number(r) then Less
            else if Number(l) > Number(r) then Greater else Equal
    ensures Lexicographic(l, r) == Equal <==> l == r
    decreases |l|
  {
    if l != "" {
      NumberFront(l);
      NumberFront(r);
      NumberBelow(l[1..]);
      NumberBelow(r[1..]);
      SameLengthOrder(l[1..], r[1..]);
      FirstDigitDecides(Digit(l[0]), Digit(r[0]), Pow10(|l| - 1), Number(l[1..]), Number(r[1..]));
    }
  }

  lemma FirstDigitDecides(a: int, b: int, p: nat, x: nat, y: nat)
    requires x < p && y < p
    ensures a < b ==> a * p + x < b * p + y
    ensures a > b ==> a * p + x > b * p + y
  {
    if a < b {
      assert (a + 1) * p <= b * p;
    } else if a > b {
      assert (b + 1) * p <= a * p;
    }
  }

  lemma {:induction false} NumberAtLeast(s: string)
    requires Canonical(s)
    ensures Number(s) >= Pow10(|s| - 1)
  {
    NumberFront(s);
    hide Number, Pow10, Digits;
    AtLeastOnce(Digit(s[0]), Pow10(|s| - 1));
  }

  lemma AtLeastOnce(d: nat, p: nat)
    requires d >= 1
    ensures d * p >= p
  {
  }

  lemma {:induction false} PowersGrow(m: nat, n: nat)
    requires m <= n
    ensures Pow10(m) <= Pow10(n)
  {
    if m < n {
      PowersGrow(m, n - 1);
    }
  }

  /** On slots the order is that of the numbers, and different slots are different numbers. */
  lemma SlotOrderIsNumeric(l: string, r: string)
    requires Canonical(l) && Canonical(r)
    ensures CompareSlots(l, r)
            == if Number(l) < Number(r) then Less else if Number(l) > Number(r) then Greater else Equal
    ensures l == r <==> Number(l) == Number(r)
  {
    if |l| == |r| {
      SameLengthOrder(l, r);
    } else {
      var (short, long) := if |l| < |r| then (l, r) else (r, l);
      NumberBelow(short);
      NumberAtLeast(long);
      PowersGrow(|short|, |long| - 1);
    }
  }

  // ----- Accounts and their usage -----

  datatype UsageError = Unavailable | SignedOut

  datatype Prepared = Prepared(slot: string, updatedAt: Option<int>, auth: Result<seq<byte>, UsageError>)

  datatype Fetched = Fetched(slot: string, updatedAt: Option<int>, usage: Result<nat, UsageError>)

  /** The read-only request; it depends on the credentials alone. */
  type Fetch = seq<byte> -> Result<nat, UsageError>

  function ReadUsage(fetch: Fetch, p: Prepared): Fetched {
    Fetched(p.slot, p.updatedAt, match p.auth case Err(e) => Err(e) case Ok(bytes) => fetch(bytes))
  }

  /** One account after the other. */
  function ReadAll(fetch: Fetch, accounts: seq<Prepared>): (r: seq<Fetched>)
    ensures |r| == |accounts| && forall i | 0 <= i < |r| :: r[i] == ReadUsage(fetch, accounts[i])
  {
    seq(|accounts|, i requires 0 <= i < |accounts| => ReadUsage(fetch, accounts[i]))
  }

  // ----- Sorting -----

  predicate Sorted(s: seq<Fetched>) {
    forall i, j | 0 <= i < j < |s| :: CompareSlots(s[i].slot, s[j].slot) != Greater
  }

  predicate ProperSlots(s: seq<Fetched>) {
    forall f <- s :: Canonical(f.slot)
  }

  predicate DistinctSlots(s: seq<Fetched>) {
    forall i, j | 0 <= i < j < |s| :: s[i].slot != s[j].slot
  }

  function Insert(f: Fetched, s: seq<Fetched>): (r: seq<Fetched>)
    ensures multiset(r) == multiset(s) + multiset{f}
  {
    if s == [] then [f]
    else if CompareSlots(f.slot, s[0].slot) != Greater then [f] + s
    else
      assert s == [s[0]] + s[1..];
      [s[0]] + Insert(f, s[1..])
  }

  /** The library's sort by slot. */
  function SortBySlot(s: seq<Fetched>): (r: seq<Fetched>)
    ensures multiset(r) == multiset(s)
  {
    if s == [] then []
    else
      assert s == [s[0]] + s[1..];
      Insert(s[0], SortBySlot(s[1..]))
  }

  lemma SameElements(a: seq<Fetched>, b: seq<Fetched>)
    requires multiset(a) == multiset(b)
    ensures |a| == |b| && forall f :: f in a <==> f in b
  {
    assert |a| == |multiset(a)| == |b|;
    forall f ensures f in a <==> f in b {
      assert f in a <==> f in multiset(a);
      assert f in b <==> f in multiset(b);
    }
  }

  lemma {:induction false} InsertSorted(f: Fetched, s: seq<Fetched>)
    requires Sorted(s) && ProperSlots(s) && Canonical(f.slot)
    ensures Sorted(Insert(f, s))
  {
    hide CompareSlots, Canonical;
    if s != [] {
      forall x, y | Canonical(x) && Canonical(y) && CompareSlots(x, y) == Greater
        ensures CompareSlots(y, x) != Greater
      {
        SlotOrderIsNumeric(x, y);
        SlotOrderIsNumeric(y, x);
      }
      if CompareSlots(f.slot, s[0].slot) != Greater {
        forall j | 0 <= j < |s| ensures CompareSlots(f.slot, s[j].slot) != Greater {
          Transitive(f.slot, s[0].slot, s[j].slot);
        }
      } else {
        var rest := Insert(f, s[1..]);
        InsertSorted(f, s[1..]);
        assert multiset(rest) == multiset(s[1..] + [f]);
        SameElements(rest, s[1..] + [f]);
        forall j | 0 <= j < |rest| ensures CompareSlots(s[0].slot, rest[j].slot) != Greater {
          assert rest[j] in s[1..] + [f];
        }
      }
    }
  }

  lemma Transitive(x: string, y: string, z: string)
    requires Canonical(x) && Canonical(y) && Canonical(z)
    requires CompareSlots(x, y) != Greater && (y == z || CompareSlots(y, z) != Greater)
    ensures CompareSlots(x, z) != Greater
  {
    SlotOrderIsNumeric(x, y);
    SlotOrderIsNumeric(y, z);
    SlotOrderIsNumeric(x, z);
  }

  lemma {:induction false} SortIsSorted(s: seq<Fetched>)
    requires ProperSlots(s)
    ensures Sorted(SortBySlot(s))
  {
    if s != [] {
      SortIsSorted(s[1..]);
      SameElements(SortBySlot(s[1..]), s[1..]);
      InsertSorted(s[0], SortBySlot(s[1..]));
    }
  }

  lemma NotBelowHead(s: seq<Fetched>, i: nat)
    requires Sorted(s) && ProperSlots(s) && i < |s|
    ensures Number(s[0].slot) <= Number(s[i].slot)
  {
    assert s[0] in s && s[i] in s;
    if i > 0 {
      SlotOrderIsNumeric(s[0].slot, s[i].slot);
    }
  }

  lemma SameHead(a: seq<Fetched>, b: seq<Fetched>, i: nat, j: nat)
    requires Sorted(a) && Sorted(b) && ProperSlots(a) && ProperSlots(b) && DistinctSlots(a)
    requires i < |a| && j < |b| && a[i] == b[0] && b[j] == a[0]
    ensures a[0] == b[0]
  {
    NotBelowHead(a, i);
    NotBelowHead(b, j);
    SlotOrderIsNumeric(a[0].slot, a[i].slot);
  }

  lemma Rest(s: seq<Fetched>)
    requires s != []
    ensures multiset(s[1..]) == multiset(s) - multiset{s[0]}
  {
    assert s == [s[0]] + s[1..];
  }

  /** With distinct slots there is one sorted order. */
  lemma {:induction false} SortedUnique(a: seq<Fetched>, b: seq<Fetched>)
    requires multiset(a) == multiset(b) && Sorted(a) && Sorted(b) && ProperSlots(a) && DistinctSlots(a)
    ensures a == b
    decreases |a|
  {
    hide Sorted, ProperSlots, DistinctSlots;
    SameElements(a, b);
    if a != [] {
      SameHeads(a, b);
      Rest(a);
      Rest(b);
      TailIsProper(a);
      TailIsProper(b);
      SortedUnique(a[1..], b[1..]);
      assert a == [a[0]] + a[1..] && b == [b[0]] + b[1..];
    }
  }

  lemma SameHeads(a: seq<Fetched>, b: seq<Fetched>)
    requires multiset(a) == multiset(b) && Sorted(a) && Sorted(b) && ProperSlots(a) && DistinctSlots(a) && a != []
    ensures b != [] && a[0] == b[0]
  {
    hide Sorted, DistinctSlots, Canonical;
    SameElements(a, b);
    assert ProperSlots(b) by {
      assert forall f <- b :: f in a;
    }
    hide ProperSlots;
    assert b[0] in b && a[0] in a;
    var i :| 0 <= i < |a| && a[i] == b[0];
    var j :| 0 <= j < |b| && b[j] == a[0];
    SameHead(a, b, i, j);
  }

  lemma TailIsProper(s: seq<Fetched>)
    requires s != []
    ensures Sorted(s) ==> Sorted(s[1..])
    ensures ProperSlots(s) ==> ProperSlots(s[1..])
    ensures DistinctSlots(s) ==> DistinctSlots(s[1..])
  {
    hide CompareSlots, Canonical;
  }

  // ----- Workers on a shared queue -----

  datatype Worker = Running(holding: Option<Prepared>, results: seq<Fetched>) | Finished(results: seq<Fetched>)

  datatype Pool = Pool(queue: seq<Prepared>, workers: seq<Worker>)

  function Idle(count: nat): seq<Worker> {
    seq(count, _ => Running(None, []))
  }

  function Begin(accounts: seq<Prepared>): Pool {
    Pool(accounts, Idle(Min(|accounts|, MAX_CONCURRENT_READS)))
  }

  /** The next action of one worker: take from the queue, or read and keep the result. */
  function Act(fetch: Fetch, p: Pool, w: nat): Pool {
    if w >= |p.workers| then p
    else match p.workers[w]
      case Finished(_) => p
      case Running(None, results) =>
        if p.queue == [] then p.(workers := p.workers[w := Finished(results)])
        else Pool(p.queue[1..], p.workers[w := Running(Some(p.queue[0]), results)])
      case Running(Some(account), results) =>
        p.(workers := p.workers[w := Running(None, results + [ReadUsage(fetch, account)])])
  }

  function RunPool(fetch: Fetch, p: Pool, schedule: seq<nat>): Pool
    decreases |schedule|
  {
    if schedule == [] then p else RunPool(fetch, Act(fetch, p, schedule[0]), schedule[1..])
  }

  predicate AllFinished(p: Pool) {
    forall w <- p.workers :: w.Finished?
  }

  /** The results in the order the workers are joined. */
  function Results(workers: seq<Worker>): seq<Fetched> {
    if workers == [] then [] else Results(workers[..|workers| - 1]) + workers[|workers| - 1].results
  }

  /** What a worker has read, and will have read of what it holds. */
  function Owed(fetch: Fetch, w: Worker): multiset<Fetched> {
    multiset(w.results)
    + if w.Running? && w.holding.Some? then multiset{ReadUsage(fetch, w.holding.value)} else multiset{}
  }

  function AllOwed(fetch: Fetch, workers: seq<Worker>): multiset<Fetched> {
    if workers == [] then multiset{}
    else AllOwed(fetch, workers[..|workers| - 1]) + Owed(fetch, workers[|workers| - 1])
  }

  function Outcome(fetch: Fetch, p: Pool): multiset<Fetched> {
    multiset(ReadAll(fetch, p.queue)) + AllOwed(fetch, p.workers)
  }

  lemma {:induction false} OwedUpdate(fetch: Fetch, workers: seq<Worker>, w: nat, x: Worker)
    requires w < |workers|
    ensures AllOwed(fetch, workers[w := x]) + Owed(fetch, workers[w]) == AllOwed(fetch, workers) + Owed(fetch, x)
  {
    hide Owed;
    var n := |workers| - 1;
    var next := workers[w := x];
    if w < n {
      OwedUpdate(fetch, workers[..n], w, x);
      assert next[..n] == workers[..n][w := x] && next[n] == workers[n];
      Swapped(AllOwed(fetch, next[..n]), AllOwed(fetch, workers[..n]), Owed(fetch, workers[w]),
              Owed(fetch, x), Owed(fetch, workers[n]));
    } else {
      assert next[..n] == workers[..n] && next[n] == x;
    }
  }

  lemma Swapped(a: multiset<Fetched>, b: multiset<Fetched>, m: multiset<Fetched>,
                x: multiset<Fetched>, l: multiset<Fetched>)
    requires a + m == b + x
    ensures a + l + m == b + l + x
  {
    forall e ensures (a + l + m)[e] == (b + l + x)[e] {
      assert (a + m)[e] == (b + x)[e];
    }
  }

  lemma TakeOne(fetch: Fetch, queue: seq<Prepared>)
    requires queue != []
    ensures multiset(ReadAll(fetch, queue))
            == multiset{ReadUsage(fetch, queue[0])} + multiset(ReadAll(fetch, queue[1..]))
  {
    assert ReadAll(fetch, queue) == [ReadUsage(fetch, queue[0])] + ReadAll(fetch, queue[1..]);
  }

  /** No action loses an account or reads one twice. */
  lemma ActKeeps(fetch: Fetch, p: Pool, w: nat)
    ensures Outcome(fetch, Act(fetch, p, w)) == Outcome(fetch, p)
    ensures |Act(fetch, p, w).workers| == |p.workers|
  {
    hide AllOwed, ReadAll, ReadUsage;
    if w < |p.workers| && p.workers[w].Running? {
      var before := p.workers[w];
      var next := Act(fetch, p, w);
      OwedUpdate(fetch, p.workers, w, next.workers[w]);
      if before.holding.None? && p.queue != [] {
        TakeOne(fetch, p.queue);
        Handed(multiset(ReadAll(fetch, p.queue)), multiset(ReadAll(fetch, p.queue[1..])), AllOwed(fetch, p.workers),
               AllOwed(fetch, next.workers), multiset{ReadUsage(fetch, p.queue[0])},
               Owed(fetch, before), Owed(fetch, next.workers[w]));
      } else {
        assert Owed(fetch, next.workers[w]) == Owed(fetch, before);
        Handed(multiset{}, multiset{}, AllOwed(fetch, p.workers), AllOwed(fetch, next.workers), multiset{},
               Owed(fetch, before), Owed(fetch, before));
        assert multiset{} + AllOwed(fetch, next.workers) == AllOwed(fetch, next.workers);
      }
    }
  }

  lemma Handed(queue: multiset<Fetched>, later: multiset<Fetched>, owed: multiset<Fetched>, owes: multiset<Fetched>,
               one: multiset<Fetched>, before: multiset<Fetched>, after: multiset<Fetched>)
    requires queue == one + later && owes + before == owed + after && after == before + one
    ensures later + owes == queue + owed
  {
    forall x ensures (later + owes)[x] == (queue + owed)[x] {
      assert (owes + before)[x] == (owed + after)[x];
    }
  }

  lemma {:induction false} RunKeeps(fetch: Fetch, p: Pool, schedule: seq<nat>)
    ensures Outcome(fetch, RunPool(fetch, p, schedule)) == Outcome(fetch, p)
    ensures |RunPool(fetch, p, schedule).workers| == |p.workers|
    decreases |schedule|
  {
    hide Outcome, Act;
    if schedule != [] {
      ActKeeps(fetch, p, schedule[0]);
      RunKeeps(fetch, Act(fetch, p, schedule[0]), schedule[1..]);
    }
  }

  lemma {:induction false} FinishedOwes(fetch: Fetch, workers: seq<Worker>)
    requires forall w <- workers :: w.Finished?
    ensures AllOwed(fetch, workers) == multiset(Results(workers))
  {
    if workers != [] {
      var front, last := workers[..|workers| - 1], workers[|workers| - 1];
      assert last in workers && forall w <- front :: w in workers;
      FinishedOwes(fetch, front);
      assert Owed(fetch, last) == multiset(last.results);
    }
  }

  lemma {:induction false} IdleOwes(fetch: Fetch, count: nat)
    ensures AllOwed(fetch, Idle(count)) == multiset{}
  {
    if count > 0 {
      IdleOwes(fetch, count - 1);
      assert Idle(count)[..count - 1] == Idle(count - 1);
    }
  }

  /** Workers stop only when the queue is empty. */
  ghost predicate QueueDrained(p: Pool) {
    (forall w <- p.workers :: w.Running?) || p.queue == []
  }

  lemma {:induction false} StopsOnlyWhenEmpty(fetch: Fetch, p: Pool, schedule: seq<nat>)
    requires QueueDrained(p)
    ensures QueueDrained(RunPool(fetch, p, schedule))
    decreases |schedule|
  {
    if schedule != [] {
      var next := Act(fetch, p, schedule[0]);
      assert QueueDrained(next);
      StopsOnlyWhenEmpty(fetch, next, schedule[1..]);
    }
  }

  /** Once all workers are joined, every account was read exactly once, whatever the schedule. */
  lemma EachReadOnce(fetch: Fetch, accounts: seq<Prepared>, schedule: seq<nat>)
    requires AllFinished(RunPool(fetch, Begin(accounts), schedule))
    ensures multiset(Results(RunPool(fetch, Begin(accounts), schedule).workers)) == multiset(ReadAll(fetch, accounts))
  {
    hide RunPool, AllOwed, ReadAll, Results;
    var start := Begin(accounts);
    var end := RunPool(fetch, start, schedule);
    RunKeeps(fetch, start, schedule);
    IdleOwes(fetch, Min(|accounts|, MAX_CONCURRENT_READS));
    FinishedOwes(fetch, end.workers);
    StopsOnlyWhenEmpty(fetch, start, schedule);
    if end.workers != [] {
      assert end.workers[0] in end.workers;
    } else {
      NothingToDo(fetch, schedule);
    }
    assert end.queue == [];
    NothingRead(fetch);
    assert multiset(ReadAll(fetch, accounts)) + multiset{} == multiset(ReadAll(fetch, accounts));
    assert multiset{} + multiset(Results(end.workers)) == multiset(Results(end.workers));
  }

  lemma NothingRead(fetch: Fetch)
    ensures ReadAll(fetch, []) == []
  {
  }

  lemma {:induction false} NothingToDo(fetch: Fetch, schedule: seq<nat>)
    ensures RunPool(fetch, Pool([], []), schedule) == Pool([], [])
    decreases |schedule|
  {
    if schedule != [] {
      NothingToDo(fetch, schedule[1..]);
    }
  }

  /** The sorted outcome is that of one account after the other, whatever the schedule. */
  lemma ScheduleDoesNotMatter(fetch: Fetch, accounts: seq<Prepared>, schedule: seq<nat>)
    requires AllFinished(RunPool(fetch, Begin(accounts), schedule))
    requires ProperSlots(ReadAll(fetch, accounts)) && DistinctSlots(ReadAll(fetch, accounts))
    ensures var outcome := SortBySlot(Results(RunPool(fetch, Begin(accounts), schedule).workers));
            outcome == SortBySlot(ReadAll(fetch, accounts))
            && (Sorted(ReadAll(fetch, accounts)) ==> outcome == ReadAll(fetch, accounts))
  {
    hide RunPool, Results, SortBySlot;
    var results, wanted := Results(RunPool(fetch, Begin(accounts), schedule).workers), ReadAll(fetch, accounts);
    EachReadOnce(fetch, accounts, schedule);
    SameElements(results, wanted);
    SortIsSorted(results);
    SortIsSorted(wanted);
    SortKeepsSlots(wanted);
    SortKeepsProper(wanted);
    hide ReadAll, Sorted, ProperSlots, DistinctSlots;
    SortedUnique(SortBySlot(wanted), SortBySlot(results));
    if Sorted(wanted) {
      SortedUnique(wanted, SortBySlot(results));
    }
  }

  predicate HasSlot(s: seq<Fetched>, slot: string) {
    exists f <- s :: f.slot == slot
  }

  lemma DistinctFirst(f: Fetched, s: seq<Fetched>)
    ensures DistinctSlots([f] + s) <==> DistinctSlots(s) && !HasSlot(s, f.slot)
    ensures forall slot :: HasSlot([f] + s, slot) <==> slot == f.slot || HasSlot(s, slot)
  {
    var all := [f] + s;
    assert all[0] == f && all[1..] == s;
    if DistinctSlots(all) {
      assert forall i | 0 <= i < |s| :: s[i] == all[i + 1];
    }
    forall slot | HasSlot(s, slot) ensures HasSlot(all, slot) {
      var x :| x in s && x.slot == slot;
      assert x in all;
    }
    assert f in all;
  }

  lemma {:induction false} InsertKeepsSlots(f: Fetched, s: seq<Fetched>)
    ensures DistinctSlots(Insert(f, s)) <==> DistinctSlots(s) && !HasSlot(s, f.slot)
    ensures forall slot :: HasSlot(Insert(f, s), slot) <==> slot == f.slot || HasSlot(s, slot)
  {
    hide CompareSlots, DistinctSlots, HasSlot;
    if s == [] {
      DistinctFirst(f, []);
      assert [f] + [] == [f];
    } else {
      assert s == [s[0]] + s[1..];
      DistinctFirst(f, s);
      DistinctFirst(s[0], s[1..]);
      DistinctFirst(s[0], Insert(f, s[1..]));
      InsertKeepsSlots(f, s[1..]);
    }
  }

  lemma {:induction false} SortKeepsSlots(s: seq<Fetched>)
    ensures DistinctSlots(SortBySlot(s)) <==> DistinctSlots(s)
    ensures forall slot :: HasSlot(SortBySlot(s), slot) <==> HasSlot(s, slot)
  {
    hide DistinctSlots, HasSlot, Insert;
    if s != [] {
      SortKeepsSlots(s[1..]);
      InsertKeepsSlots(s[0], SortBySlot(s[1..]));
      DistinctFirst(s[0], s[1..]);
      assert s == [s[0]] + s[1..];
    }
  }

  lemma SortKeepsProper(s: seq<Fetched>)
    requires ProperSlots(s)
    ensures ProperSlots(SortBySlot(s))
  {
    SameElements(s, SortBySlot(s));
  }

  // ----- Every schedule comes to an end -----

  function Left(w: Worker): nat {
    if w.Finished? then 0 else if w.holding.Some? then 2 else 1
  }

  function AllLeft(workers: seq<Worker>): nat {
    if workers == [] then 0 else AllLeft(workers[..|workers| - 1]) + Left(workers[|workers| - 1])
  }

  function Remaining(p: Pool): nat {
    2 * |p.queue| + AllLeft(p.workers)
  }

  lemma {:induction false} LeftUpdate(workers: seq<Worker>, w: nat, x: Worker)
    requires w < |workers|
    ensures AllLeft(workers[w := x]) + Left(workers[w]) == AllLeft(workers) + Left(x)
  {
    var n := |workers| - 1;
    if w < n {
      LeftUpdate(workers[..n], w, x);
      assert workers[w := x][..n] == workers[..n][w := x];
    } else {
      assert workers[w := x][..n] == workers[..n];
    }
  }

  /** Each action of a running worker brings the end closer. */
  lemma ActHelps(fetch: Fetch, p: Pool, w: nat)
    requires w < |p.workers| && p.workers[w].Running?
    ensures Remaining(Act(fetch, p, w)) == Remaining(p) - 1
  {
    hide AllLeft;
    LeftUpdate(p.workers, w, Act(fetch, p, w).workers[w]);
  }

  /** The scoped threads: some running worker acts until all are finished, and the results are sorted. */
  method ReadUsages(fetch: Fetch, accounts: seq<Prepared>) returns (results: seq<Fetched>, ghost schedule: seq<nat>)
    ensures AllFinished(RunPool(fetch, Begin(accounts), schedule))
    ensures results == SortBySlot(Results(RunPool(fetch, Begin(accounts), schedule).workers))
    ensures multiset(results) == multiset(ReadAll(fetch, accounts))
  {
    hide Act, Remaining, RunPool, SortBySlot, ReadAll, Results;
    var pool := Begin(accounts);
    schedule := [];
    RunNothing(fetch, pool);
    while exists w :: 0 <= w < |pool.workers| && pool.workers[w].Running?
      invariant pool == RunPool(fetch, Begin(accounts), schedule)
      decreases Remaining(pool)
    {
      var w :| 0 <= w < |pool.workers| && pool.workers[w].Running?;
      ActHelps(fetch, pool, w);
      RunLast(fetch, Begin(accounts), schedule, w);
      pool := Act(fetch, pool, w);
      schedule := schedule + [w];
    }
    EachReadOnce(fetch, accounts, schedule);
    results := SortBySlot(Results(pool.workers));
  }

  lemma RunNothing(fetch: Fetch, p: Pool)
    ensures RunPool(fetch, p, []) == p
  {
  }

  lemma {:induction false} RunLast(fetch: Fetch, p: Pool, schedule: seq<nat>, w: nat)
    ensures RunPool(fetch, p, schedule + [w]) == Act(fetch, RunPool(fetch, p, schedule), w)
    decreases |schedule|
  {
    hide Act;
    if schedule == [] {
      assert ([] + [w])[1..] == [];
    } else {
      assert (schedule + [w])[0] == schedule[0] && (schedule + [w])[1..] == schedule[1..] + [w];
      RunLast(fetch, Act(fetch, p, schedule[0]), schedule[1..], w);
    }
  }
}
