// Splitting texts, of bytes or of characters, at a separator such as a line break.

module LineSplitting {
  import opened Basics

  /** The pieces between separators; the last one is unterminated, and often empty. */
  function Split<T(==)>(s: seq<T>, sep: T): (r: seq<seq<T>>)
    ensures |r| > 0
    decreases |s|
  {
    match Find(s, [sep])
    case None => [s]
    case Some(i) => [s[..i]] + Split(s[i + 1..], sep)
  }

  /** Position just after the last separator, or zero. */
  function AfterLast<T(==)>(s: seq<T>, sep: T): (r: nat)
    ensures r <= |s|
    ensures r > 0 ==> s[r - 1] == sep
    ensures forall i | r <= i < |s| :: s[i] != sep
  {
    if s == [] then 0
    else if s[|s| - 1] == sep then |s|
    else AfterLast(s[..|s| - 1], sep)
  }

  lemma AfterLastIs<T>(s: seq<T>, sep: T, k: nat)
    requires k <= |s| && (k > 0 ==> s[k - 1] == sep)
    requires forall i | k <= i < |s| :: s[i] != sep
    ensures AfterLast(s, sep) == k
  {
  }

  /** Nothing is left over behind the last separator. */
  predicate Complete<T(==)>(s: seq<T>, sep: T) {
    s == [] || s[|s| - 1] == sep
  }

  lemma MatchesSeparator<T>(s: seq<T>, sep: T, i: nat)
    ensures MatchAt(s, [sep], i) <==> i < |s| && s[i] == sep
  {
    if i < |s| {
      assert s[i..i + 1] == [s[i]];
    }
  }

  lemma FirstSeparator<T>(s: seq<T>, sep: T, i: nat)
    requires i < |s| && s[i] == sep && forall j | 0 <= j < i :: s[j] != sep
    ensures Find(s, [sep]) == Some(i)
    ensures Split(s, sep) == [s[..i]] + Split(s[i + 1..], sep)
  {
    forall j | 0 <= j < i ensures !MatchAt(s, [sep], j) {
      MatchesSeparator(s, sep, j);
    }
    MatchesSeparator(s, sep, i);
    FindIs(s, [sep], i);
  }

  lemma NoSeparator<T>(s: seq<T>, sep: T)
    requires forall j | 0 <= j < |s| :: s[j] != sep
    ensures Find(s, [sep]) == None
    ensures Split(s, sep) == [s]
  {
    forall j: nat ensures !MatchAt(s, [sep], j) {
      MatchesSeparator(s, sep, j);
    }
  }

  /** The position of the first separator of a text that has one. */
  function FirstIn<T(==)>(s: seq<T>, sep: T): (i: nat)
    requires sep in s
    ensures i < |s| && s[i] == sep && forall j | 0 <= j < i :: s[j] != sep
  {
    if s[0] == sep then 0 else 1 + FirstIn(s[1..], sep)
  }

  /** Text after a complete part is split on its own. */
  lemma {:induction false} SplitAfterComplete<T>(a: seq<T>, b: seq<T>, sep: T)
    requires Complete(a, sep)
    ensures var front := Split(a, sep)[..|Split(a, sep)| - 1];
            Split(a, sep)[|Split(a, sep)| - 1] == [] && Split(a + b, sep) == front + Split(b, sep)
    decreases |a|
  {
    hide Split;
    if a == [] {
      NoSeparator(a, sep);
      assert a + b == b;
    } else {
      var i := FirstIn(a, sep);
      var rest := a[i + 1..];
      FirstSeparator(a, sep, i);
      assert (a + b)[..i] == a[..i] && (a + b)[i + 1..] == rest + b;
      FirstSeparator(a + b, sep, i);
      SplitAfterComplete(rest, b, sep);
      var n := |Split(rest, sep)|;
      assert Split(a, sep)[..n] == [a[..i]] + Split(rest, sep)[..n - 1];
    }
  }
}
