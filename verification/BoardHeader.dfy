// The instructions at the top of the whiteboard. A rewrite carries the board's
// own header over, with the entry limit of two older versions brought up to
// date; a board without one gets the template.

module BoardHeader {
  import opened Basics

  const HEADER_START: seq<byte> := Ascii("<!-- context:whiteboard:instructions:v1")
  const HEADER_END: seq<byte> := Ascii("<!-- context:whiteboard:header-end -->")
  const NEWEST_THREE: seq<byte> := Ascii("than the newest three,")
  const NEWEST_FOUR: seq<byte> := Ascii("than the newest four,")
  const NEWEST_SIX: seq<byte> := Ascii("than the newest six,")

  /** Every occurrence of `from`, left to right, becomes `to`. */
  function Replace(s: seq<byte>, from: seq<byte>, to: seq<byte>): seq<byte>
    requires from != []
    decreases |s|
  {
    match Find(s, from)
    case None => s
    case Some(i) => s[..i] + to + Replace(s[i + |from|..], from, to)
  }

  function Upgrade(header: seq<byte>): seq<byte> {
    Replace(Replace(header, NEWEST_THREE, NEWEST_SIX), NEWEST_FOUR, NEWEST_SIX)
  }

  /** The board's own header with its entry limit updated, or the template. */
  function Header(text: seq<byte>, template: seq<byte>): seq<byte> {
    match Find(text, HEADER_START)
    case None => template
    case Some(start) =>
      match Find(text[start..], HEADER_END)
      case None => template
      case Some(end) => Upgrade(text[start..start + end + |HEADER_END|] + [NEWLINE])
  }

  // ----- Replacing -----

  /** A match of `p` never overlaps `t`, whatever stands around `t`. */
  ghost predicate Apart(p: seq<byte>, t: seq<byte>) {
    forall u: seq<byte>, v: seq<byte>, k ::
      MatchAt(u + t + v, p, k) ==> k + |p| <= |u| || k >= |u| + |t|
  }

  lemma FreeParts(s: seq<byte>, p: seq<byte>, i: nat, j: nat)
    requires !Contains(s, p) && i <= j <= |s|
    ensures !Contains(s[i..j], p)
  {
    forall k | 0 <= k <= j - i ensures !MatchAt(s[i..j], p, k) {
      if k + |p| <= j - i {
        MatchInSlice(s, p, i, j, k);
      }
    }
  }

  /** Nothing appears at a seam that the replacement keeps apart. */
  lemma FreeAround(u: seq<byte>, t: seq<byte>, v: seq<byte>, p: seq<byte>)
    requires Apart(p, t) && p != [] && !Contains(u, p) && !Contains(v, p)
    ensures !Contains(u + t + v, p)
  {
    var s := u + t + v;
    forall k | 0 <= k <= |s| ensures !MatchAt(s, p, k) {
      if k + |p| <= |u| {
        assert s == u + (t + v) && !MatchAt(u, p, k);
        MatchInFront(u, t + v, p, k);
      } else if k >= |u| + |t| {
        var x := k - |u| - |t|;
        assert !MatchAt(v, p, x);
        MatchInBack(u + t, v, p, x);
      }
    }
  }

  /** Replacing introduces nothing that stays apart from the replacement. */
  lemma {:induction false} ReplaceKeepsFree(s: seq<byte>, from: seq<byte>, to: seq<byte>, p: seq<byte>)
    requires from != [] && p != [] && Apart(p, to) && !Contains(s, p)
    ensures !Contains(Replace(s, from, to), p)
    decreases |s|
  {
    hide Apart, Contains, Find, Replace;
    var i := Find(s, from);
    ReplaceStep(s, from, to);
    if i.Some? {
      var rest := s[i.value + |from|..];
      FreeParts(s, p, 0, i.value);
      FreeParts(s, p, i.value + |from|, |s|);
      assert s[i.value + |from|..|s|] == rest && s[0..i.value] == s[..i.value];
      ReplaceKeepsFree(rest, from, to, p);
      FreeAround(s[..i.value], to, Replace(rest, from, to), p);
    }
  }

  /** No occurrence is left after replacing. */
  lemma {:induction false} ReplaceRemoves(s: seq<byte>, from: seq<byte>, to: seq<byte>)
    requires from != [] && Apart(from, to)
    ensures !Contains(Replace(s, from, to), from)
    decreases |s|
  {
    hide Apart;
    var i := Find(s, from);
    if i.Some? {
      var u, rest := s[..i.value], s[i.value + |from|..];
      forall k | 0 <= k <= |u| ensures !MatchAt(u, from, k) {
        if k + |from| <= |u| {
          assert s[0..i.value] == u && !MatchAt(s, from, k);
          MatchInSlice(s, from, 0, i.value, k);
        }
      }
      ReplaceRemoves(rest, from, to);
      FreeAround(u, to, Replace(rest, from, to), from);
    }
  }

  lemma ReplaceNothing(s: seq<byte>, from: seq<byte>, to: seq<byte>)
    requires from != [] && !Contains(s, from)
    ensures Replace(s, from, to) == s
  {
  }

  /** No match reaches into such a suffix, so the first one is where it was. */
  lemma FindBefore(s: seq<byte>, z: seq<byte>, p: seq<byte>)
    requires p != [] && z != [] && z[0] !in p && !Contains(z, p)
    ensures Find(s + z, p) == Find(s, p)
  {
    hide Find, Contains;
    forall k: nat | k <= |s + z| ensures MatchAt(s + z, p, k) <==> MatchAt(s, p, k) {
      if k + |p| <= |s| {
        MatchInFront(s, z, p, k);
      } else if k < |s| {
        NoMatchAcross(s, z, p, k);
      } else {
        FreeAt(z, p, k - |s|);
        MatchInBack(s, z, p, k - |s|);
      }
    }
    hide MatchAt;
    if Find(s, p).Some? {
      FindIs(s + z, p, Find(s, p).value);
    }
  }

  lemma FreeAt(s: seq<byte>, p: seq<byte>, k: nat)
    requires !Contains(s, p)
    ensures !MatchAt(s, p, k)
  {
  }

  lemma NoMatchAcross(s: seq<byte>, z: seq<byte>, p: seq<byte>, k: nat)
    requires z != [] && z[0] !in p && k < |s| < k + |p|
    ensures !MatchAt(s + z, p, k)
  {
    assert k + |p| <= |s + z| ==> (s + z)[k..k + |p|][|s| - k] == z[0];
  }

  lemma FindBehind(a: seq<byte>, s: seq<byte>, p: seq<byte>)
    requires forall k | 0 <= k < |a| :: !MatchAt(a + s, p, k)
    ensures Find(a + s, p) == match Find(s, p) case None => None case Some(n) => Some(|a| + n)
  {
    hide Find;
    forall k | |a| <= k ensures MatchAt(a + s, p, k) <==> MatchAt(s, p, k - |a|) {
      MatchInBack(a, s, p, k - |a|);
    }
    hide MatchAt;
    if Find(s, p).Some? {
      FindIs(a + s, p, |a| + Find(s, p).value);
    }
  }

  /** A suffix that no match can reach into stays as it is. */
  lemma {:induction false} ReplaceBefore(s: seq<byte>, z: seq<byte>, from: seq<byte>, to: seq<byte>)
    requires from != [] && z != [] && z[0] !in from && !Contains(z, from)
    ensures Replace(s + z, from, to) == Replace(s, from, to) + z
    decreases |s|
  {
    hide Find, Contains, Replace;
    FindBefore(s, z, from);
    var i := Find(s, from);
    ReplaceStep(s, from, to);
    ReplaceStep(s + z, from, to);
    if i.Some? {
      var u, rest := s[..i.value], s[i.value + |from|..];
      assert (s + z)[..i.value] == u && (s + z)[i.value + |from|..] == rest + z;
      ReplaceBefore(rest, z, from, to);
      assert u + to + (Replace(rest, from, to) + z) == u + to + Replace(rest, from, to) + z;
    }
  }

  lemma ReplaceStep(s: seq<byte>, from: seq<byte>, to: seq<byte>)
    requires from != []
    ensures var i := Find(s, from);
            Replace(s, from, to)
            == if i.None? then s else s[..i.value] + to + Replace(s[i.value + |from|..], from, to)
  {
    hide Find;
  }

  /** A prefix inside which no match begins stays as it is. */
  lemma ReplaceBehind(a: seq<byte>, s: seq<byte>, from: seq<byte>, to: seq<byte>)
    requires from != [] && forall k | 0 <= k < |a| :: !MatchAt(a + s, from, k)
    ensures Replace(a + s, from, to) == a + Replace(s, from, to)
  {
    hide Find, Replace, MatchAt;
    FindBehind(a, s, from);
    ReplaceFirst(s, from, to);
    ReplaceFirst(a + s, from, to);
    if Find(s, from).Some? {
      var n := Find(s, from).value;
      FoundInside(s, from);
      BehindFront(a, s, n, n + |from|);
      Associate(a, s[..n], to, Replace(s[n + |from|..], from, to));
    }
  }

  lemma ReplaceFirst(s: seq<byte>, from: seq<byte>, to: seq<byte>)
    requires from != []
    ensures Replace(s, from, to) == match Find(s, from)
                                    case None => s
                                    case Some(i) => s[..i] + to + Replace(s[i + |from|..], from, to)
  {
  }

  lemma FoundInside(s: seq<byte>, p: seq<byte>)
    requires Find(s, p).Some?
    ensures Find(s, p).value + |p| <= |s|
  {
  }

  lemma BehindFront(a: seq<byte>, s: seq<byte>, i: nat, j: nat)
    requires i <= j <= |s|
    ensures (a + s)[..|a| + i] == a + s[..i] && (a + s)[|a| + j..] == s[j..]
  {
  }

  lemma Associate(a: seq<byte>, b: seq<byte>, c: seq<byte>, d: seq<byte>)
    ensures a + b + c + d == a + (b + c + d)
  {
  }

  // ----- The markers and the limits -----

  /** Bytes that settle every comparison below. */
  lemma StartFacts()
    ensures |HEADER_START| == 39 && HEADER_START[0] == 60 && HEADER_START[24] != 104
    ensures forall k | 0 < k < 39 :: HEADER_START[k] != 60
    ensures forall k | 0 <= k < 39 && HEADER_START[k] == 116 :: k < 38 && HEADER_START[k + 1] != 104
  {
  }

  lemma EndFacts()
    ensures |HEADER_END| == 38 && HEADER_END[0] == 60 && HEADER_END[37] == 62 && HEADER_END[24] == 104
    ensures forall k | 0 <= k < 38 && HEADER_END[k] == 116 :: k < 37 && HEADER_END[k + 1] != 104
    ensures 44 !in HEADER_END
  {
  }

  lemma HeaderFacts()
    ensures |HEADER_START| == 39 && HEADER_START[0] == 60
    ensures forall k | 0 < k < 39 :: HEADER_START[k] != 60
    ensures forall k | 0 <= k < 39 && HEADER_START[k] == 116 :: k < 38 && HEADER_START[k + 1] != 104
    ensures |HEADER_END| == 38 && HEADER_END[0] == 60 && HEADER_END[37] == 62
            && HEADER_END[24] == 104 && HEADER_START[24] != 104
    ensures forall k | 0 <= k < 38 && HEADER_END[k] == 116 :: k < 37 && HEADER_END[k + 1] != 104
    ensures 44 !in HEADER_END && 60 !in NEWEST_SIX && 62 !in NEWEST_SIX
    ensures |NEWEST_SIX| == 20 && NEWEST_SIX[0] == 116 && NEWEST_SIX[19] == 44
  {
    hide HEADER_START, HEADER_END;
    StartFacts();
    EndFacts();
  }

  lemma LimitFacts(limit: seq<byte>)
    requires limit == NEWEST_THREE || limit == NEWEST_FOUR
    ensures |limit| in {21, 22} && limit[0] == 116 && limit[1] == 104 && limit[2] == 97
    ensures limit[|limit| - 1] == 44 && limit[|limit| - 20] != 116
    ensures forall k | 0 <= k < |limit| - 1 :: limit[k] != 44
    ensures 60 !in limit && limit[16] != NEWEST_SIX[16]
  {
  }

  lemma SixFacts()
    ensures forall k | 0 <= k < 19 :: NEWEST_SIX[k] != 44
    ensures forall k | 0 < k < 20 && NEWEST_SIX[k] == 116 :: k in {5, 14}
    ensures NEWEST_SIX[7] == 101 && NEWEST_SIX[15] == 32
  {
  }

  /** The end marker shares no byte run with the new limit. */
  lemma EndApart()
    ensures Apart(HEADER_END, NEWEST_SIX)
  {
    HeaderFacts();
    hide HEADER_END, NEWEST_SIX;
    forall u: seq<byte>, v: seq<byte>, k | MatchAt(u + NEWEST_SIX + v, HEADER_END, k)
      ensures k + |HEADER_END| <= |u| || k >= |u| + |NEWEST_SIX|
    {
      OverlapBytes(HEADER_END, NEWEST_SIX, u, v, k);
    }
  }

  /** Where a match overlaps the middle part, their bytes agree. */
  lemma OverlapBytes(p: seq<byte>, t: seq<byte>, u: seq<byte>, v: seq<byte>, k: int)
    requires MatchAt(u + t + v, p, k)
    ensures forall x | 0 <= x < |p| && 0 <= k - |u| + x < |t| :: p[x] == t[k - |u| + x]
    ensures forall y | 0 <= y < |t| && 0 <= y - (k - |u|) < |p| :: t[y] == p[y - (k - |u|)]
  {
    var s := u + t + v;
    var m := s[k..k + |p|];
    assert forall x | 0 <= x < |p| :: s[k + x] == m[x] == p[x];
    assert forall x | 0 <= x < |t| :: s[|u| + x] == t[x];
  }

  /** Neither old limit overlaps the new one. */
  lemma LimitApart(limit: seq<byte>)
    requires limit == NEWEST_THREE || limit == NEWEST_FOUR
    ensures Apart(limit, NEWEST_SIX)
  {
    HeaderFacts();
    LimitFacts(limit);
    SixFacts();
    var p, t := limit, NEWEST_SIX;
    hide NEWEST_SIX, NEWEST_THREE, NEWEST_FOUR;
    forall u: seq<byte>, v: seq<byte>, k | MatchAt(u + t + v, p, k)
      ensures k + |p| <= |u| || k >= |u| + |t|
    {
      LimitNotOver(p, t, u, v, k);
    }
  }

  lemma LimitNotOver(p: seq<byte>, t: seq<byte>, u: seq<byte>, v: seq<byte>, k: int)
    requires |p| in {21, 22} && p[0] == 116 && p[1] == 104 && p[2] == 97 && p[|p| - 1] == 44 && p[|p| - 20] != 116
    requires forall x | 0 <= x < |p| - 1 :: p[x] != 44
    requires |t| == 20 && t[0] == 116 && t[7] == 101 && t[15] == 32 && t[19] == 44 && p[16] != t[16]
    requires forall x | 0 <= x < 19 :: t[x] != 44
    requires forall x | 0 < x < 20 && t[x] == 116 :: x in {5, 14}
    requires MatchAt(u + t + v, p, k)
    ensures k + |p| <= |u| || k >= |u| + |t|
  {
    OverlapBytes(p, t, u, v, k);
  }

  // ----- Rewriting keeps the header -----

  /** A header as it stands at the top of a written board. */
  ghost predicate OwnHeader(h: seq<byte>) {
    && (exists x :: h == Frame(x) && !Contains(HEADER_START + x + HEADER_END[..37], HEADER_END))
    && !Contains(h, NEWEST_THREE) && !Contains(h, NEWEST_FOUR)
  }

  ghost function Frame(x: seq<byte>): seq<byte> {
    HEADER_START + x + (HEADER_END + [NEWLINE])
  }

  lemma LimitFreeTail(limit: seq<byte>)
    requires limit == NEWEST_THREE || limit == NEWEST_FOUR
    ensures |HEADER_END| == 38
    ensures !Contains(HEADER_END + [NEWLINE], limit) && !Contains(HEADER_END[..37], limit)
  {
    HeaderFacts();
    LimitFacts(limit);
    var z := HEADER_END + [NEWLINE];
    hide HEADER_END, NEWEST_THREE, NEWEST_FOUR;
    forall k | 0 <= k <= |z| ensures !MatchAt(z, limit, k) {
      if k + |limit| <= |z| {
        assert z[k..k + |limit|][0] == z[k] && z[k..k + |limit|][1] == z[k + 1];
      }
    }
    assert z[0..37] == HEADER_END[..37];
    FreeParts(z, limit, 0, 37);
  }

  /** Replacing a limit acts on the instructions between the markers only. */
  lemma ReplaceInFrame(x: seq<byte>, z: seq<byte>, limit: seq<byte>)
    requires limit == NEWEST_THREE || limit == NEWEST_FOUR
    requires z != [] && z[0] == 60 && !Contains(z, limit)
    ensures limit != []
    ensures Replace(HEADER_START + x + z, limit, NEWEST_SIX) == HEADER_START + Replace(x, limit, NEWEST_SIX) + z
  {
    HeaderFacts();
    LimitFacts(limit);
    hide HEADER_START, NEWEST_SIX, NEWEST_THREE, NEWEST_FOUR, Contains;
    var s := HEADER_START + x;
    forall k | 0 <= k < 39 ensures !MatchAt(s, limit, k) {
      if k + |limit| <= |s| {
        assert s[k..k + |limit|][0] == s[k] && s[k..k + |limit|][1] == s[k + 1];
        assert s[k] == HEADER_START[k] && (k < 38 ==> s[k + 1] == HEADER_START[k + 1]);
      }
    }
    ReplaceBefore(s, z, limit, NEWEST_SIX);
    ReplaceBehind(HEADER_START, x, limit, NEWEST_SIX);
  }

  lemma FirstByte()
    ensures |HEADER_END| == 38 && HEADER_END[0] == 60 && HEADER_END[..37][0] == 60
  {
    HeaderFacts();
  }

  lemma ReplaceInHeader(x: seq<byte>, limit: seq<byte>)
    requires limit == NEWEST_THREE || limit == NEWEST_FOUR
    requires |HEADER_END| == 38 && !Contains(HEADER_START + x + HEADER_END[..37], HEADER_END)
    ensures limit != []
    ensures var y := Replace(x, limit, NEWEST_SIX);
            Replace(Frame(x), limit, NEWEST_SIX) == Frame(y)
            && !Contains(HEADER_START + y + HEADER_END[..37], HEADER_END)
            && !Contains(Frame(y), limit)
  {
    FirstByte();
    LimitFreeTail(limit);
    hide HEADER_START, HEADER_END, NEWEST_SIX, NEWEST_THREE, NEWEST_FOUR, Contains, Replace, Apart;
    ReplaceInFrame(x, HEADER_END + [NEWLINE], limit);
    ReplaceInFrame(x, HEADER_END[..37], limit);
    EndApart();
    LimitApart(limit);
    ReplaceKeepsFree(HEADER_START + x + HEADER_END[..37], limit, NEWEST_SIX, HEADER_END);
    ReplaceRemoves(Frame(x), limit, NEWEST_SIX);
  }

  lemma UpgradeIsOwn(x: seq<byte>)
    requires |HEADER_END| == 38 && !Contains(HEADER_START + x + HEADER_END[..37], HEADER_END)
    ensures OwnHeader(Upgrade(Frame(x)))
  {
    hide HEADER_START, HEADER_END, NEWEST_SIX, NEWEST_THREE, NEWEST_FOUR, Contains, Replace, Apart;
    ReplaceInHeader(x, NEWEST_THREE);
    var y := Replace(x, NEWEST_THREE, NEWEST_SIX);
    ReplaceInHeader(y, NEWEST_FOUR);
    LimitApart(NEWEST_THREE);
    assert NEWEST_FOUR != [] && NEWEST_THREE != [];
    ReplaceKeepsFree(Frame(y), NEWEST_FOUR, NEWEST_SIX, NEWEST_THREE);
  }

  /** Two matches in one text agree where they overlap. */
  lemma SharedBytes(t: seq<byte>, p: seq<byte>, i: nat, q: seq<byte>, j: nat)
    requires MatchAt(t, p, i) && MatchAt(t, q, j)
    ensures forall y | 0 <= y < |p| && 0 <= y + i - j < |q| :: p[y] == q[y + i - j]
  {
    var m, n := t[i..i + |p|], t[j..j + |q|];
    assert forall y | 0 <= y < |p| :: p[y] == m[y] == t[i + y];
    assert forall y | 0 <= y < |q| :: q[y] == n[y] == t[j + y];
  }

  lemma MarkersApart(t: seq<byte>, end: nat)
    requires MatchAt(t, HEADER_START, 0) && MatchAt(t, HEADER_END, end)
    ensures |HEADER_START| == 39 && |HEADER_END| == 38 && 39 <= end && end + 38 <= |t|
    ensures t[0..39] == HEADER_START && t[end..end + 38] == HEADER_END
  {
    HeaderFacts();
    hide HEADER_START, HEADER_END;
    SharedBytes(t, HEADER_END, end, HEADER_START, 0);
  }

  /** The region found in a text is framed by its own markers. */
  lemma RegionIsFramed(t: seq<byte>, end: nat)
    requires MatchAt(t, HEADER_START, 0) && Find(t, HEADER_END) == Some(end)
    ensures |HEADER_END| == 38 && 39 <= end && end + 38 <= |t|
    ensures t[..end + |HEADER_END|] + [NEWLINE] == Frame(t[39..end])
    ensures !Contains(HEADER_START + t[39..end] + HEADER_END[..37], HEADER_END)
  {
    hide HEADER_START, HEADER_END, Find, Contains, MatchAt;
    MarkersApart(t, end);
    Sections(t, end);
    EarlierFree(t, HEADER_END, end);
  }

  lemma Sections(t: seq<byte>, end: nat)
    requires 39 <= end && end + 38 <= |t|
    ensures t[0..39] + t[39..end] + t[end..end + 38] == t[..end + 38]
    ensures t[end..end + 38][..37] == t[end..end + 37]
    ensures t[0..39] + t[39..end] + t[end..end + 37] == t[0..end + 37]
  {
  }

  /** Up to the last byte of the first match there is none. */
  lemma EarlierFree(t: seq<byte>, p: seq<byte>, end: nat)
    requires end + |p| <= |t| && p != [] && forall k | 0 <= k < end :: !MatchAt(t, p, k)
    ensures !Contains(t[0..end + |p| - 1], p)
  {
    var n := end + |p| - 1;
    var s := t[0..n];
    forall k | 0 <= k <= n ensures !MatchAt(s, p, k) {
      if k < end {
        MatchInSlice(t, p, 0, n, k);
      }
    }
  }

  lemma HeaderIsOwn(text: seq<byte>, template: seq<byte>)
    requires OwnHeader(template)
    ensures OwnHeader(Header(text, template))
  {
    hide HEADER_START, HEADER_END, OwnHeader, Contains, Upgrade;
    var start := Find(text, HEADER_START);
    if start.Some? {
      var t := text[start.value..];
      var end := Find(t, HEADER_END);
      if end.Some? {
        assert MatchAt(t, HEADER_START, 0) by {
          FoundInside(text, HEADER_START);
          assert t[0..|HEADER_START|] == text[start.value..start.value + |HEADER_START|];
        }
        RegionIsFramed(t, end.value);
        assert text[start.value..start.value + end.value + |HEADER_END|] == t[..end.value + |HEADER_END|];
        UpgradeIsOwn(t[39..end.value]);
      }
    }
  }

  lemma MatchMiddle(a: seq<byte>, p: seq<byte>, z: seq<byte>)
    ensures MatchAt(a + p + z, p, |a|) && (a + p + z)[..|a| + |p|] == a + p
  {
  }

  lemma StartOfFrame(x: seq<byte>, rest: seq<byte>)
    ensures Find(Frame(x) + rest, HEADER_START) == Some(0)
  {
    HeaderFacts();
    hide HEADER_START, HEADER_END, Find;
    assert (Frame(x) + rest)[0..39] == HEADER_START;
    FindIs(Frame(x) + rest, HEADER_START, 0);
  }

  lemma FrameParts(x: seq<byte>, rest: seq<byte>)
    ensures |HEADER_END| == 38 && |HEADER_START| == 39
    ensures Frame(x) + rest == (HEADER_START + x + HEADER_END[..37]) + ([HEADER_END[37], NEWLINE] + rest)
    ensures Frame(x) + rest == HEADER_START + x + HEADER_END + ([NEWLINE] + rest)
    ensures Frame(x) == HEADER_START + x + HEADER_END + [NEWLINE]
  {
    HeaderFacts();
    hide HEADER_START, HEADER_END;
    assert HEADER_END == HEADER_END[..37] + [HEADER_END[37]];
  }

  lemma EndOfFrame(x: seq<byte>, rest: seq<byte>)
    requires |HEADER_END| == 38 && !Contains(HEADER_START + x + HEADER_END[..37], HEADER_END)
    ensures Find(Frame(x) + rest, HEADER_END) == Some(39 + |x|)
    ensures |Frame(x)| == 39 + |x| + 39
    ensures (Frame(x) + rest)[..39 + |x| + 38] + [NEWLINE] == Frame(x)
  {
    hide HEADER_START, HEADER_END, Find, Frame;
    FrameParts(x, rest);
    var text, s := Frame(x) + rest, HEADER_START + x + HEADER_END[..37];
    forall k: nat | k < 39 + |x| ensures !MatchAt(text, HEADER_END, k) {
      MatchInFront(s, [HEADER_END[37], NEWLINE] + rest, HEADER_END, k);
    }
    MatchMiddle(HEADER_START + x, HEADER_END, [NEWLINE] + rest);
    FindIs(text, HEADER_END, 39 + |x|);
  }

  lemma UpToDate(h: seq<byte>)
    requires !Contains(h, NEWEST_THREE) && !Contains(h, NEWEST_FOUR)
    ensures Upgrade(h) == h
  {
    hide NEWEST_THREE, NEWEST_FOUR, NEWEST_SIX;
    LimitsNonEmpty();
    ReplaceNothing(h, NEWEST_THREE, NEWEST_SIX);
    ReplaceNothing(h, NEWEST_FOUR, NEWEST_SIX);
  }

  /** A header already up to date is found again in front of anything. */
  lemma OwnHeaderFound(h: seq<byte>, rest: seq<byte>, template: seq<byte>)
    requires OwnHeader(h)
    ensures Header(h + rest, template) == h
  {
    FrameParts([], rest);
    hide HEADER_START, HEADER_END, NEWEST_SIX, NEWEST_THREE, NEWEST_FOUR, Find, Upgrade, Frame, Contains;
    var x :| h == Frame(x) && !Contains(HEADER_START + x + HEADER_END[..37], HEADER_END);
    StartOfFrame(x, rest);
    EndOfFrame(x, rest);
    assert (h + rest)[0..] == h + rest;
    UpToDate(h);
  }

  /** The entry limit of an older header is brought up to date in place. */
  lemma LimitIsUpdated(a: seq<byte>, limit: seq<byte>, b: seq<byte>)
    requires limit == NEWEST_THREE || limit == NEWEST_FOUR
    requires (forall k | 0 <= k < |a| :: !MatchAt(a + (limit + b), limit, k)) && !Contains(b, limit)
    requires if limit == NEWEST_THREE then !Contains(a + (NEWEST_SIX + b), NEWEST_FOUR)
             else !Contains(a + (limit + b), NEWEST_THREE)
    ensures Upgrade(a + (limit + b)) == a + (NEWEST_SIX + b)
  {
    LimitsNonEmpty();
    hide NEWEST_THREE, NEWEST_FOUR, NEWEST_SIX, Replace, Contains, Find;
    ReplaceOnce(a, limit, b, NEWEST_SIX);
    if limit == NEWEST_THREE {
      ReplaceNothing(a + (NEWEST_SIX + b), NEWEST_FOUR, NEWEST_SIX);
    } else {
      ReplaceNothing(a + (limit + b), NEWEST_THREE, NEWEST_SIX);
    }
  }

  lemma ReplaceOnce(a: seq<byte>, from: seq<byte>, b: seq<byte>, to: seq<byte>)
    requires from != [] && (forall k | 0 <= k < |a| :: !MatchAt(a + (from + b), from, k)) && !Contains(b, from)
    ensures Replace(a + (from + b), from, to) == a + (to + b)
  {
    ReplaceNothing(b, from, to);
    hide Replace, Contains;
    ReplaceBehind(a, from + b, from, to);
    assert (from + b)[0..|from|] == from && (from + b)[|from|..] == b;
    FindIs(from + b, from, 0);
    ReplaceFirst(from + b, from, to);
    assert [] + to + b == to + b;
  }

  lemma LimitsNonEmpty()
    ensures NEWEST_THREE != [] && NEWEST_FOUR != []
  {
  }

  /** Rewriting a board never changes its header again, whatever its entries contain. */
  lemma HeaderStable(text: seq<byte>, template: seq<byte>, rest: seq<byte>)
    requires OwnHeader(template)
    ensures Header(Header(text, template) + rest, template) == Header(text, template)
  {
    hide OwnHeader, Header;
    HeaderIsOwn(text, template);
    OwnHeaderFound(Header(text, template), rest, template);
  }
}
