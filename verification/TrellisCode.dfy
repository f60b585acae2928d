/** The trellis state machines of rate 3/4 and rate 1/2: 49 points, the check that follows them
    and the repair search. */
module TrellisCode {
  import opened Sets

  const POINTS: nat := 49
  const VALID := 999

  const ROW0 := [0, 8, 4, 12, 2, 10, 6, 14]
  const ROW1 := [4, 12, 2, 10, 6, 14, 0, 8]
  const ROW2 := [1, 9, 5, 13, 3, 11, 7, 15]
  const ROW3 := [5, 13, 3, 11, 7, 15, 1, 9]
  const ROW4 := [3, 11, 7, 15, 1, 9, 5, 13]
  const ROW5 := [7, 15, 1, 9, 5, 13, 3, 11]
  const ROW6 := [2, 10, 6, 14, 0, 8, 4, 12]
  const ROW7 := [6, 14, 0, 8, 4, 12, 2, 10]

  const HALF0 := [0, 15, 12, 3]
  const HALF1 := [4, 11, 8, 7]
  const HALF2 := [13, 2, 1, 14]
  const HALF3 := [9, 6, 5, 10]

  /** The number of states, which is also the number of symbols. */
  function Count(half: bool): nat { if half then 4 else 8 }

  function Row(state: nat): seq<int>
    requires state < 8
  {
    match state
    case 0 => ROW0 case 1 => ROW1 case 2 => ROW2 case 3 => ROW3
    case 4 => ROW4 case 5 => ROW5 case 6 => ROW6 case _ => ROW7
  }

  function HalfRow(state: nat): seq<int>
    requires state < 4
  {
    match state
    case 0 => HALF0 case 1 => HALF1 case 2 => HALF2 case _ => HALF3
  }

  /** The point sent for a symbol in a state. */
  function Table(half: bool, state: nat, sym: nat): int
    requires state < Count(half) && sym < Count(half)
  {
    if half then HalfRow(state)[sym] else Row(state)[sym]
  }

  lemma TablePoints(half: bool, state: nat, sym: nat)
    requires state < Count(half) && sym < Count(half)
    ensures 0 <= Table(half, state, sym) < 16
  {}

  /** The three digits of a symbol in reverse. */
  function Reversed(k: nat): nat { 4 * (k % 2) + 2 * (k / 2 % 2) + k / 4 % 2 }

  /** Rate 3/4: every row is the row of state 0 turned by twice the outer digits of the state, and
      the states whose upper digits differ have the odd points. */
  lemma RowsTurn(s: nat, k: nat)
    requires s < 8 && k < 8
    ensures Table(false, s, k) == 2 * Reversed((k + 2 * (s % 2) + 4 * (s / 4)) % 8) + (s / 2 + s / 4) % 2
  {
    hide *;
    match s
    case 0 => Row0At(k); case 1 => Row1At(k); case 2 => Row2At(k); case 3 => Row3At(k);
    case 4 => Row4At(k); case 5 => Row5At(k); case 6 => Row6At(k); case _ => Row7At(k);
  }

  lemma ReversedIs()
    ensures Reversed(0) == 0 && Reversed(1) == 4 && Reversed(2) == 2 && Reversed(3) == 6
    ensures Reversed(4) == 1 && Reversed(5) == 5 && Reversed(6) == 3 && Reversed(7) == 7
  {}

  lemma Row0At(k: nat)
    requires k < 8
    ensures Table(false, 0, k) == 2 * Reversed(k)
  {
    ReversedIs();
    hide Reversed;
  }

  lemma Row1At(k: nat)
    requires k < 8
    ensures Table(false, 1, k) == 2 * Reversed((k + 2) % 8)
  {
    ReversedIs();
    hide Reversed;
  }

  lemma Row2At(k: nat)
    requires k < 8
    ensures Table(false, 2, k) == 2 * Reversed(k) + 1
  {
    ReversedIs();
    hide Reversed;
  }

  lemma Row3At(k: nat)
    requires k < 8
    ensures Table(false, 3, k) == 2 * Reversed((k + 2) % 8) + 1
  {
    ReversedIs();
    hide Reversed;
  }

  lemma Row4At(k: nat)
    requires k < 8
    ensures Table(false, 4, k) == 2 * Reversed((k + 4) % 8) + 1
  {
    ReversedIs();
    hide Reversed;
  }

  lemma Row5At(k: nat)
    requires k < 8
    ensures Table(false, 5, k) == 2 * Reversed((k + 6) % 8) + 1
  {
    ReversedIs();
    hide Reversed;
  }

  lemma Row6At(k: nat)
    requires k < 8
    ensures Table(false, 6, k) == 2 * Reversed((k + 4) % 8)
  {
    ReversedIs();
    hide Reversed;
  }

  lemma Row7At(k: nat)
    requires k < 8
    ensures Table(false, 7, k) == 2 * Reversed((k + 6) % 8)
  {
    ReversedIs();
    hide Reversed;
  }

  /** Rate 1/2: the point is a linear function of the digits of state and symbol. */
  lemma HalfRowsLinear(s: nat, k: nat)
    requires s < 4 && k < 4
    ensures Table(true, s, k) as bv4 == Times(13, s / 2) ^ Times(4, s % 2) ^ Times(12, k / 2) ^ Times(15, k % 2)
  {}

  function Times(v: bv4, n: nat): bv4 { if n == 0 then 0 else v }

  /** In one state different symbols have different points. */
  lemma RowsInjective(half: bool, s: nat, j: nat, k: nat)
    requires s < Count(half) && j < Count(half) && k < Count(half) && j != k
    ensures Table(half, s, j) != Table(half, s, k)
  {}

  /** Different states never send the same point for the same symbol. */
  lemma ColumnsInjective(half: bool, s: nat, t: nat, j: nat)
    requires s < Count(half) && t < Count(half) && j < Count(half) && s != t
    ensures Table(half, s, j) != Table(half, t, j)
  {}

  /** The state before point i: the symbol before it, zero at the start. */
  function StateAt(syms: seq<nat>, i: nat): nat
    requires i <= |syms|
  {
    if i == 0 then 0 else syms[i - 1]
  }

  /** One transition of the machine. */
  ghost predicate Follows(half: bool, points: seq<nat>, syms: seq<nat>, i: nat)
    requires i < |points| && i < |syms|
  {
    && StateAt(syms, i) < Count(half) && syms[i] < Count(half)
    && points[i] == Table(half, StateAt(syms, i), syms[i])
  }

  /** The first n points follow the machine through the first n symbols. */
  ghost predicate IsPath(half: bool, points: seq<nat>, syms: seq<nat>, n: nat)
    requires n <= |points| && n <= |syms|
  {
    forall i :: 0 <= i < n ==> Follows(half, points, syms, i)
  }

  /** All points follow the machine, and the last symbol flushes it. */
  ghost predicate IsCoded(half: bool, points: seq<nat>, syms: seq<nat>) {
    |points| == |syms| == POINTS && IsPath(half, points, syms, POINTS) && syms[POINTS - 1] == 0
  }

  ghost predicate IsCodeword(half: bool, points: seq<nat>) {
    exists syms: seq<nat> :: IsCoded(half, points, syms)
  }

  /** The points determine the symbols. */
  lemma {:induction false} PathUnique(half: bool, a: seq<nat>, s: seq<nat>, b: seq<nat>, t: seq<nat>, n: nat)
    requires n <= |a| && n <= |b| && n <= |s| && n <= |t|
    requires IsPath(half, a, s, n) && IsPath(half, b, t, n) && a[..n] == b[..n]
    ensures s[..n] == t[..n]
  {
    hide Table;
    if n > 0 {
      PathUnique(half, a, s, b, t, n - 1);
      assert s[..n - 1] == t[..n - 1];
      assert Follows(half, a, s, n - 1) && Follows(half, b, t, n - 1);
      assert a[n - 1] == a[..n][n - 1] == b[n - 1];
      assert n > 1 ==> s[n - 2] == s[..n - 1][n - 2] == t[n - 2];
      if s[n - 1] != t[n - 1] { RowsInjective(half, StateAt(s, n - 1), s[n - 1], t[n - 1]); }
      assert s[..n] == s[..n - 1] + [s[n - 1]] && t[..n] == t[..n - 1] + [t[n - 1]];
    }
  }

  /** Once two paths part they never meet again while they send the same points. */
  lemma {:induction false} NeverMerge(half: bool, a: seq<nat>, s: seq<nat>, b: seq<nat>, t: seq<nat>, p: nat, n: nat)
    requires p < n <= |a| && n <= |b| && n <= |s| && n <= |t|
    requires IsPath(half, a, s, n) && IsPath(half, b, t, n)
    requires s[p] != t[p] && forall i :: p < i < n ==> a[i] == b[i]
    ensures s[n - 1] != t[n - 1]
  {
    hide Table;
    if p < n - 1 {
      NeverMerge(half, a, s, b, t, p, n - 1);
      assert Follows(half, a, s, n - 1) && Follows(half, b, t, n - 1);
      if s[n - 1] == t[n - 1] {
        ColumnsInjective(half, s[n - 2], t[n - 2], s[n - 1]);
        assert false;
      }
    }
  }

  /** Changing exactly one point of a code word always leaves the code. */
  lemma SinglePointDetected(half: bool, a: seq<nat>, p: nat, v: nat)
    requires IsCodeword(half, a) && p < POINTS && v != a[p]
    ensures !IsCodeword(half, a[p := v])
  {
    hide Table;
    var b := a[p := v];
    var s: seq<nat> :| IsCoded(half, a, s);
    if IsCodeword(half, b) {
      var t: seq<nat> :| IsCoded(half, b, t);
      PathUnique(half, a, s, b, t, p);
      assert p > 0 ==> s[p - 1] == s[..p][p - 1] == t[p - 1];
      assert Follows(half, a, s, p) && Follows(half, b, t, p);
      NeverMerge(half, a, s, b, t, p, POINTS);
      assert false;
    }
  }

  /** Where the check stops: the state machine cannot send point pos after the symbols before
      it, or all points are fine but the last symbol is not the flush. */
  ghost predicate StopsAt(half: bool, points: seq<nat>, syms: seq<nat>, pos: nat)
    requires |points| == |syms| == POINTS && pos < POINTS
  {
    && IsPath(half, points, syms, pos)
    && ((forall j :: 0 <= j < Count(half) && StateAt(syms, pos) < Count(half) ==>
          points[pos] != Table(half, StateAt(syms, pos), j))
        || (pos == POINTS - 1 && IsPath(half, points, syms, POINTS) && syms[pos] != 0))
  }

  /** trellisCheck: 999 and the symbols for a code word, otherwise where it stops. */
  method Check(points: array<nat>, half: bool, syms: array<nat>) returns (pos: nat)
    requires points.Length == syms.Length == POINTS && points != syms
    modifies syms
    ensures pos == VALID || pos < POINTS
    ensures pos == VALID ==> IsCoded(half, points[..], syms[..])
    ensures pos != VALID ==> StopsAt(half, points[..], syms[..], pos)
  {
    var count := Count(half);
    var state := 0;
    for i := 0 to POINTS
      invariant state == StateAt(syms[..], i) < count
      invariant IsPath(half, points[..], syms[..], i)
    {
      hide Table;
      ghost var was := syms[..];
      syms[i] := 9;
      for j := 0 to count
        invariant syms[..] == was[i := 9] && syms[i] == 9
        invariant forall k :: 0 <= k < j ==> points[i] != Table(half, state, k)
      {
        if points[i] == Table(half, state, j) {
          syms[i] := j;
          break;
        }
      }
      assert forall k :: 0 <= k < POINTS && k != i ==> syms[k] == was[k];
      PathKeeps(half, points[..], was, syms[..], i);
      if syms[i] == 9 {
        return i;
      }
      state := syms[i];
    }
    if syms[POINTS - 1] != 0 {
      return POINTS - 1;
    }
    return VALID;
  }

  lemma PathKeeps(half: bool, points: seq<nat>, s: seq<nat>, t: seq<nat>, n: nat)
    requires n <= |points| && n <= |s| && n <= |t| && IsPath(half, points, s, n) && s[..n] == t[..n]
    ensures IsPath(half, points, t, n) && StateAt(s, n) == StateAt(t, n)
  {
    hide Table;
    forall i | 0 <= i < n ensures Follows(half, points, t, i) && t[i] == s[i] {
      assert Follows(half, points, s, i) && t[i] == t[..n][i] == s[i];
      assert i > 0 ==> t[i - 1] == t[..n][i - 1] == s[i - 1];
    }
  }

  lemma SameState(half: bool, points: seq<nat>, s: seq<nat>, t: seq<nat>, n: nat)
    requires n <= |s| && n <= |t| && n <= |points| && IsPath(half, points, s, n) && IsPath(half, points, t, n)
    ensures StateAt(s, n) == StateAt(t, n)
  {
    PathUnique(half, points, s, points, t, n);
    assert n > 0 ==> s[n - 1] == s[..n][n - 1] == t[..n][n - 1] == t[n - 1];
  }

  /** A check that stops has not seen a code word. */
  lemma StopsMeansNone(half: bool, points: seq<nat>, syms: seq<nat>, pos: nat)
    requires |points| == |syms| == POINTS && pos < POINTS && StopsAt(half, points, syms, pos)
    ensures !IsCodeword(half, points)
  {
    hide Table;
    if IsCodeword(half, points) {
      var t: seq<nat> :| IsCoded(half, points, t);
      SameState(half, points, syms, t, pos);
      assert Follows(half, points, t, pos);
      if IsPath(half, points, syms, POINTS) { SameState(half, points, syms, t, POINTS); }
      assert false;
    }
  }

  /** The words that agree with the points everywhere but at one place. */
  ghost predicate OnePointOff(points: seq<nat>, c: seq<nat>, at: nat)
    requires at < |points|
  {
    |c| == |points| && c == points[at := c[at]]
  }

  lemma CodewordPoint(half: bool, c: seq<nat>, at: nat)
    requires IsCodeword(half, c) && at < POINTS
    ensures |c| == POINTS && c[at] < 16
  {
    var s: seq<nat> :| IsCoded(half, c, s);
    assert Follows(half, c, s, at);
    TablePoints(half, StateAt(s, at), s[at]);
  }

  /** Two code words that differ from the same points at one place are the same word. */
  lemma OnlyOneFits(half: bool, points: seq<nat>, c: seq<nat>, at: nat, i: nat)
    requires |points| == POINTS && at < POINTS && IsCodeword(half, c) && OnePointOff(points, c, at)
    requires IsCodeword(half, points[at := i])
    ensures c == points[at := i]
  {
    if c[at] != i {
      assert c[at := i] == points[at := i];
      SinglePointDetected(half, c, at, i);
      assert false;
    }
  }

  /** The point k at a place makes a code word. */
  ghost predicate FitsWith(half: bool, points: seq<nat>, at: nat, k: nat)
    requires at < |points|
  {
    IsCodeword(half, points[at := k])
  }

  lemma NoneFits(half: bool, points: seq<nat>, at: nat)
    requires |points| == POINTS && at < POINTS && forall k :: 0 <= k < 16 ==> !FitsWith(half, points, at, k)
    ensures forall c :: OnePointOff(points, c, at) ==> !IsCodeword(half, c)
  {
    forall c | OnePointOff(points, c, at) ensures !IsCodeword(half, c) {
      assert IsCodeword(half, c) == FitsWith(half, points, at, c[at]);
      if IsCodeword(half, c) { CodewordPoint(half, c, at); }
    }
  }

  // ---- How far a repair goes ----

  /** The machine follows the first n points. */
  ghost predicate Reach(half: bool, points: seq<nat>, n: nat) {
    |points| == POINTS && exists s: seq<nat> :: |s| == POINTS && n <= POINTS && IsPath(half, points, s, n)
  }

  /** The places at which two words of points differ. */
  function Moved(a: seq<nat>, b: seq<nat>): set<int> {
    set k | 0 <= k < |a| && k < |b| && a[k] != b[k]
  }

  lemma StopReaches(half: bool, points: seq<nat>, syms: seq<nat>, pos: nat)
    requires |points| == |syms| == POINTS && pos < POINTS && StopsAt(half, points, syms, pos)
    ensures Reach(half, points, pos)
  {}

  /** No check stops before the place the machine reaches. */
  lemma StopsLater(half: bool, points: seq<nat>, syms: seq<nat>, pos: nat, n: nat)
    requires |points| == |syms| == POINTS && pos < POINTS && StopsAt(half, points, syms, pos)
    requires Reach(half, points, n)
    ensures n <= POINTS && (n < POINTS ==> n <= pos)
  {
    hide Table;
    var t: seq<nat> :| |t| == POINTS && n <= POINTS && IsPath(half, points, t, n);
    if pos < n < POINTS {
      SameState(half, points, syms, t, pos);
      var follows := Follows(half, points, t, pos);
    }
  }

  /** A point with which the machine goes on from where it is, and at the end flushes. */
  lemma NextPoint(half: bool, points: seq<nat>, n: nat) returns (k: nat)
    requires Reach(half, points, n) && n < POINTS
    ensures k < 16 && Reach(half, points[n := k], n + 1)
    ensures n + 1 == POINTS ==> IsCodeword(half, points[n := k])
  {
    var s: seq<nat> :| |s| == POINTS && IsPath(half, points, s, n);
    assert n > 0 ==> Follows(half, points, s, n - 1);
    TablePoints(half, StateAt(s, n), 0);
    k := Table(half, StateAt(s, n), 0);
    var next, t := points[n := k], s[n := 0];
    hide Table;
    forall i | 0 <= i < n + 1 ensures Follows(half, next, t, i) {
      assert StateAt(t, i) == StateAt(s, i);
      if i < n { assert Follows(half, points, s, i); }
    }
    assert IsPath(half, next, t, n + 1);
    if n + 1 == POINTS { assert IsCoded(half, next, t); }
  }

  lemma ReachOn(half: bool, points: seq<nat>, syms: seq<nat>, pos: nat, n: nat)
    requires |points| == |syms| == POINTS && pos < POINTS && StopsAt(half, points, syms, pos)
    requires n < POINTS && Reach(half, points, n + 1) && (n + 1 == POINTS ==> IsCodeword(half, points))
    ensures n < pos && n + 1 < POINTS
  {
    hide StopsAt, Reach, IsCodeword;
    StopsMeansNone(half, points, syms, pos);
    StopsLater(half, points, syms, pos, n + 1);
  }

  lemma MovedOne(start: seq<nat>, was: seq<nat>, p: nat, v: nat)
    requires |start| == |was| && p < |was|
    ensures |Moved(start, was[p := v])| <= |Moved(start, was)| + 1
  {
    SubsetSize(Moved(start, was[p := v]), Moved(start, was) + {p});
  }

  lemma MovedNone(a: seq<nat>)
    ensures Moved(a, a) == {}
  {}

  /** The rounds of a repair. */
  const ROUNDS: nat := 20

  lemma Numbers()
    ensures ROUNDS == 20 && POINTS == 49
  {}

  /** trellisFix: success always means a code word and its symbols, at most twenty points away;
      when some code word differs from the points only where the check failed it is found. From
      a place the machine reaches every round gets further, so that only a repair that begins
      more than twenty points before the end can fail. */
  method Fix(points: array<nat>, half: bool, failPos0: nat, syms: array<nat>) returns (ok: bool)
    requires points.Length == syms.Length == POINTS && points != syms && failPos0 < POINTS
    modifies points, syms
    ensures ok ==> IsCoded(half, points[..], syms[..])
    ensures |Moved(old(points[..]), points[..])| <= ROUNDS
    ensures forall c :: IsCodeword(half, c) && OnePointOff(old(points[..]), c, failPos0) ==> ok && points[..] == c
    ensures Reach(half, old(points[..]), failPos0) && failPos0 + ROUNDS >= POINTS ==> ok
  {
    hide *;
    Numbers();
    ghost var start := points[..];
    ghost var follows := Reach(half, start, failPos0);
    MovedNone(start);
    var failPos := failPos0;
    for j := 0 to 20
      invariant 0 <= failPos < POINTS
      invariant |Moved(start, points[..])| <= j
      invariant follows ==> failPos0 + j <= failPos && Reach(half, points[..], failPos)
      invariant j == 0 ==> points[..] == start && failPos == failPos0
      invariant j > 0 ==> forall c :: OnePointOff(start, c, failPos0) ==> !IsCodeword(half, c)
    {
      var bestPos, bestVal := 0, 0;
      ghost var was := points[..];
      ghost var good := 0;
      if follows { good := NextPoint(half, was, failPos); }
      for i := 0 to 16
        invariant 0 <= bestPos < POINTS && 0 <= bestVal
        invariant points[..] == was[failPos := points[failPos]]
        invariant bestPos > 0 ==> Reach(half, was[failPos := bestVal], bestPos)
        invariant follows && good < i ==> failPos < bestPos
        invariant j == 0 ==> forall k :: 0 <= k < i ==> !FitsWith(half, start, failPos0, k)
      {
        points[failPos] := i;
        assert points[..] == was[failPos := i];
        var pos := Check(points, half, syms);
        if pos == VALID {
          MovedOne(start, was, failPos, i);
          CodedIsCodeword(half, points[..], syms[..]);
          OnlyFit(half, start, points[..], failPos0, i, j);
          return true;
        }
        StopReaches(half, points[..], syms[..], pos);
        if follows && i == good { ReachOn(half, points[..], syms[..], pos, failPos); }
        if j == 0 { NotFitting(half, start, points[..], syms[..], failPos0, i, pos); }
        if pos > bestPos {
          bestPos := pos;
          bestVal := i;
        }
      }
      if j == 0 {
        NoneFits(half, start, failPos0);
      }
      MovedOne(start, was, failPos, bestVal);
      points[failPos] := bestVal;
      assert points[..] == was[failPos := bestVal];
      failPos := bestPos;
    }
    return false;
  }

  /** The first code word of a repair is the only one that differs from the points where the
      check failed. */
  lemma OnlyFit(half: bool, start: seq<nat>, found: seq<nat>, at: nat, i: nat, j: nat)
    requires |start| == POINTS && at < POINTS && IsCodeword(half, found)
    requires j == 0 ==> found == start[at := i]
    requires j > 0 ==> forall c :: OnePointOff(start, c, at) ==> !IsCodeword(half, c)
    ensures forall c :: IsCodeword(half, c) && OnePointOff(start, c, at) ==> found == c
  {
    hide *;
    forall c | IsCodeword(half, c) && OnePointOff(start, c, at) ensures found == c {
      if j == 0 { OnlyOneFits(half, start, c, at, i); }
    }
  }

  lemma NotFitting(half: bool, start: seq<nat>, points: seq<nat>, syms: seq<nat>, at: nat, i: nat, pos: nat)
    requires |points| == |syms| == |start| == POINTS && at < POINTS && pos < POINTS && StopsAt(half, points, syms, pos)
    requires points == start[at := i]
    ensures !FitsWith(half, start, at, i)
  {
    StopsMeansNone(half, points, syms, pos);
  }

  lemma CodedIsCodeword(half: bool, points: seq<nat>, syms: seq<nat>)
    requires IsCoded(half, points, syms)
    ensures IsCodeword(half, points)
  {}

  /** The check can stop at one place only. */
  lemma StopsOnce(half: bool, points: seq<nat>, s: seq<nat>, p: nat, t: seq<nat>, q: nat)
    requires |points| == |s| == |t| == POINTS && p <= q < POINTS
    requires StopsAt(half, points, s, p) && StopsAt(half, points, t, q)
    ensures p == q
  {
    hide Table;
    if p < q {
      SameState(half, points, s, t, p);
      var follows := Follows(half, points, t, p);
    }
  }

  /** The symbols of a code word are determined. */
  lemma CodedOnce(half: bool, points: seq<nat>, s: seq<nat>, t: seq<nat>)
    requires IsCoded(half, points, s) && IsCoded(half, points, t)
    ensures s == t
  {
    PathUnique(half, points, s, points, t, POINTS);
    assert s == s[..POINTS] && t == t[..POINTS];
  }
}
