/** The 196 bits of a trellis coded burst: interleaving, the DMR gap, and the payload. */
module TrellisBurst {
  import opened Bits
  import opened TrellisCode

  const DIBITS: nat := 98

  function Quarter0(i: nat): nat
    requires i < 26
  {
    match i
    case 0 => 0 case 1 => 1 case 2 => 8 case 3 => 9 case 4 => 16 case 5 => 17 case 6 => 24 case 7 => 25 case 8 => 32
    case 9 => 33 case 10 => 40 case 11 => 41 case 12 => 48 case 13 => 49 case 14 => 56 case 15 => 57 case 16 => 64
    case 17 => 65
    case 18 => 72 case 19 => 73 case 20 => 80 case 21 => 81 case 22 => 88 case 23 => 89 case 24 => 96 case _ => 97
  }

  function Quarter1(i: nat): nat
    requires i < 24
  {
    match i
    case 0 => 2 case 1 => 3 case 2 => 10 case 3 => 11 case 4 => 18 case 5 => 19 case 6 => 26 case 7 => 27 case 8 => 34
    case 9 => 35 case 10 => 42 case 11 => 43 case 12 => 50 case 13 => 51 case 14 => 58 case 15 => 59 case 16 => 66
    case 17 => 67
    case 18 => 74 case 19 => 75 case 20 => 82 case 21 => 83 case 22 => 90 case _ => 91
  }

  function Quarter2(i: nat): nat
    requires i < 24
  {
    match i
    case 0 => 4 case 1 => 5 case 2 => 12 case 3 => 13 case 4 => 20 case 5 => 21 case 6 => 28 case 7 => 29 case 8 => 36
    case 9 => 37 case 10 => 44 case 11 => 45 case 12 => 52 case 13 => 53 case 14 => 60 case 15 => 61 case 16 => 68
    case 17 => 69
    case 18 => 76 case 19 => 77 case 20 => 84 case 21 => 85 case 22 => 92 case _ => 93
  }

  function Quarter3(i: nat): nat
    requires i < 24
  {
    match i
    case 0 => 6 case 1 => 7 case 2 => 14 case 3 => 15 case 4 => 22 case 5 => 23 case 6 => 30 case 7 => 31 case 8 => 38
    case 9 => 39 case 10 => 46 case 11 => 47 case 12 => 54 case 13 => 55 case 14 => 62 case 15 => 63 case 16 => 70
    case 17 => 71
    case 18 => 78 case 19 => 79 case 20 => 86 case 21 => 87 case 22 => 94 case _ => 95
  }

  /** The dibit sent in place i: the interleave table, row by row. */
  function Interleave(i: nat): nat
    requires i < DIBITS
  {
    if i < 26 then Quarter0(i) else if i < 50 then Quarter1(i - 26)
    else if i < 74 then Quarter2(i - 50) else Quarter3(i - 74)
  }

  function Start(c: nat): nat { if c == 0 then 0 else 2 + 24 * c }

  predicate Splits(c: nat, q: nat, r: nat) { c < 4 && r < 2 && q < if c == 0 then 13 else 12 }

  /** Each row of the table sends every fourth pair of dibits. */
  lemma Quarters01(q: nat, r: nat)
    requires r < 2
    ensures q < 13 ==> Quarter0(2 * q + r) == 8 * q + r
    ensures q < 12 ==> Quarter1(2 * q + r) == 8 * q + 2 + r
  {}

  lemma Quarters23(q: nat, r: nat)
    requires r < 2
    ensures q < 12 ==> Quarter2(2 * q + r) == 8 * q + 4 + r
    ensures q < 12 ==> Quarter3(2 * q + r) == 8 * q + 6 + r
  {}

  /** The place dibit m is sent in: the inverse of the table. */
  function Place(m: nat): nat { Start(m % 8 / 2) + 2 * (m / 8) + m % 8 % 2 }

  lemma Eighths(q: nat, k: nat)
    requires k < 8
    ensures (8 * q + k) / 8 == q && (8 * q + k) % 8 == k
  {}

  lemma PlaceAt(c: nat, q: nat, r: nat)
    requires c < 4 && r < 2
    ensures Place(8 * q + 2 * c + r) == Start(c) + 2 * q + r
  {
    hide Start;
    var k := 2 * c + r;
    Eighths(q, k);
    assert 8 * q + 2 * c + r == 8 * q + k;
  }

  lemma InverseAt(c: nat, q: nat, r: nat)
    requires Splits(c, q, r)
    ensures var i, m := Start(c) + 2 * q + r, 8 * q + 2 * c + r;
      i < DIBITS && m < DIBITS && Interleave(i) == m && Place(m) == i
  {
    hide Quarter0, Quarter1, Quarter2, Quarter3, Place;
    PlaceAt(c, q, r);
    Quarters01(q, r);
    Quarters23(q, r);
  }

  lemma InterleavePlace(i: nat)
    requires i < DIBITS
    ensures Interleave(i) < DIBITS && Place(Interleave(i)) == i
  {
    hide Interleave, Place;
    var c := if i < 26 then 0 else if i < 50 then 1 else if i < 74 then 2 else 3;
    var k := i - Start(c);
    assert k == 2 * (k / 2) + k % 2;
    InverseAt(c, k / 2, k % 2);
  }

  lemma PlaceInterleave(m: nat)
    requires m < DIBITS
    ensures Place(m) < DIBITS && Interleave(Place(m)) == m
  {
    hide Interleave, Place;
    var k := m % 8;
    assert m == 8 * (m / 8) + 2 * (k / 2) + k % 2;
    InverseAt(k / 2, m / 8, k % 2);
  }

  // ---- Dibits and points ----

  const FIRST := [1, -1, 3, -3, -3, 3, -1, 1, -3, 3, -1, 1, 1, -1, 3, -3]
  const SECOND := [-1, -1, -3, -3, -1, -1, -3, -3, 3, 3, 1, 1, 3, 3, 1, 1]

  predicate IsLevel(d: int) { d == 3 || d == 1 || d == -1 || d == -3 }

  /** The level of two received bits. */
  function Level(b1: bool, b2: bool): (d: int)
    ensures IsLevel(d)
  {
    if !b1 && b2 then 3 else if !b1 && !b2 then 1 else if b1 && !b2 then -1 else -3
  }

  /** The first bit is the sign of the level and the second its size. */
  lemma LevelBits(b1: bool, b2: bool)
    ensures Level(b1, b2) == (if b1 then -1 else 1) * (if b2 then 3 else 1)
  {}

  /** Binary digit k of a point. */
  predicate Digit(p: nat, k: nat)
    requires k < 4
  {
    match k
    case 0 => p % 2 == 1 case 1 => p / 2 % 2 == 1 case 2 => p / 4 % 2 == 1 case _ => p / 8 % 2 == 1
  }

  /** The two level tables: sizes and signs are parities of the point's digits. */
  lemma LevelTables(p: nat)
    requires p < 16
    ensures FIRST[p] < 0 <==> (Digit(p, 0) != Digit(p, 2)) != Digit(p, 3)
    ensures FIRST[p] == 3 || FIRST[p] == -3 <==> (Digit(p, 1) != Digit(p, 2)) != Digit(p, 3)
    ensures SECOND[p] > 0 <==> Digit(p, 3)
    ensures SECOND[p] == 3 || SECOND[p] == -3 <==> Digit(p, 1) != Digit(p, 3)
    ensures IsLevel(FIRST[p]) && IsLevel(SECOND[p])
  {
    match p
    case 0 => case 1 => case 2 => case 3 => case 4 => case 5 => case 6 => case 7 =>
    case 8 => case 9 => case 10 => case 11 => case 12 => case 13 => case 14 => case _ => assert p == 15;
  }

  /** The point the two levels make. */
  predicate Makes(d0: int, d1: int, p: nat) { p < 16 && FIRST[p] == d0 && SECOND[p] == d1 }

  lemma PointOfLevels(d0: int, d1: int)
    requires IsLevel(d0) && IsLevel(d1)
    ensures exists p: nat :: Makes(d0, d1, p)
  {
    assert Makes(1, -1, 0) && Makes(-1, -1, 1) && Makes(3, -3, 2) && Makes(-3, -3, 3);
    assert Makes(-3, -1, 4) && Makes(3, -1, 5) && Makes(-1, -3, 6) && Makes(1, -3, 7);
    assert Makes(-3, 3, 8) && Makes(3, 3, 9) && Makes(-1, 1, 10) && Makes(1, 1, 11);
    assert Makes(1, 3, 12) && Makes(-1, 3, 13) && Makes(3, 1, 14) && Makes(-3, 1, 15);
  }

  lemma PointLevels(p: nat)
    requires p < 16
    ensures IsLevel(FIRST[p]) && IsLevel(SECOND[p])
  {}

  lemma MakesOne(d0: int, d1: int, p: nat, q: nat)
    requires Makes(d0, d1, p) && Makes(d0, d1, q)
    ensures p == q
  {}

  /** trellisBitPos: DMR skips the 68 bits in the middle of the burst. */
  function BitPos(n: nat, dmr: bool): nat { if dmr && n >= 98 then n + 68 else n }

  function BurstBits(dmr: bool): nat { if dmr then 264 else 196 }

  /** The bits of the burst that belong to the code. */
  predicate CodeBit(n: nat, dmr: bool) { n < BurstBits(dmr) && !(dmr && 98 <= n < 166) }

  /** The bits of the code are the places BitPos gives, in order: it is increasing and gives each of
      them, and nothing else. */
  lemma BitPosOrder(dmr: bool)
    ensures forall m, n :: 0 <= m < n < 196 ==> BitPos(m, dmr) < BitPos(n, dmr)
    ensures forall n :: 0 <= n < 196 ==> CodeBit(BitPos(n, dmr), dmr)
    ensures forall k: nat | CodeBit(k, dmr) :: exists n: nat :: n < 196 && BitPos(n, dmr) == k
  {
    forall k: nat | CodeBit(k, dmr) ensures exists n: nat :: n < 196 && BitPos(n, dmr) == k {
      assert BitPos(if dmr && k >= 166 then k - 68 else k, dmr) == k;
    }
  }

  /** The level sent in place i. */
  function DibitSent(d: seq<bv8>, dmr: bool, i: nat): int
    requires BurstBits(dmr) <= 8 * |d| && i < DIBITS
  {
    Level(BitAt(d, BitPos(2 * i, dmr)), BitAt(d, BitPos(2 * i + 1, dmr)))
  }

  /** The burst carries the points: each is made of its two dibits, wherever they were sent. */
  ghost predicate Carries(d: seq<bv8>, dmr: bool, points: seq<nat>)
    requires BurstBits(dmr) <= 8 * |d|
  {
    |points| == POINTS && forall i :: 0 <= i < POINTS ==> CarriesAt(d, dmr, points, i)
  }

  ghost predicate CarriesAt(d: seq<bv8>, dmr: bool, points: seq<nat>, i: nat)
    requires BurstBits(dmr) <= 8 * |d| && i < POINTS == |points|
  {
    && Place(2 * i) < DIBITS && Place(2 * i + 1) < DIBITS
    && Makes(DibitSent(d, dmr, Place(2 * i)), DibitSent(d, dmr, Place(2 * i + 1)), points[i])
  }

  lemma CarriesOne(d: seq<bv8>, dmr: bool, a: seq<nat>, b: seq<nat>)
    requires BurstBits(dmr) <= 8 * |d| && Carries(d, dmr, a) && Carries(d, dmr, b)
    ensures a == b
  {
    hide Makes, Place, DibitSent;
    forall i | 0 <= i < POINTS ensures a[i] == b[i] {
      assert CarriesAt(d, dmr, a, i) && CarriesAt(d, dmr, b, i);
      MakesOne(DibitSent(d, dmr, Place(2 * i)), DibitSent(d, dmr, Place(2 * i + 1)), a[i], b[i]);
    }
  }

  /** The dibits as they come out of the interleaver. */
  ghost predicate Read(d: seq<bv8>, dmr: bool, dibits: seq<int>, n: nat)
    requires BurstBits(dmr) <= 8 * |d| && |dibits| == DIBITS && n <= DIBITS
  {
    forall k :: 0 <= k < n ==> ReadAt(d, dmr, dibits, k)
  }

  ghost predicate ReadAt(d: seq<bv8>, dmr: bool, dibits: seq<int>, k: nat)
    requires BurstBits(dmr) <= 8 * |d| && |dibits| == DIBITS && k < DIBITS
  {
    Interleave(k) < DIBITS && dibits[Interleave(k)] == DibitSent(d, dmr, k)
  }

  lemma ReadStep(d: seq<bv8>, dmr: bool, dibits: seq<int>, i: nat)
    requires BurstBits(dmr) <= 8 * |d| && |dibits| == DIBITS && i < DIBITS && Read(d, dmr, dibits, i)
    ensures Interleave(i) < DIBITS && Read(d, dmr, dibits[Interleave(i) := DibitSent(d, dmr, i)], i + 1)
  {
    hide Interleave, Place, DibitSent;
    InterleavePlace(i);
    var next := dibits[Interleave(i) := DibitSent(d, dmr, i)];
    forall k | 0 <= k < i + 1 ensures ReadAt(d, dmr, next, k) {
      InterleavePlace(k);
      if k < i { assert ReadAt(d, dmr, dibits, k); }
    }
  }

  /** The dibit at m is the one sent in its place. */
  lemma ReadPlace(d: seq<bv8>, dmr: bool, dibits: seq<int>, m: nat)
    requires BurstBits(dmr) <= 8 * |d| && |dibits| == DIBITS && m < DIBITS && Read(d, dmr, dibits, DIBITS)
    ensures Place(m) < DIBITS && dibits[m] == DibitSent(d, dmr, Place(m)) && IsLevel(dibits[m])
  {
    PlaceInterleave(m);
    hide Interleave, Place;
    assert ReadAt(d, dmr, dibits, Place(m));
  }

  /** trellisDeinterleave: every pair of dibits is a point. */
  method Deinterleave(data: array<bv8>, dmr: bool, points: array<nat>)
    requires BurstBits(dmr) <= 8 * data.Length && points.Length == POINTS && points as object != data
    modifies points
    ensures Carries(data[..], dmr, points[..])
  {
    hide Interleave, Place, BitAt, Makes, Read;
    var dibits := new int[DIBITS](_ => 0);
    ghost var d := data[..];
    ReadNothing(d, dmr, dibits[..]);
    for i := 0 to DIBITS
      invariant Read(d, dmr, dibits[..], i)
    {
      ReadStep(d, dmr, dibits[..], i);
      dibits[Interleave(i)] := Level(BitAt(data[..], BitPos(2 * i, dmr)), BitAt(data[..], BitPos(2 * i + 1, dmr)));
    }
    ghost var levels := dibits[..];
    for i := 0 to POINTS
      invariant data[..] == d && dibits[..] == levels
      invariant forall k :: 0 <= k < i ==> CarriesAt(d, dmr, points[..], k)
    {
      ghost var was := points[..];
      var d0, d1 := dibits[2 * i], dibits[2 * i + 1];
      ReadPlace(d, dmr, levels, 2 * i);
      ReadPlace(d, dmr, levels, 2 * i + 1);
      PointOfLevels(d0, d1);
      ghost var point: nat :| Makes(d0, d1, point);
      MakesIs(d0, d1, point);
      points[i] := 255;
      for p := 0 to 16
        invariant data[..] == d && dibits[..] == levels && points[..] == was[i := 255]
        invariant forall q :: 0 <= q < p ==> !Makes(d0, d1, q)
      {
        MakesIs(d0, d1, p);
        if d0 == FIRST[p] && d1 == SECOND[p] {
          points[i] := p;
          break;
        }
      }
      assert points[..] == was[i := points[i]];
      CarriesStep(d, dmr, was, points[..], i, d0, d1);
    }
  }

  lemma ReadNothing(d: seq<bv8>, dmr: bool, dibits: seq<int>)
    requires BurstBits(dmr) <= 8 * |d| && |dibits| == DIBITS
    ensures Read(d, dmr, dibits, 0)
  {}

  lemma MakesIs(d0: int, d1: int, p: nat)
    ensures Makes(d0, d1, p) ==> p < 16
    ensures p < 16 ==> (Makes(d0, d1, p) <==> FIRST[p] == d0 && SECOND[p] == d1)
  {}

  lemma CarriesStep(d: seq<bv8>, dmr: bool, was: seq<nat>, points: seq<nat>, i: nat, d0: int, d1: int)
    requires BurstBits(dmr) <= 8 * |d| && i < POINTS == |was| == |points| && points == was[i := points[i]]
    requires forall k :: 0 <= k < i ==> CarriesAt(d, dmr, was, k)
    requires Place(2 * i) < DIBITS && Place(2 * i + 1) < DIBITS
    requires d0 == DibitSent(d, dmr, Place(2 * i)) && d1 == DibitSent(d, dmr, Place(2 * i + 1))
    requires Makes(d0, d1, points[i])
    ensures forall k :: 0 <= k < i + 1 ==> CarriesAt(d, dmr, points, k)
  {
    hide Place, Makes, DibitSent;
    forall k | 0 <= k < i + 1 ensures CarriesAt(d, dmr, points, k) {
      if k < i { assert CarriesAt(d, dmr, was, k); }
    }
  }

  // ---- Writing the burst ----

  /** Only bits of the code differ. */
  ghost predicate OnlyCode(d: seq<bv8>, e: seq<bv8>, dmr: bool) {
    |d| == |e| && forall n :: 0 <= n < 8 * |d| && !CodeBit(n, dmr) ==> BitAt(d, n) == BitAt(e, n)
  }

  /** The two bits of a level. */
  method WriteDibit(data: array<bv8>, dmr: bool, i: nat, level: int)
    requires BurstBits(dmr) <= 8 * data.Length && i < DIBITS && IsLevel(level)
    modifies data
    ensures DibitSent(data[..], dmr, i) == level
    ensures forall k :: 0 <= k < i ==> DibitSent(data[..], dmr, k) == DibitSent(old(data[..]), dmr, k)
    ensures OnlyCode(data[..], old(data[..]), dmr)
  {
    hide BitAt;
    var b1, b2 := true, true;
    if level == 3 { b1, b2 := false, true; }
    else if level == 1 { b1, b2 := false, false; }
    else if level == -1 { b1, b2 := true, false; }
    var n1, n2 := BitPos(2 * i, dmr), BitPos(2 * i + 1, dmr);
    WriteBit(data, n1, b1);
    WriteBit(data, n2, b2);
  }

  lemma OnlyCodeJoins(d: seq<bv8>, e: seq<bv8>, f: seq<bv8>, dmr: bool)
    requires OnlyCode(e, d, dmr) && OnlyCode(f, e, dmr)
    ensures OnlyCode(f, d, dmr)
  {}

  lemma ReadKeeps(d: seq<bv8>, e: seq<bv8>, dmr: bool, dibits: seq<int>, i: nat)
    requires BurstBits(dmr) <= 8 * |d| && |e| == |d| && |dibits| == DIBITS && i < DIBITS && Read(d, dmr, dibits, i)
    requires forall k :: 0 <= k < i ==> DibitSent(e, dmr, k) == DibitSent(d, dmr, k)
    requires Interleave(i) < DIBITS && DibitSent(e, dmr, i) == dibits[Interleave(i)]
    ensures Read(e, dmr, dibits, i + 1)
  {
    hide Interleave, DibitSent;
    forall k | 0 <= k < i + 1 ensures ReadAt(e, dmr, dibits, k) {
      if k < i { assert ReadAt(d, dmr, dibits, k); }
    }
  }

  /** The dibits of the points, in order. */
  ghost predicate Spread(points: seq<nat>, dibits: seq<int>, n: nat)
    requires |dibits| == DIBITS && |points| == POINTS && n <= POINTS
  {
    forall i :: 0 <= i < n ==> Makes(dibits[2 * i], dibits[2 * i + 1], points[i] % 16)
  }

  lemma SpreadCarries(d: seq<bv8>, dmr: bool, dibits: seq<int>, points: seq<nat>)
    requires BurstBits(dmr) <= 8 * |d| && |dibits| == DIBITS && |points| == POINTS
    requires Read(d, dmr, dibits, DIBITS) && Spread(points, dibits, POINTS)
    requires forall i :: 0 <= i < POINTS ==> points[i] < 16
    ensures Carries(d, dmr, points)
  {
    hide Makes, Place, DibitSent, Read;
    forall i | 0 <= i < POINTS ensures CarriesAt(d, dmr, points, i) {
      ReadPlace(d, dmr, dibits, 2 * i);
      ReadPlace(d, dmr, dibits, 2 * i + 1);
      assert points[i] % 16 == points[i];
      assert Makes(dibits[2 * i], dibits[2 * i + 1], points[i]);
    }
  }

  /** trellisInterleave: the burst carries the points and keeps every bit not of the code. */
  method InterleavePoints(points: array<nat>, dmr: bool, data: array<bv8>)
    requires BurstBits(dmr) <= 8 * data.Length && points.Length == POINTS && points as object != data
    modifies data
    ensures (forall i :: 0 <= i < POINTS ==> points[i] < 16) ==> Carries(data[..], dmr, points[..])
    ensures OnlyCode(data[..], old(data[..]), dmr)
  {
    var dibits := new int[DIBITS](_ => 1);
    ghost var pts, start := points[..], data[..];
    hide Makes, Read, Interleave, DibitSent, OnlyCode;
    for i := 0 to POINTS
      invariant Spread(pts, dibits[..], i) && points[..] == pts && data[..] == start
      invariant forall k :: 0 <= k < DIBITS ==> IsLevel(dibits[k])
    {
      var p := points[i] % 16;
      PointLevels(p);
      MakesIs(FIRST[p], SECOND[p], p);
      dibits[2 * i] := FIRST[p];
      dibits[2 * i + 1] := SECOND[p];
    }
    ghost var levels := dibits[..];
    OnlyCodeSame(start, dmr);
    ReadNothing(start, dmr, levels);
    for i := 0 to DIBITS
      invariant Read(data[..], dmr, levels, i) && OnlyCode(data[..], start, dmr)
      invariant dibits[..] == levels && points[..] == pts
    {
      ghost var was := data[..];
      InterleavePlace(i);
      WriteDibit(data, dmr, i, dibits[Interleave(i)]);
      ReadKeeps(was, data[..], dmr, levels, i);
      OnlyCodeJoins(start, was, data[..], dmr);
    }
    if forall i :: 0 <= i < POINTS ==> points[i] < 16 { SpreadCarries(data[..], dmr, levels, pts); }
  }

  lemma OnlyCodeSame(d: seq<bv8>, dmr: bool)
    ensures OnlyCode(d, d, dmr)
  {}

  // ---- The payload ----

  function BitsPer(half: bool): nat { if half then 2 else 3 }

  function Bit(d: seq<bv8>, n: nat): nat
    requires n < 8 * |d|
  {
    if BitAt(d, n) then 1 else 0
  }

  /** The number made of b bits from a start. */
  function Number(d: seq<bv8>, start: nat, b: nat): nat
    requires start + b <= 8 * |d|
  {
    if b == 0 then 0 else 2 * Number(d, start, b - 1) + Bit(d, start + b - 1)
  }

  lemma {:induction false} NumberSame(d: seq<bv8>, e: seq<bv8>, start: nat, b: nat)
    requires start + b <= 8 * |d| && |e| == |d|
    ensures Number(d, start, b) == Number(e, start, b) <==>
      forall n :: start <= n < start + b ==> BitAt(d, n) == BitAt(e, n)
  {
    hide BitAt;
    if b > 0 { NumberSame(d, e, start, b - 1); }
  }

  /** The first n symbols of the payload; the last symbol of a word is the zero flush. */
  ghost predicate Payload(d: seq<bv8>, half: bool, syms: seq<nat>, n: nat) {
    && n <= 48 && 48 * BitsPer(half) <= 8 * |d| && |syms| == POINTS
    && forall i :: 0 <= i < n ==> Number(d, i * BitsPer(half), BitsPer(half)) == syms[i]
  }

  /** The bits of the payload are determined by its symbols. */
  lemma PayloadBits(d: seq<bv8>, e: seq<bv8>, half: bool, syms: seq<nat>, n: nat)
    requires Payload(d, half, syms, 48) && Payload(e, half, syms, 48) && |d| == |e| && n < 48 * BitsPer(half)
    ensures BitAt(d, n) == BitAt(e, n)
  {
    var w := BitsPer(half);
    var i := n / w;
    assert i * w <= n < i * w + w;
    NumberSame(d, e, i * w, w);
  }

  function Shift(x: nat, k: nat): nat { if k == 0 then x else Shift(x, k - 1) / 2 }

  lemma ShiftOut(sym: nat, half: bool)
    requires sym < Count(half)
    ensures Shift(sym, BitsPer(half)) == 0
  {
    assert Shift(sym, 1) == Shift(sym, 0) / 2;
    assert Shift(sym, 2) == Shift(sym, 1) / 2;
    assert Shift(sym, 3) == Shift(sym, 2) / 2;
  }

  /** One symbol into the payload, high bit first. */
  method WriteSymbol(payload: array<bv8>, half: bool, i: nat, sym: nat)
    requires i < 48 && 48 * BitsPer(half) <= 8 * payload.Length && sym < Count(half)
    modifies payload
    ensures Number(payload[..], i * BitsPer(half), BitsPer(half)) == sym
    ensures SameOutside(payload[..], old(payload[..]), i * BitsPer(half), (i + 1) * BitsPer(half))
  {
    hide BitAt;
    var w := BitsPer(half);
    ghost var start := payload[..];
    ShiftOut(sym, half);
    for b := 0 to w
      invariant Number(payload[..], i * w, b) == Shift(sym, w - b)
      invariant SameOutside(payload[..], start, i * w, i * w + b)
    {
      ghost var was := payload[..];
      WriteBit(payload, i * w + b, Shift(sym, w - 1 - b) % 2 != 0);
      NumberSame(was, payload[..], i * w, b);
      assert Shift(sym, w - b) == Shift(sym, w - 1 - b) / 2;
    }
  }

  lemma PayloadStep(d: seq<bv8>, e: seq<bv8>, half: bool, syms: seq<nat>, i: nat)
    requires i < 48 && Payload(d, half, syms, i) && SameOutside(e, d, i * BitsPer(half), (i + 1) * BitsPer(half))
    requires Number(e, i * BitsPer(half), BitsPer(half)) == syms[i]
    ensures Payload(e, half, syms, i + 1)
  {
    var w := BitsPer(half);
    hide BitAt;
    forall k | 0 <= k < i ensures Number(e, k * w, w) == syms[k] {
      assert k * w + w <= i * w;
      NumberSame(d, e, k * w, w);
    }
  }

  // ---- The codec ----

  /** The burst carries the code word of the payload. */
  ghost predicate Sends(d: seq<bv8>, dmr: bool, half: bool, payload: seq<bv8>)
    requires BurstBits(dmr) <= 8 * |d|
  {
    exists points: seq<nat>, syms: seq<nat> ::
      Carries(d, dmr, points) && IsCoded(half, points, syms) && Payload(payload, half, syms, 48)
  }

  /** The burst carries the payload's code word but for one point, at which the state machine
      stops. */
  ghost predicate SendsButOne(d: seq<bv8>, dmr: bool, half: bool, payload: seq<bv8>)
    requires BurstBits(dmr) <= 8 * |d|
  {
    exists points: seq<nat>, c: seq<nat>, syms: seq<nat>, t: seq<nat>, at: nat ::
      && Carries(d, dmr, points) && IsCoded(half, c, syms) && Payload(payload, half, syms, 48)
      && |points| == |t| == POINTS && at < POINTS && OnePointOff(points, c, at) && StopsAt(half, points, t, at)
  }

  /** The symbols are those of a code word at most twenty points from the burst's. */
  ghost predicate Near(d: seq<bv8>, dmr: bool, half: bool, syms: seq<nat>)
    requires BurstBits(dmr) <= 8 * |d|
  {
    exists points: seq<nat>, c: seq<nat> ::
      Carries(d, dmr, points) && IsCoded(half, c, syms) && |Moved(points, c)| <= ROUNDS
  }

  /** The payload is that of a code word at most twenty points from the burst's. */
  ghost predicate SendsNear(d: seq<bv8>, dmr: bool, half: bool, payload: seq<bv8>)
    requires BurstBits(dmr) <= 8 * |d|
  {
    exists syms: seq<nat> :: Near(d, dmr, half, syms) && Payload(payload, half, syms, 48)
  }

  /** A burst that can be refused: the state machine stops more than twenty points before the
      end, and neither the point there nor the one before it makes a code word of the rest. */
  ghost predicate StopsEarly(d: seq<bv8>, dmr: bool, half: bool)
    requires BurstBits(dmr) <= 8 * |d|
  {
    exists points: seq<nat>, t: seq<nat>, at: nat ::
      && Carries(d, dmr, points) && |points| == |t| == POINTS && at + ROUNDS < POINTS && StopsAt(half, points, t, at)
      && NoWordAt(half, points, at) && (at > 0 ==> NoWordAt(half, points, at - 1))
  }

  ghost predicate NoWordAt(half: bool, points: seq<nat>, at: nat)
    requires at < |points|
  {
    forall c :: OnePointOff(points, c, at) ==> !IsCodeword(half, c)
  }

  /** trellisEncode. */
  method TrellisEncode(payload: array<bv8>, dmr: bool, half: bool, data: array<bv8>)
    requires 48 * BitsPer(half) <= 8 * payload.Length && BurstBits(dmr) <= 8 * data.Length && payload != data
    modifies data
    ensures Sends(data[..], dmr, half, payload[..])
    ensures OnlyCode(data[..], old(data[..]), dmr)
  {
    hide BitAt, Table, Carries, OnlyCode;
    var w, count := BitsPer(half), Count(half);
    var points := new nat[POINTS](_ => 0);
    var state := 0;
    ghost var syms: seq<nat> := [];
    ghost var pl, start := payload[..], data[..];
    for i := 0 to POINTS
      invariant payload[..] == pl && data[..] == start
      invariant |syms| == i && state == StateAt(syms, i) < count
      invariant IsPath(half, points[..], syms, i)
      invariant forall k :: 0 <= k < i ==> points[k] < 16
      invariant forall k :: 0 <= k < i && k < 48 ==> Number(pl, k * w, w) == syms[k]
      invariant i == POINTS ==> syms[48] == 0
    {
      var sym := 0;
      if i < 48 {
        for b := 0 to w
          invariant payload[..] == pl && data[..] == start
          invariant i * w + w <= 48 * w && sym == Number(pl, i * w, b) < Power(b)
        {
          sym := 2 * sym + Bit(payload[..], i * w + b);
        }
      }
      assert sym < count;
      ghost var was := points[..];
      TablePoints(half, state, sym);
      points[i] := Table(half, state, sym);
      PathExtends(half, was, points[..], syms, i, sym);
      state := sym;
      syms := syms + [sym];
    }
    InterleavePoints(points, dmr, data);
    assert IsCoded(half, points[..], syms) && Payload(pl, half, syms, 48);
  }

  function Power(b: nat): nat { if b == 0 then 1 else 2 * Power(b - 1) }

  lemma PathExtends(half: bool, was: seq<nat>, points: seq<nat>, syms: seq<nat>, i: nat, sym: nat)
    requires |syms| == i < |was| == |points| && IsPath(half, was, syms, i)
    requires points == was[i := points[i]] && StateAt(syms, i) < Count(half) && sym < Count(half)
    requires points[i] == Table(half, StateAt(syms, i), sym)
    ensures IsPath(half, points, syms + [sym], i + 1)
  {
    hide Table;
    var next := syms + [sym];
    forall k | 0 <= k < i + 1 ensures Follows(half, points, next, k) {
      assert StateAt(next, k) == StateAt(syms, k);
      if k < i { assert Follows(half, was, syms, k); }
    }
  }

  ghost predicate SamePayload(d: seq<bv8>, e: seq<bv8>, half: bool)
    requires 48 * BitsPer(half) <= 8 * |d| && |e| == |d|
  {
    forall n :: 0 <= n < 48 * BitsPer(half) ==> BitAt(d, n) == BitAt(e, n)
  }

  /** What the decoder has to end up with: the symbols of every payload the burst may stand for. */
  ghost predicate Decoded(d: seq<bv8>, dmr: bool, half: bool, size: nat, syms: seq<nat>)
    requires BurstBits(dmr) <= 8 * |d|
  {
    forall pl :: |pl| == size && (Sends(d, dmr, half, pl) || SendsButOne(d, dmr, half, pl)) ==>
      Payload(pl, half, syms, 48)
  }

  lemma CheckedIsDecoded(d: seq<bv8>, dmr: bool, half: bool, size: nat, points: seq<nat>, syms: seq<nat>)
    requires BurstBits(dmr) <= 8 * |d| && Carries(d, dmr, points) && IsCoded(half, points, syms)
    ensures Decoded(d, dmr, half, size, syms)
  {
    hide Carries, IsCoded, StopsAt;
    forall pl | |pl| == size && (Sends(d, dmr, half, pl) || SendsButOne(d, dmr, half, pl))
      ensures Payload(pl, half, syms, 48)
    {
      if Sends(d, dmr, half, pl) {
        var p: seq<nat>, s: seq<nat> :| Carries(d, dmr, p) && IsCoded(half, p, s) && Payload(pl, half, s, 48);
        CarriesOne(d, dmr, p, points);
        CodedOnce(half, points, s, syms);
      } else {
        var p: seq<nat>, c: seq<nat>, s: seq<nat>, t: seq<nat>, at: nat :|
          && Carries(d, dmr, p) && IsCoded(half, c, s) && Payload(pl, half, s, 48)
          && |p| == |t| == POINTS && at < POINTS && OnePointOff(p, c, at) && StopsAt(half, p, t, at);
        CarriesOne(d, dmr, p, points);
        CodedIsCodeword(half, points, syms);
        StopsMeansNone(half, points, t, at);
        assert false;
      }
    }
  }

  /** A stopped check: no payload is sent as it is, and one sent but for a point is found by
      the repair. */
  lemma RepairedIsDecoded(d: seq<bv8>, dmr: bool, half: bool, size: nat, points: seq<nat>, t: seq<nat>, at: nat,
                          ok: bool, c: seq<nat>, syms: seq<nat>)
    requires BurstBits(dmr) <= 8 * |d| && Carries(d, dmr, points) && |t| == |points| == POINTS && at < POINTS
    requires StopsAt(half, points, t, at) && (ok ==> IsCoded(half, c, syms))
    requires forall w :: IsCodeword(half, w) && OnePointOff(points, w, at) ==> ok && c == w
    ensures ok ==> Decoded(d, dmr, half, size, syms)
    ensures !ok ==> forall pl :: |pl| == size ==> !Sends(d, dmr, half, pl) && !SendsButOne(d, dmr, half, pl)
  {
    hide Carries, IsCoded, StopsAt, OnePointOff, IsCodeword;
    forall pl | |pl| == size && (Sends(d, dmr, half, pl) || SendsButOne(d, dmr, half, pl))
      ensures ok && Payload(pl, half, syms, 48)
    {
      if Sends(d, dmr, half, pl) {
        var p: seq<nat>, s: seq<nat> :| Carries(d, dmr, p) && IsCoded(half, p, s) && Payload(pl, half, s, 48);
        CarriesOne(d, dmr, p, points);
        StopsMeansNone(half, points, t, at);
        CodedIsCodeword(half, points, s);
        assert false;
      } else {
        var p: seq<nat>, w: seq<nat>, s: seq<nat>, u: seq<nat>, q: nat :|
          && Carries(d, dmr, p) && IsCoded(half, w, s) && Payload(pl, half, s, 48)
          && |p| == |u| == POINTS && q < POINTS && OnePointOff(p, w, q) && StopsAt(half, p, u, q);
        CarriesOne(d, dmr, p, points);
        if q <= at { StopsOnce(half, points, u, q, t, at); } else { StopsOnce(half, points, t, at, u, q); }
        CodedIsCodeword(half, w, s);
        CodedOnce(half, c, syms, s);
      }
    }
  }

  lemma NothingToDecode(d: seq<bv8>, dmr: bool, half: bool, size: nat, syms: seq<nat>)
    requires BurstBits(dmr) <= 8 * |d|
    requires forall pl :: |pl| == size ==> !Sends(d, dmr, half, pl) && !SendsButOne(d, dmr, half, pl)
    ensures Decoded(d, dmr, half, size, syms)
  {}

  /** The check and the repairs: the symbols of the only payload the burst can stand for. */
  method FollowAndRepair(data: array<bv8>, dmr: bool, half: bool, ghost size: nat) returns (ok: bool, syms: array<nat>)
    requires BurstBits(dmr) <= 8 * data.Length
    ensures fresh(syms) && syms.Length == POINTS
    ensures ok ==> Near(data[..], dmr, half, syms[..])
    ensures !ok ==> StopsEarly(data[..], dmr, half)
    ensures ok ==> Decoded(data[..], dmr, half, size, syms[..])
    ensures !ok ==> forall pl :: |pl| == size ==>
      !Sends(data[..], dmr, half, pl) && !SendsButOne(data[..], dmr, half, pl)
  {
    hide *;
    BurstFits(dmr);
    var points := new nat[POINTS](_ => 0);
    syms := new nat[POINTS](_ => 0);
    ghost var d := data[..];
    Deinterleave(data, dmr, points);
    var failPos := Check(points, half, syms);
    ghost var received, stopped := points[..], syms[..];
    if failPos == VALID {
      CheckedIsDecoded(d, dmr, half, size, received, syms[..]);
      MovedNone(received);
      IsNear(d, dmr, half, received, received, syms[..]);
      return true, syms;
    }
    StopReaches(half, received, stopped, failPos);
    var savePoints := new nat[POINTS](i requires 0 <= i < points.Length reads points => points[i]);
    assert savePoints[..] == received;
    ok := Fix(points, half, failPos, syms);
    RepairedIsDecoded(d, dmr, half, size, received, stopped, failPos, ok, points[..], syms[..]);
    if ok { IsNear(d, dmr, half, received, points[..], syms[..]); }
    if !ok && failPos > 0 {
      ok := Fix(savePoints, half, failPos - 1, syms);
      NothingToDecode(d, dmr, half, size, syms[..]);
      if ok { IsNear(d, dmr, half, received, savePoints[..], syms[..]); }
    }
    if !ok { IsEarly(d, dmr, half, received, stopped, failPos); }
    return ok, syms;
  }

  lemma BurstFits(dmr: bool)
    ensures POINTS == 49 && ROUNDS == 20
  {}

  lemma IsNear(d: seq<bv8>, dmr: bool, half: bool, points: seq<nat>, c: seq<nat>, syms: seq<nat>)
    requires BurstBits(dmr) <= 8 * |d| && Carries(d, dmr, points) && IsCoded(half, c, syms)
    requires |Moved(points, c)| <= ROUNDS
    ensures Near(d, dmr, half, syms)
  {}

  lemma IsEarly(d: seq<bv8>, dmr: bool, half: bool, points: seq<nat>, t: seq<nat>, at: nat)
    requires BurstBits(dmr) <= 8 * |d| && Carries(d, dmr, points) && |points| == |t| == POINTS
    requires at + ROUNDS < POINTS && StopsAt(half, points, t, at)
    requires forall c :: IsCodeword(half, c) ==> !OnePointOff(points, c, at)
    requires at > 0 ==> forall c :: IsCodeword(half, c) ==> !OnePointOff(points, c, at - 1)
    ensures StopsEarly(d, dmr, half)
  {
    hide Carries, StopsAt, IsCodeword, OnePointOff;
    assert NoWordAt(half, points, at);
    if at > 0 { assert NoWordAt(half, points, at - 1); }
  }

  /** trellisDecode: a burst that carries a payload's code word, or differs from it in the one
      point at which the state machine stops, gives the payload back. Whatever is accepted gives
      the payload of a code word at most twenty points from the burst; a burst that is refused
      leaves the buffer alone, and the state machine stops early in it. */
  method TrellisDecode(data: array<bv8>, dmr: bool, half: bool, payload: array<bv8>) returns (ok: bool)
    requires BurstBits(dmr) <= 8 * data.Length && 48 * BitsPer(half) <= 8 * payload.Length && payload != data
    modifies payload
    ensures SameOutside(payload[..], old(payload[..]), 0, if ok then 48 * BitsPer(half) else 0)
    ensures forall pl ::
      |pl| == payload.Length && (Sends(data[..], dmr, half, pl) || SendsButOne(data[..], dmr, half, pl)) ==>
      ok && SamePayload(payload[..], pl, half)
    ensures ok ==> SendsNear(data[..], dmr, half, payload[..])
    ensures !ok ==> StopsEarly(data[..], dmr, half)
  {
    hide *;
    BurstFits(dmr);
    ghost var start, d := payload[..], data[..];
    NoChange(start);
    var good, syms := FollowAndRepair(data, dmr, half, payload.Length);
    if !good { return false; }
    ghost var s := syms[..];
    NearSmall(d, dmr, half, s);
    NoPayload(start, half, s);
    for i := 0 to 48
      invariant syms[..] == s && data[..] == d
      invariant Payload(payload[..], half, s, i)
      invariant SameOutside(payload[..], start, 0, i * BitsPer(half))
    {
      ghost var was := payload[..];
      WriteSymbol(payload, half, i, syms[i]);
      PayloadStep(was, payload[..], half, s, i);
      SameOutsideJoins(start, was, payload[..], i * BitsPer(half), (i + 1) * BitsPer(half));
    }
    PayloadNear(d, dmr, half, payload[..], s);
    forall pl | |pl| == payload.Length && (Sends(d, dmr, half, pl) || SendsButOne(d, dmr, half, pl))
      ensures SamePayload(payload[..], pl, half)
    {
      DecodedPayload(d, dmr, half, s, pl);
      PayloadEqual(payload[..], pl, half, s);
    }
    return true;
  }

  lemma NearSmall(d: seq<bv8>, dmr: bool, half: bool, syms: seq<nat>)
    requires BurstBits(dmr) <= 8 * |d| && Near(d, dmr, half, syms)
    ensures |syms| == POINTS && forall i :: 0 <= i < POINTS ==> syms[i] < Count(half)
  {
    var points: seq<nat>, c: seq<nat> :| Carries(d, dmr, points) && IsCoded(half, c, syms);
    SymbolsSmall(half, c, syms);
  }

  lemma PayloadNear(d: seq<bv8>, dmr: bool, half: bool, payload: seq<bv8>, syms: seq<nat>)
    requires BurstBits(dmr) <= 8 * |d| && Near(d, dmr, half, syms) && Payload(payload, half, syms, 48)
    ensures SendsNear(d, dmr, half, payload)
  {
    hide Near, Payload;
  }

  lemma DecodedPayload(d: seq<bv8>, dmr: bool, half: bool, syms: seq<nat>, pl: seq<bv8>)
    requires BurstBits(dmr) <= 8 * |d| && Decoded(d, dmr, half, |pl|, syms)
    requires Sends(d, dmr, half, pl) || SendsButOne(d, dmr, half, pl)
    ensures Payload(pl, half, syms, 48)
  {
    hide Sends, SendsButOne, Payload;
  }

  lemma PayloadEqual(d: seq<bv8>, e: seq<bv8>, half: bool, syms: seq<nat>)
    requires Payload(d, half, syms, 48) && Payload(e, half, syms, 48) && |d| == |e|
    ensures 48 * BitsPer(half) <= 8 * |d| && SamePayload(d, e, half)
  {
    hide BitAt, Number;
    forall n | 0 <= n < 48 * BitsPer(half) ensures BitAt(d, n) == BitAt(e, n) { PayloadBits(d, e, half, syms, n); }
  }

  lemma NoChange(d: seq<bv8>)
    ensures SameOutside(d, d, 0, 0)
  {}

  lemma NoPayload(d: seq<bv8>, half: bool, syms: seq<nat>)
    requires 48 * BitsPer(half) <= 8 * |d| && |syms| == POINTS
    ensures Payload(d, half, syms, 0)
  {}

  lemma SymbolsSmall(half: bool, points: seq<nat>, syms: seq<nat>)
    requires IsCoded(half, points, syms)
    ensures |syms| == POINTS && forall i :: 0 <= i < POINTS ==> syms[i] < Count(half)
  {
    forall i | 0 <= i < POINTS ensures syms[i] < Count(half) { assert Follows(half, points, syms, i); }
  }

  /** Both rates, both layouts: what was encoded is decoded, and the bits of the burst that are
      not the code's, in particular the middle 68 of a DMR burst, are untouched. */
  method EncodeDecode(payload: array<bv8>, dmr: bool, half: bool, data: array<bv8>, out: array<bv8>) returns (ok: bool)
    requires 48 * BitsPer(half) <= 8 * payload.Length && BurstBits(dmr) <= 8 * data.Length
    requires out.Length == payload.Length && payload != data && out != data && out != payload
    modifies data, out
    ensures ok && SamePayload(out[..], payload[..], half)
    ensures SameOutside(out[..], old(out[..]), 0, 48 * BitsPer(half))
    ensures GapKept(data[..], old(data[..]), dmr)
  {
    hide *;
    ghost var start := data[..];
    TrellisEncode(payload, dmr, half, data);
    OtherBitsKept(data[..], start, dmr);
    ok := TrellisDecode(data, dmr, half, out);
  }

  /** The bits behind the burst and the middle 68 of a DMR burst are the same. */
  ghost predicate GapKept(d: seq<bv8>, e: seq<bv8>, dmr: bool) {
    && |d| == |e|
    && forall n :: 0 <= n < 8 * |d| && (n >= BurstBits(dmr) || (dmr && 98 <= n < 166)) ==> BitAt(d, n) == BitAt(e, n)
  }

  lemma OtherBitsKept(d: seq<bv8>, e: seq<bv8>, dmr: bool)
    requires OnlyCode(d, e, dmr)
    ensures GapKept(d, e, dmr)
  {
    hide BitAt;
    forall n | 0 <= n < 8 * |d| && (n >= BurstBits(dmr) || (dmr && 98 <= n < 166)) ensures BitAt(d, n) == BitAt(e, n) {
      assert !CodeBit(n, dmr);
    }
  }
}
