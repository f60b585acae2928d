/** The (12,9) code over bytes: a shift register encoder and the check that recomputes it. */
module Rs129 {
  import opened Fields
  import opened Codes
  import opened ShiftRegister
  import opened PrimitiveField
  import opened Tables256
  import opened Gf256

  const NPAR := 3

  /** The generator without its leading one, lowest coefficient first. */
  const POLY: seq<bv8> := [64, 56, 14]

  /** The word vanishes at alpha, alpha^2 and alpha^3. */
  ghost predicate IsCodeword(w: seq<bv8>) {
    forall j :: 1 <= j <= NPAR ==> F256().Horner(w, Alpha(j)) == 0
  }

  /** The same, highest coefficient first. */
  ghost function Generator129(): seq<bv8> { [POLY[2], POLY[1], POLY[0]] }

  lemma TimesTwo(b: bv8)
    ensures F256().mul(2, b) == Double(b)
  {
    MulIsTimes(2, b);
    ExpIsPower(1);
    assert ExpTable(1) == 2;
    hide F256, Double;
    Gen().ExpNonZero(1);
    Gen().TimesPower(1, b);
    TwiceIs(b);
  }

  lemma TwiceIs(b: bv8)
    ensures Gen().Iterate(b, 1) == Double(b)
  {
    assert Gen().Iterate(b, 1) == Gen().double(Gen().Iterate(b, 0));
  }

  /** Multiplying by 2, 4 and 8. */
  lemma TimesSmall(b: bv8)
    ensures F256().mul(Alpha(1), b) == Double(b)
    ensures F256().mul(Alpha(2), b) == Double(Double(b))
    ensures F256().mul(Alpha(3), b) == Double(Double(Double(b)))
  {
    F256Laws();
    TimesTwo(b);
    TimesTwo(Double(b));
    TimesTwo(Double(Double(b)));
    hide FieldOf, Double;
    var F := F256();
    assert F.Pow(2, 1) == F.mul(2, F.Pow(2, 0));
    MulAssoc(F, 2, 2, b);
    MulAssoc(F, 2, F.mul(2, 2), b);
    MulAssoc(F, 2, 2, F.mul(2, b));
  }

  lemma HornerSnoc<T(!new)>(F: Field<T>, w: seq<T>, d: T, y: T)
    ensures F.Horner(w + [d], y) == F.add(F.mul(F.Horner(w, y), y), d)
  {
    assert (w + [d])[..|w|] == w;
  }

  lemma HornerFour<T(!new)>(F: Field<T>, a: T, b: T, c: T, d: T, y: T)
    requires F.Valid()
    ensures F.Horner([a, b, c, d], y) == F.add(F.mul(y, F.add(F.mul(y, F.add(F.mul(y, a), b)), c)), d)
  {
    HornerSingle(F, a, y);
    HornerSnoc(F, [a], b, y);
    HornerSnoc(F, [a, b], c, y);
    HornerSnoc(F, [a, b, c], d, y);
    assert [a] + [b] == [a, b] && [a, b] + [c] == [a, b, c] && [a, b, c] + [d] == [a, b, c, d];
  }

  function Plus(a: bv8, b: bv8): bv8 { a ^ b }

  lemma PlusIsAdd(a: bv8, b: bv8)
    ensures F256().add(a, b) == Plus(a, b)
  {
    F256Laws();
    hide FieldOf;
  }

  /** One Horner step at the root with x shifted j times. */
  lemma Step(j: nat, a: bv8, b: bv8, s: bv8)
    requires 1 <= j <= 3
    requires s ==
      Plus(if j == 1 then Double(a) else if j == 2 then Double(Double(a)) else Double(Double(Double(a))), b)
    ensures F256().add(F256().mul(Alpha(j), a), b) == s
  {
    hide *;
    TimesSmall(a);
    PlusIsAdd(F256().mul(Alpha(j), a), b);
  }

  /** The generator polynomial has the three roots. */
  lemma GeneratorRoots(j: nat)
    requires 1 <= j <= 3
    ensures F256().Horner([1] + Generator129(), Alpha(j)) == 0
  {
    assert [1] + Generator129() == [1, 14, 56, 64];
    hide F256, Alpha;
    F256Laws();
    HornerFour(F256(), 1, 14, 56, 64, Alpha(j));
    if j == 1 {
      Step(j, 1, 14, 12);
      Step(j, 12, 56, 32);
      Step(j, 32, 64, 0);
    } else if j == 2 {
      Step(j, 1, 14, 10);
      Step(j, 10, 56, 16);
      Step(j, 16, 64, 0);
    } else {
      Step(j, 1, 14, 6);
      Step(j, 6, 56, 8);
      Step(j, 8, 64, 0);
    }
  }

  /** The shift register of the encoder, as the three bytes that follow the data. */
  ghost function ParityOf(msg: seq<bv8>): (p: seq<bv8>)
    ensures |p| == NPAR
  {
    Register(F256(), Generator129(), msg)
  }

  /** What one round of the inner loop has done so far: places above j are updated. */
  ghost predicate Rotating(now: seq<bv8>, before: seq<bv8>, dbyte: bv8, j: int) {
    && |now| == |before| == NPAR && 0 <= j
    && (forall l :: j < l < NPAR ==> now[l] == F256().add(before[l - 1], F256().mul(dbyte, POLY[l])))
    && (forall l :: 0 <= l <= j && l < NPAR ==> now[l] == before[l])
  }

  lemma ParityStep(msg: seq<bv8>, before: seq<bv8>, now: seq<bv8>, p: bv8, d: bv8)
    requires |before| == NPAR && ParityOf(msg) == [before[2], before[1], before[0]]
    requires Rotating(now, before, F256().add(d, before[2]), 0)
    requires p == F256().mul(POLY[0], F256().add(d, before[2]))
    ensures ParityOf(msg + [d]) == [now[2], now[1], p]
  {
    hide F256;
    ZeroAdds(p);
    var m := msg + [d];
    assert m[..|m| - 1] == msg && m[|m| - 1] == d;
  }

  lemma ZeroAdds(p: bv8)
    ensures F256().add(F256().zero, p) == F256().add(p, F256().zero) == p
    ensures forall a: bv8, b: bv8 :: F256().add(a, b) == F256().add(b, a) && F256().mul(a, b) == F256().mul(b, a)
    ensures F256().zero == 0
  {
    F256Laws();
    hide F256;
  }

  lemma StartsClear()
    ensures ParityOf([]) == [0, 0, 0]
  {
    F256Laws();
    hide F256;
  }

  lemma RotateStart(before: seq<bv8>, dbyte: bv8)
    requires |before| == NPAR
    ensures Rotating(before, before, dbyte, NPAR - 1)
  {}

  lemma RotateStep(now: seq<bv8>, next: seq<bv8>, before: seq<bv8>, dbyte: bv8, j: int)
    requires 0 < j < NPAR && Rotating(now, before, dbyte, j)
    requires next == now[j := F256().add(now[j - 1], F256().mul(POLY[j], dbyte))]
    ensures Rotating(next, before, dbyte, j - 1)
  {
    F256Laws();
    hide F256;
  }

  lemma Sizes()
    ensures NPAR == 3 && |POLY| == NPAR
  {}

  /** The encoder leaves the remainder of the message, lowest coefficient first, and clears the
      spare byte. */
  method RS129_encode(msg: array<bv8>, nbytes: nat, parity: array<bv8>)
    requires nbytes <= msg.Length && parity.Length >= NPAR + 1 && parity != msg
    modifies parity
    ensures [parity[2], parity[1], parity[0]] == ParityOf(msg[..nbytes])
    ensures parity[NPAR] == 0
    ensures parity[NPAR + 1..] == old(parity[NPAR + 1..])
  {
    Sizes();
    hide *;
    for i := 0 to NPAR + 1
      invariant forall k :: 0 <= k < i ==> parity[k] == 0
      invariant parity[NPAR + 1..] == old(parity[NPAR + 1..])
    {
      parity[i] := 0;
    }
    StartsClear();
    assert msg[..0] == [];
    for i := 0 to nbytes
      invariant [parity[2], parity[1], parity[0]] == ParityOf(msg[..i])
      invariant parity[NPAR] == 0 && parity[NPAR + 1..] == old(parity[NPAR + 1..])
    {
      var dbyte := Plus(msg[i], parity[NPAR - 1]);
      PlusIsAdd(msg[i], parity[NPAR - 1]);
      ghost var before := parity[..NPAR];
      var j := NPAR - 1;
      RotateStart(before, dbyte);
      while j > 0
        invariant 0 <= j < NPAR && Rotating(parity[..NPAR], before, dbyte, j)
        invariant parity[NPAR] == 0 && parity[NPAR + 1..] == old(parity[NPAR + 1..])
      {
        var p := Gmult(POLY[j], dbyte);
        PlusIsAdd(parity[j - 1], p);
        ghost var now := parity[..NPAR];
        parity[j] := Plus(parity[j - 1], p);
        RotateStep(now, parity[..NPAR], before, dbyte, j);
        j := j - 1;
      }
      var p := Gmult(POLY[0], dbyte);
      ghost var now := parity[..NPAR];
      parity[0] := p;
      assert parity[..NPAR] == now[0 := p];
      ParityStep(msg[..i], before, now, p, msg[i]);
      assert msg[..i] + [msg[i]] == msg[..i + 1];
    }
  }

  /** Data followed by its parity is a code word, and no other parity completes it. */
  lemma ParityCompletes(msg: seq<bv8>, q: seq<bv8>)
    requires |msg| + NPAR <= 255 && |q| == NPAR
    ensures q == ParityOf(msg) <==> IsCodeword(msg + q)
  {
    F256Laws();
    hide FieldOf, Alpha, Register;
    var F, g, X := F256(), Generator129(), Locators(F256(), 2, |msg| + NPAR);
    forall j | 1 <= j <= NPAR ensures F.Horner(msg + ParityOf(msg), Alpha(j)) == 0 {
      GeneratorRoots(j);
      RegisterCompletes(F, g, msg, Alpha(j));
    }
    if IsCodeword(msg + q) {
      LocatorsDistinct(|msg| + NPAR);
      forall j | 1 <= j < 1 + NPAR
        ensures Moment(F, msg + q, X, j) == Moment(F, msg + Register(F, g, msg), X, j)
      {
        MomentIsHorner(msg + q, j);
        MomentIsHorner(msg + ParityOf(msg), j);
      }
      RegisterUnique(F, g, msg, q, X, 1);
    }
  }

  lemma MomentIsHorner(w: seq<bv8>, j: nat)
    ensures F256().Horner(w, Alpha(j)) == Moment(F256(), w, Locators(F256(), 2, |w|), j)
  {
    F256Laws();
    hide FieldOf, Moment;
    HornerIsMoment(F256(), w, 2, j);
  }

  lemma LocatorsDistinct(n: nat)
    requires n <= 255
    ensures Distinct(Locators(F256(), 2, n)) && F256().zero !in Locators(F256(), 2, n)
  {
    F256Laws();
    hide F256, Alpha, Locators;
    LocatorsSize(n);
    var X := Locators(F256(), 2, n);
    forall i, j | 0 <= i < j < n ensures X[i] != X[j] {
      LocatorAt(n, i);
      LocatorAt(n, j);
      AlphaFacts(n - 1 - j, n - 1 - i);
    }
    forall i | 0 <= i < n ensures X[i] != 0 {
      LocatorAt(n, i);
      AlphaFacts(n - 1 - i, 0);
    }
  }

  lemma LocatorsSize(n: nat)
    ensures |Locators(F256(), 2, n)| == n
  {}

  lemma LocatorAt(n: nat, i: nat)
    requires i < n
    ensures |Locators(F256(), 2, n)| == n && Locators(F256(), 2, n)[i] == Alpha(n - 1 - i)
  {}

  /** The check accepts exactly the code words. */
  method RS129_check(block: array<bv8>) returns (ok: bool)
    requires block.Length >= 12
    ensures ok <==> IsCodeword(block[..12])
  {
    hide F256, ParityOf, IsCodeword;
    var parity := new bv8[4];
    RS129_encode(block, 9, parity);
    ok := block[9] == parity[2] && block[10] == parity[1] && block[11] == parity[0];
    assert block[..12] == block[..9] + block[9..12];
    assert block[9..12] == [block[9], block[10], block[11]];
    ParityCompletes(block[..9], block[9..12]);
  }

  /** Any change of one to three symbols of a code word leaves the code, at every block length
      the field allows: so the check rejects every such change of an accepted block. */
  lemma ThreeChangesRejected(w: seq<bv8>, v: seq<bv8>)
    requires |w| == |v| <= 255 && IsCodeword(w) && 1 <= |Difference(w, v)| <= 3
    ensures !IsCodeword(v)
  {
    F256Laws();
    hide FieldOf, Alpha;
    if IsCodeword(v) {
      var F, X := F256(), Locators(F256(), 2, |w|);
      LocatorsDistinct(|w|);
      forall j | 1 <= j < 1 + NPAR ensures Moment(F, w, X, j) == Moment(F, v, X, j) {
        MomentIsHorner(w, j);
        MomentIsHorner(v, j);
      }
      CloseWordsEqual(F, w, v, X, 3, 1);
    }
  }
}
