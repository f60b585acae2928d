/** The shift register encoders: dividing by a monic generator while the symbols come in leaves
    parity symbols that complete a code word. */
module ShiftRegister {
  import opened Fields
  import opened Codes
  import opened Sets

  /** p is q moved up one place plus k times g. */
  ghost predicate Shifts<T(!new)>(F: Field<T>, p: seq<T>, q: seq<T>, k: T, g: seq<T>) {
    && |p| == |q| + 1 == |g|
    && forall l :: 0 <= l < |p| ==> p[l] == F.add(if l < |q| then q[l] else F.zero, F.mul(k, g[l]))
  }

  lemma HornerSingle<T(!new)>(F: Field<T>, k: T, y: T)
    requires F.Valid()
    ensures F.Horner([k], y) == k
  {
    assert [k][..0] == [];
  }

  /** At a root of the monic generator, one shift multiplies by y and adds k times y^m. */
  lemma ShiftValue<T(!new)>(F: Field<T>, p: seq<T>, q: seq<T>, k: T, g: seq<T>, y: T)
    requires F.Valid() && Shifts(F, p, q, k, g) && F.Horner(g, y) == F.Pow(y, |p|)
    ensures F.Horner(p, y) == F.add(F.mul(F.Horner(q, y), y), F.mul(k, F.Pow(y, |p|)))
  {
    var m := |p|;
    var u, kg := q + [F.zero], seq(m, i requires 0 <= i < m => F.mul(k, g[i]));
    HornerAdd(F, u, kg, p, y);
    HornerScale(F, k, g, kg, y);
    assert u[..m - 1] == q;
  }

  /** The register after one more symbol d: the feedback is d plus the highest symbol. */
  function Clock<T(!new)>(F: Field<T>, g: seq<T>, p: seq<T>, d: T): (r: seq<T>)
    requires |p| == |g| > 0
    ensures |r| == |p|
  {
    var fb := F.add(d, p[0]);
    seq(|g|, l requires 0 <= l < |g| => F.add(if l + 1 < |p| then p[l + 1] else F.zero, F.mul(fb, g[l])))
  }

  /** The register, highest symbol first, after the whole message. */
  function Register<T(!new)>(F: Field<T>, g: seq<T>, msg: seq<T>): (p: seq<T>)
    requires g != []
    ensures |p| == |g|
  {
    if msg == [] then seq(|g|, _ => F.zero)
    else Clock(F, g, Register(F, g, msg[..|msg| - 1]), msg[|msg| - 1])
  }

  lemma ClockValue<T(!new)>(F: Field<T>, g: seq<T>, p: seq<T>, d: T, M: T, y: T)
    requires F.Valid() && |p| == |g| > 0 && F.Horner(g, y) == F.Pow(y, |g|)
    requires F.Horner(p, y) == F.mul(M, F.Pow(y, |g|))
    ensures F.Horner(Clock(F, g, p, d), y) == F.mul(F.add(F.mul(M, y), d), F.Pow(y, |g|))
  {
    var m, fb, r := |g|, F.add(d, p[0]), Clock(F, g, p, d);
    assert Shifts(F, r, p[1..], fb, g);
    ShiftValue(F, r, p[1..], fb, g, y);
    assert p == [p[0]] + p[1..];
    HornerConcat(F, [p[0]], p[1..], y);
    HornerSingle(F, p[0], y);
    ClockAlgebra(F, F.Horner(p[1..], y), p[0], d, M, y, m);
  }

  lemma ClockAlgebra<T(!new)>(F: Field<T>, q: T, p0: T, d: T, M: T, y: T, m: nat)
    requires F.Valid() && m >= 1
    requires F.add(F.mul(p0, F.Pow(y, m - 1)), q) == F.mul(M, F.Pow(y, m))
    ensures F.add(F.mul(q, y), F.mul(F.add(d, p0), F.Pow(y, m))) == F.mul(F.add(F.mul(M, y), d), F.Pow(y, m))
  {
    var z, w := F.Pow(y, m), F.mul(p0, F.Pow(y, m - 1));
    // q y + p0 z == M z y
    Distribute(F, y, w, q);
    MulAssoc(F, y, p0, F.Pow(y, m - 1));
    MulAssoc(F, p0, y, F.Pow(y, m - 1));
    MulAssoc(F, M, y, z);
    MulAssoc(F, M, z, y);
    Distribute(F, z, d, p0);
    Distribute(F, z, F.mul(M, y), d);
    var a, b, c := F.mul(q, y), F.mul(d, z), F.mul(p0, z);
    AddAssoc(F, a, c, b);
  }

  /** The message followed by the register vanishes at every root of the generator. */
  lemma {:induction false} RegisterCompletes<T(!new)>(F: Field<T>, g: seq<T>, msg: seq<T>, y: T)
    requires F.Valid() && g != [] && F.Horner([F.one] + g, y) == F.zero
    ensures F.Horner(Register(F, g, msg), y) == F.mul(F.Horner(msg, y), F.Pow(y, |g|))
    ensures F.Horner(msg + Register(F, g, msg), y) == F.zero
    decreases |msg|
  {
    var p := Register(F, g, msg);
    HornerConcat(F, [F.one], g, y);
    HornerSingle(F, F.one, y);
    AddCancel(F, F.Pow(y, |g|), F.Horner(g, y));
    if msg == [] {
      HornerZero(F, p, y);
    } else {
      var n := |msg| - 1;
      RegisterCompletes(F, g, msg[..n], y);
      ClockValue(F, g, Register(F, g, msg[..n]), msg[n], F.Horner(msg[..n], y), y);
    }
    HornerConcat(F, msg, p, y);
  }

  /** The only parity that completes a message: a word of message and |g| further symbols that
      has the same values at enough locators is the encoder's word. */
  lemma RegisterUnique<T(!new)>(F: Field<T>, g: seq<T>, msg: seq<T>, q: seq<T>, X: seq<T>, j0: nat)
    requires F.Valid() && g != [] && |q| == |g| && |X| == |msg| + |g| && Distinct(X) && F.zero !in X
    requires forall j :: j0 <= j < j0 + |g| ==> Moment(F, msg + q, X, j) == Moment(F, msg + Register(F, g, msg), X, j)
    ensures q == Register(F, g, msg)
  {
    var a, b := msg + q, msg + Register(F, g, msg);
    assert Difference(a, b) <= Range(|msg|, |g|);
    SubsetSize(Difference(a, b), Range(|msg|, |g|));
    CloseWordsEqual(F, a, b, X, |g|, j0);
    assert q == a[|msg|..] && Register(F, g, msg) == b[|msg|..];
  }
}
