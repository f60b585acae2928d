/** Building a field from a primitive element: the symbols form a group under exclusive or,
    doubling (multiplying by x) is additive, and the powers of x run through all N nonzero
    symbols before they return to one.  Multiplication adds exponents. */
module PrimitiveField {
  import opened Fields
  import opened Sets

  datatype Generator<!T(!new)> = Generator(zero: T, one: T, add: (T, T) -> T, double: T -> T, num: T -> nat, N: nat) {

    /** num numbers the symbols from 0 to N, zero first. */
    ghost predicate Valid() {
      && 0 < N
      && zero != one
      && (forall a :: add(a, zero) == a)
      && (forall a :: add(a, a) == zero)
      && (forall a, b :: add(a, b) == add(b, a))
      && (forall a, b, c {:trigger Pick(a, b, c)} :: add(add(a, b), c) == add(a, add(b, c)))
      && (forall a, b {:trigger double(add(a, b))} :: double(add(a, b)) == add(double(a), double(b)))
      && (forall a, b :: num(a) == num(b) ==> a == b)
      && (forall a :: num(a) <= N && (num(a) == 0 <==> a == zero))
    }

    function Iterate(a: T, k: nat): T {
      if k == 0 then a else double(Iterate(a, k - 1))
    }

    function Exp(k: nat): T { Iterate(one, k) }

    ghost predicate Primitive() {
      && Valid() && Exp(N) == one
      && forall k :: 0 < k < N ==> Exp(k) != one
    }

    lemma DoubleZero()
      requires Valid()
      ensures double(zero) == zero
    {
      assert double(add(zero, zero)) == add(double(zero), double(zero));
    }

    lemma {:induction false} IterateZero(k: nat)
      requires Valid()
      ensures Iterate(zero, k) == zero
    {
      DoubleZero();
      if k > 0 { IterateZero(k - 1); }
    }

    lemma {:induction false} IterateAdd(a: T, b: T, k: nat)
      requires Valid()
      ensures Iterate(add(a, b), k) == add(Iterate(a, k), Iterate(b, k))
    {
      if k > 0 { IterateAdd(a, b, k - 1); }
    }

    lemma {:induction false} IterateSum(a: T, j: nat, k: nat)
      ensures Iterate(a, j + k) == Iterate(Iterate(a, j), k)
    {
      if k > 0 {
        IterateSum(a, j, k - 1);
        assert j + k - 1 == j + (k - 1);
      }
    }

    lemma ExpPeriod(k: nat)
      requires Primitive()
      ensures Exp(N + k) == Exp(k)
    {
      IterateSum(one, N, k);
    }

    lemma ExpNonZero(k: nat)
      requires Primitive() && k <= N
      ensures Exp(k) != zero
    {
      IterateSum(one, k, N - k);
      IterateZero(N - k);
    }

    /** Powers below N are distinct. */
    lemma ExpDistinct(i: nat, j: nat)
      requires Primitive() && i < j < N
      ensures Exp(i) != Exp(j)
    {
      if Exp(i) == Exp(j) {
        IterateSum(one, i, N - i);
        IterateSum(one, j, N - i);
        assert j + (N - i) == N + (j - i);
        ExpPeriod(j - i);
        assert false;
      }
    }

    /** The numbers of the first k powers. */
    ghost function Numbers(k: nat): set<int> {
      set i: nat | i < k :: num(Exp(i)) as int
    }

    lemma {:induction false} NumbersSize(k: nat)
      requires Primitive() && k <= N
      ensures |Numbers(k)| == k
    {
      if k == 0 {
        assert Numbers(0) == {};
      } else {
        NumbersSize(k - 1);
        forall i: nat | i < k - 1 ensures num(Exp(i)) != num(Exp(k - 1)) {
          ExpDistinct(i, k - 1);
        }
        assert Numbers(k) == Numbers(k - 1) + {num(Exp(k - 1))};
      }
    }

    /** Every nonzero symbol is a power: N distinct powers leave no other number. */
    lemma EveryPower(a: T)
      requires Primitive() && a != zero
      ensures exists k: nat :: k < N && Exp(k) == a
    {
      var S := Numbers(N);
      NumbersSize(N);
      if num(a) !in S {
        forall i: nat | i < N ensures 1 <= num(Exp(i)) <= N { ExpNonZero(i); }
        assert S + {num(a) as int} <= Range(1, N);
        SubsetSize(S + {num(a) as int}, Range(1, N));
      }
      var i: nat :| i < N && num(a) == num(Exp(i));
    }

    ghost function Log(a: T): (k: nat)
      requires Primitive() && a != zero
      ensures k < N && Exp(k) == a
    {
      EveryPower(a);
      var k: nat :| k < N && Exp(k) == a;
      k
    }

    ghost function Times(a: T, b: T): T
      requires Primitive()
    {
      if a == zero || b == zero then zero else Exp(Log(a) + Log(b))
    }

    /** Multiplying by the k-th power of x is doubling k times. */
    lemma TimesPower(k: nat, b: T)
      requires Primitive() && Exp(k) != zero
      ensures Times(Exp(k), b) == Iterate(b, k)
    {
      if b == zero {
        IterateZero(k);
      } else {
        var i, j := Log(Exp(k)), Log(b);
        IterateSum(one, i, j);
        IterateSum(one, k, j);
        IterateSum(one, j, k);
        assert i + j == j + i && k + j == j + k;
      }
    }

    /** Exponents add. */
    lemma TimesExp(i: nat, j: nat)
      requires Primitive() && i <= N
      ensures Times(Exp(i), Exp(j)) == Exp(i + j)
    {
      ExpNonZero(i);
      TimesPower(i, Exp(j));
      IterateSum(one, j, i);
      assert j + i == i + j;
    }

    lemma TimesCommutes(a: T, b: T)
      requires Primitive()
      ensures Times(a, b) == Times(b, a)
    {
      if a != zero && b != zero { assert Log(a) + Log(b) == Log(b) + Log(a); }
    }

    lemma TimesOne(a: T)
      requires Primitive()
      ensures Times(a, one) == a && Times(one, a) == a
    {
      assert Exp(0) == one;
      TimesPower(0, a);
      TimesCommutes(a, one);
    }

    lemma TimesAdd(a: T, b: T, c: T)
      requires Primitive()
      ensures Times(a, add(b, c)) == add(Times(a, b), Times(a, c))
    {
      if a != zero {
        var k := Log(a);
        TimesPower(k, b);
        TimesPower(k, c);
        TimesPower(k, add(b, c));
        IterateAdd(b, c, k);
      }
    }

    lemma TimesAssociates(a: T, b: T, c: T)
      requires Primitive()
      ensures Times(Times(a, b), c) == Times(a, Times(b, c))
    {
      if a != zero && c != zero {
        var i, k := Log(a), Log(c);
        TimesPower(i, b);
        TimesCommutes(Times(a, b), c);
        TimesPower(k, Times(a, b));
        TimesCommutes(b, c);
        TimesPower(k, b);
        TimesPower(i, Times(b, c));
        IterateSum(b, i, k);
        IterateSum(b, k, i);
        assert i + k == k + i;
      }
    }

    lemma TimesInverse(a: T)
      requires Primitive() && a != zero
      ensures Times(a, Inverse(a)) == one
    {
      var k := Log(a);
      TimesPower(k, Inverse(a));
      IterateSum(one, N - k, k);
    }

    ghost function Inverse(a: T): T
      requires Primitive()
    {
      if a == zero then zero else Exp(N - Log(a))
    }
  }

  /** The field a primitive generator builds. */
  ghost function FieldOf<T(!new)>(G: Generator<T>): (F: Field<T>)
    requires G.Primitive()
  {
    Field(G.zero, G.one, G.add, (a, b) => G.Times(a, b), a => G.Inverse(a))
  }

  lemma FieldLaws<T(!new)>(G: Generator<T>)
    requires G.Primitive()
    ensures FieldOf(G).Valid()
  {
    var F := FieldOf(G);
    forall a, b, c ensures F.add(F.add(a, b), c) == F.add(a, F.add(b, c)) { assert Pick(a, b, c); }
    forall a, b ensures F.mul(a, b) == F.mul(b, a) { G.TimesCommutes(a, b); }
    forall a ensures F.mul(a, F.one) == a { G.TimesOne(a); }
    forall a, b, c ensures F.mul(F.mul(a, b), c) == F.mul(a, F.mul(b, c)) { G.TimesAssociates(a, b, c); }
    forall a, b, c ensures F.mul(a, F.add(b, c)) == F.add(F.mul(a, b), F.mul(a, c)) { G.TimesAdd(a, b, c); }
    forall a | a != F.zero ensures F.mul(a, F.inv(a)) == F.one { G.TimesInverse(a); }
  }

  /** Powers in the field are the generator's powers. */
  lemma {:induction false} PowIsExp<T(!new)>(G: Generator<T>, k: nat)
    requires G.Primitive()
    ensures FieldOf(G).Pow(G.Exp(1), k) == G.Exp(k)
  {
    var F := FieldOf(G);
    if k > 0 {
      PowIsExp(G, k - 1);
      if 1 <= G.N { G.ExpNonZero(1); }
      G.TimesPower(1, G.Exp(k - 1));
      assert G.Iterate(G.Exp(k - 1), 1) == G.double(G.Iterate(G.Exp(k - 1), 0));
    }
  }
}
