/** A tensor mean depends neither on the order of the axes nor on the order of the scores within an axis. */
module TensorSymmetry {
  import opened Tensors

  // ---------------------------------------------------------------- sums of a function over a vector

  function SumOf(g: real -> real, v: Vector): real {
    if v == [] then 0.0 else g(v[0]) + SumOf(g, v[1..])
  }

  lemma {:induction false} SumOfConcat(g: real -> real, v: Vector, w: Vector)
    ensures SumOf(g, v + w) == SumOf(g, v) + SumOf(g, w)
  {
    if v == [] {
      assert v + w == w;
    } else {
      assert (v + w)[1..] == v[1..] + w;
      SumOfConcat(g, v[1..], w);
    }
  }

  lemma DropOne(before: Vector, x: real, after: Vector)
    ensures multiset(before + ([x] + after)) == multiset(before + after) + multiset{x}
  {}

  lemma WithoutOne(v: Vector, w: Vector, i: nat)
    requires v != [] && i < |w| && w[i] == v[0] && multiset(v) == multiset(w)
    ensures multiset(v[1..]) == multiset(w[..i] + w[i + 1..])
  {
    var first, before, after := v[0], w[..i], w[i + 1..];
    DropOne([], first, v[1..]);
    DropOne(before, first, after);
    assert v == [] + ([first] + v[1..]) && w == before + ([first] + after);
    assert [] + v[1..] == v[1..];
    CancelOne(multiset(v[1..]), multiset(before + after), first);
  }

  lemma CancelOne(m: multiset<real>, n: multiset<real>, x: real)
    requires m + multiset{x} == n + multiset{x}
    ensures m == n
  {
    assert (m + multiset{x}) - multiset{x} == m;
    assert (n + multiset{x}) - multiset{x} == n;
  }

  /** A sum does not depend on the order of its terms. */
  lemma {:induction false} SumOfReordered(g: real -> real, v: Vector, w: Vector)
    requires multiset(v) == multiset(w)
    ensures SumOf(g, v) == SumOf(g, w)
    decreases |v|
  {
    if v == [] {
      assert multiset(w) == multiset{};
      assert w == [];
    } else {
      assert v[0] in multiset(w);
      var i :| 0 <= i < |w| && w[i] == v[0];
      WithoutOne(v, w, i);
      SumOfReordered(g, v[1..], w[..i] + w[i + 1..]);
      assert w == w[..i] + ([w[i]] + w[i + 1..]);
      SumOfConcat(g, w[..i], [w[i]] + w[i + 1..]);
      SumOfConcat(g, w[..i], w[i + 1..]);
    }
  }

  ghost predicate Same(g: real -> real, h: real -> real) {
    forall x :: g(x) == h(x)
  }

  lemma {:induction false} SumOfSame(g: real -> real, h: real -> real, v: Vector)
    requires Same(g, h)
    ensures SumOf(g, v) == SumOf(h, v)
  {
    if v != [] {
      SumOfSame(g, h, v[1..]);
      var x := v[0];
      assert g(x) == h(x);
    }
  }

  // ---------------------------------------------------------------- two sums change places

  type Pair = (real, real) -> real

  function At(g: Pair, x: real): real -> real {
    y => g(x, y)
  }

  /** For every x, the sum over y in w. */
  function Sums(g: Pair, w: Vector): real -> real {
    x => SumOf(At(g, x), w)
  }

  function Turned(g: Pair): Pair {
    (y, x) => g(x, y)
  }

  lemma {:induction false} SumOfEmptySums(g: Pair, v: Vector)
    ensures SumOf(Sums(g, []), v) == 0.0
  {
    if v != [] {
      SumOfEmptySums(g, v[1..]);
    }
  }

  lemma {:induction false} FirstTerm(g: Pair, x: real, v: Vector, w: Vector)
    ensures SumOf(Sums(Turned(g), [x] + v), w) == SumOf(At(g, x), w) + SumOf(Sums(Turned(g), v), w)
  {
    if w != [] {
      FirstTerm(g, x, v, w[1..]);
      assert ([x] + v)[1..] == v;
      assert Sums(Turned(g), [x] + v)(w[0]) == g(x, w[0]) + Sums(Turned(g), v)(w[0]);
    }
  }

  lemma {:induction false} SumsTurn(g: Pair, v: Vector, w: Vector)
    ensures SumOf(Sums(g, w), v) == SumOf(Sums(Turned(g), v), w)
  {
    if v == [] {
      SumOfEmptySums(Turned(g), w);
    } else {
      SumsTurn(g, v[1..], w);
      FirstTerm(g, v[0], v[1..], w);
      assert [v[0]] + v[1..] == v;
    }
  }

  // ---------------------------------------------------------------- the tensor as three nested sums

  function Inner(f: Triple, x: real): Pair {
    (y, z) => f(x, y, z)
  }

  function Rows(f: Triple, c: Vector): Pair {
    (x, y) => Sum(OverC(f, x, y, c))
  }

  function Planes(f: Triple, b: Vector, c: Vector): real -> real {
    x => Sum(OverBC(f, x, b, c))
  }

  lemma {:induction false} RowIsSum(f: Triple, x: real, y: real, c: Vector)
    ensures Sum(OverC(f, x, y, c)) == SumOf(At(Inner(f, x), y), c)
  {
    if c != [] {
      RowIsSum(f, x, y, c[1..]);
    }
  }

  lemma {:induction false} PlaneIsSum(f: Triple, x: real, b: Vector, c: Vector)
    ensures Sum(OverBC(f, x, b, c)) == SumOf(At(Rows(f, c), x), b)
  {
    if b != [] {
      PlaneIsSum(f, x, b[1..], c);
      SumConcat(OverC(f, x, b[0], c), OverBC(f, x, b[1..], c));
    }
  }

  lemma {:induction false} TensorIsSum(f: Triple, a: Vector, b: Vector, c: Vector)
    ensures Sum(Tensor(f, a, b, c)) == SumOf(Planes(f, b, c), a)
  {
    if a != [] {
      TensorIsSum(f, a[1..], b, c);
      SumConcat(OverBC(f, a[0], b, c), Tensor(f, a[1..], b, c));
    }
  }

  // ---------------------------------------------------------------- the order within an axis

  lemma ReorderedRow(f: Triple, x: real, y: real, c: Vector, c': Vector)
    requires multiset(c) == multiset(c')
    ensures Rows(f, c)(x, y) == Rows(f, c')(x, y)
  {
    RowIsSum(f, x, y, c);
    RowIsSum(f, x, y, c');
    SumOfReordered(At(Inner(f, x), y), c, c');
  }

  lemma ReorderedPlane(f: Triple, x: real, b: Vector, c: Vector, b': Vector, c': Vector)
    requires multiset(b) == multiset(b') && multiset(c) == multiset(c')
    ensures Planes(f, b, c)(x) == Planes(f, b', c')(x)
  {
    PlaneIsSum(f, x, b, c);
    PlaneIsSum(f, x, b', c');
    SumOfReordered(At(Rows(f, c), x), b, b');
    forall y ensures At(Rows(f, c), x)(y) == At(Rows(f, c'), x)(y) {
      ReorderedRow(f, x, y, c, c');
    }
    SumOfSame(At(Rows(f, c), x), At(Rows(f, c'), x), b');
  }

  lemma ReorderedTensor(f: Triple, a: Vector, b: Vector, c: Vector, a': Vector, b': Vector, c': Vector)
    requires multiset(a) == multiset(a') && multiset(b) == multiset(b') && multiset(c) == multiset(c')
    ensures Sum(Tensor(f, a, b, c)) == Sum(Tensor(f, a', b', c'))
  {
    TensorIsSum(f, a, b, c);
    TensorIsSum(f, a', b', c');
    SumOfReordered(Planes(f, b, c), a, a');
    forall x ensures Planes(f, b, c)(x) == Planes(f, b', c')(x) {
      ReorderedPlane(f, x, b, c, b', c');
    }
    SumOfSame(Planes(f, b, c), Planes(f, b', c'), a');
  }

  // ---------------------------------------------------------------- the order of the axes

  /** The function does not depend on the order of its arguments. */
  ghost predicate Symmetric(f: Triple) {
    forall x, y, z :: f(x, y, z) == f(y, x, z) == f(x, z, y)
  }

  lemma OperatorsAreSymmetric(op: Operator, roots: Roots)
    ensures Symmetric(Operation(op, roots))
  {
    forall x, y, z
      ensures Combine(op, roots, x, y, z) == Combine(op, roots, y, x, z) == Combine(op, roots, x, z, y)
    {
      ProductCommutes(x, y, z);
    }
  }

  lemma ProductCommutes(x: real, y: real, z: real)
    ensures Product(x, y, z) == Product(y, x, z) == Product(x, z, y)
  {}

  lemma LastAxesOfPlane(f: Triple, x: real, b: Vector, c: Vector)
    requires Symmetric(f)
    ensures Planes(f, b, c)(x) == Planes(f, c, b)(x)
  {
    PlaneIsSums(f, x, b, c);
    PlaneIsSums(f, x, c, b);
    SumsTurn(Inner(f, x), b, c);
    forall z ensures Sums(Turned(Inner(f, x)), b)(z) == Sums(Inner(f, x), b)(z) {
      assert Same(At(Turned(Inner(f, x)), z), At(Inner(f, x), z));
      SumOfSame(At(Turned(Inner(f, x)), z), At(Inner(f, x), z), b);
    }
    SumOfSame(Sums(Turned(Inner(f, x)), b), Sums(Inner(f, x), b), c);
  }

  lemma PlaneIsSums(f: Triple, x: real, b: Vector, c: Vector)
    ensures Planes(f, b, c)(x) == SumOf(Sums(Inner(f, x), c), b)
  {
    PlaneIsSum(f, x, b, c);
    forall y ensures At(Rows(f, c), x)(y) == Sums(Inner(f, x), c)(y) {
      RowIsSum(f, x, y, c);
    }
    SumOfSame(At(Rows(f, c), x), Sums(Inner(f, x), c), b);
  }

  lemma LastAxes(f: Triple, a: Vector, b: Vector, c: Vector)
    requires Symmetric(f)
    ensures Sum(Tensor(f, a, b, c)) == Sum(Tensor(f, a, c, b))
  {
    TensorIsSum(f, a, b, c);
    TensorIsSum(f, a, c, b);
    forall x ensures Planes(f, b, c)(x) == Planes(f, c, b)(x) {
      LastAxesOfPlane(f, x, b, c);
    }
    SumOfSame(Planes(f, b, c), Planes(f, c, b), a);
  }

  lemma TensorIsSums(f: Triple, a: Vector, b: Vector, c: Vector)
    ensures Sum(Tensor(f, a, b, c)) == SumOf(Sums(Rows(f, c), b), a)
  {
    TensorIsSum(f, a, b, c);
    forall x ensures Planes(f, b, c)(x) == Sums(Rows(f, c), b)(x) {
      PlaneIsSum(f, x, b, c);
    }
    SumOfSame(Planes(f, b, c), Sums(Rows(f, c), b), a);
  }

  lemma {:induction false} SymmetricRow(f: Triple, x: real, y: real, c: Vector)
    requires Symmetric(f)
    ensures OverC(f, x, y, c) == OverC(f, y, x, c)
  {
    if c != [] {
      SymmetricRow(f, x, y, c[1..]);
      var z := c[0];
      assert f(x, y, z) == f(y, x, z);
    }
  }

  lemma FirstAxes(f: Triple, a: Vector, b: Vector, c: Vector)
    requires Symmetric(f)
    ensures Sum(Tensor(f, a, b, c)) == Sum(Tensor(f, b, a, c))
  {
    TensorIsSums(f, a, b, c);
    TensorIsSums(f, b, a, c);
    SumsTurn(Rows(f, c), a, b);
    forall y ensures Sums(Turned(Rows(f, c)), a)(y) == Sums(Rows(f, c), a)(y) {
      forall x ensures At(Turned(Rows(f, c)), y)(x) == At(Rows(f, c), y)(x) {
        SymmetricRow(f, x, y, c);
      }
      SumOfSame(At(Turned(Rows(f, c)), y), At(Rows(f, c), y), a);
    }
    SumOfSame(Sums(Turned(Rows(f, c)), a), Sums(Rows(f, c), a), b);
  }

  // ---------------------------------------------------------------- the means

  lemma SizesCommute(l: nat, m: nat, n: nat)
    ensures l * (m * n) == m * (l * n) == l * (n * m)
  {}

  lemma SameMean(op: Operator, roots: Roots, a: Vector, b: Vector, c: Vector, a': Vector, b': Vector, c': Vector)
    requires a != [] && b != [] && c != [] && a' != [] && b' != [] && c' != []
    requires var f := Operation(op, roots); Sum(Tensor(f, a, b, c)) == Sum(Tensor(f, a', b', c'))
    requires |a| * (|b| * |c|) == |a'| * (|b'| * |c'|)
    ensures TensorMean(op, roots, a, b, c) == TensorMean(op, roots, a', b', c')
  {
    LengthTensor(Operation(op, roots), a, b, c);
    LengthTensor(Operation(op, roots), a', b', c');
  }

  lemma AxesSwap(op: Operator, roots: Roots, a: Vector, b: Vector, c: Vector)
    requires a != [] && b != [] && c != []
    ensures TensorMean(op, roots, a, b, c) == TensorMean(op, roots, b, a, c) == TensorMean(op, roots, a, c, b)
  {
    OperatorsAreSymmetric(op, roots);
    SizesCommute(|a|, |b|, |c|);
    FirstAxes(Operation(op, roots), a, b, c);
    LastAxes(Operation(op, roots), a, b, c);
    SameMean(op, roots, a, b, c, b, a, c);
    SameMean(op, roots, a, b, c, a, c, b);
  }

  /** The mean is the same for every order of the axes. */
  lemma AxesCommute(op: Operator, roots: Roots, a: Vector, b: Vector, c: Vector)
    requires a != [] && b != [] && c != []
    ensures TensorMean(op, roots, a, b, c) == TensorMean(op, roots, a, c, b) == TensorMean(op, roots, b, a, c)
            == TensorMean(op, roots, b, c, a) == TensorMean(op, roots, c, a, b) == TensorMean(op, roots, c, b, a)
  {
    AxesSwap(op, roots, a, b, c);
    AxesSwap(op, roots, b, a, c);
    AxesSwap(op, roots, a, c, b);
    AxesSwap(op, roots, c, a, b);
  }

  /** The mean is the same for every order of the scores within each axis. */
  lemma OrderWithinAxes(op: Operator, roots: Roots, a: Vector, b: Vector, c: Vector,
                        a': Vector, b': Vector, c': Vector)
    requires a != [] && b != [] && c != []
    requires multiset(a) == multiset(a') && multiset(b) == multiset(b') && multiset(c) == multiset(c')
    ensures a' != [] && b' != [] && c' != []
    ensures TensorMean(op, roots, a, b, c) == TensorMean(op, roots, a', b', c')
  {
    SameLength(a, a');
    SameLength(b, b');
    SameLength(c, c');
    ReorderedTensor(Operation(op, roots), a, b, c, a', b', c');
    SameMean(op, roots, a, b, c, a', b', c');
  }

  lemma SameLength(v: Vector, w: Vector)
    requires multiset(v) == multiset(w)
    ensures |v| == |w|
  {
    assert |multiset(v)| == |v| && |multiset(w)| == |w|;
  }
}
