/** Tensor means over three score vectors, in exact arithmetic. */
module Tensors {
  import opened Arithmetic

  type Vector = seq<real>

  datatype Operator = Arithmetic | Geometric | Rms

  function Sum(values: Vector): real {
    if values == [] then 0.0 else values[0] + Sum(values[1..])
  }

  function Mean(values: Vector): real
    requires values != []
  {
    Sum(values) / |values| as real
  }

  /** Cube and square roots of non-negative numbers. */
  datatype Roots = Roots(cube: real -> real, square: real -> real)

  ghost predicate IsCubeRoot(roots: Roots, x: real) {
    roots.cube(x) >= 0.0 && roots.cube(x) * roots.cube(x) * roots.cube(x) == x
  }

  ghost predicate IsSquareRoot(roots: Roots, x: real) {
    roots.square(x) >= 0.0 && roots.square(x) * roots.square(x) == x
  }

  /** The roots satisfy their defining equations. */
  ghost predicate Lawful(roots: Roots) {
    && (forall x: real :: x >= 0.0 ==> IsCubeRoot(roots, x))
    && (forall x: real :: x >= 0.0 ==> IsSquareRoot(roots, x))
  }

  ghost predicate NonNegative(v: Vector) {
    forall i :: 0 <= i < |v| ==> v[i] >= 0.0
  }

  function Product(x: real, y: real, z: real): real {
    x * y * z
  }

  function Combine(op: Operator, roots: Roots, x: real, y: real, z: real): real {
    match op
    case Arithmetic => (x + y + z) / 3.0
    case Geometric => roots.cube(Product(x, y, z))
    case Rms => roots.square((x * x + y * y + z * z) / 3.0)
  }

  /** The operator as the function the comprehension applies. */
  function Operation(op: Operator, roots: Roots): Triple {
    (x, y, z) => Combine(op, roots, x, y, z)
  }

  type Triple = (real, real, real) -> real

  // ---------------------------------------------------------------- the comprehension, one loop at a time

  function OverC(f: Triple, x: real, y: real, c: Vector): Vector {
    if c == [] then [] else [f(x, y, c[0])] + OverC(f, x, y, c[1..])
  }

  function OverBC(f: Triple, x: real, b: Vector, c: Vector): Vector {
    if b == [] then [] else OverC(f, x, b[0], c) + OverBC(f, x, b[1..], c)
  }

  /** The list of combined values for x in a, for y in b, for z in c. */
  function Tensor(f: Triple, a: Vector, b: Vector, c: Vector): Vector {
    if a == [] then [] else OverBC(f, a[0], b, c) + Tensor(f, a[1..], b, c)
  }

  lemma {:induction false} SumConcat(s: Vector, t: Vector)
    ensures Sum(s + t) == Sum(s) + Sum(t)
  {
    if s == [] {
      assert s + t == t;
    } else {
      assert (s + t)[1..] == s[1..] + t;
      SumConcat(s[1..], t);
    }
  }

  lemma {:induction false} LengthC(f: Triple, x: real, y: real, c: Vector)
    ensures |OverC(f, x, y, c)| == |c|
  {
    if c != [] {
      LengthC(f, x, y, c[1..]);
    }
  }

  lemma {:induction false} LengthBC(f: Triple, x: real, b: Vector, c: Vector)
    ensures |OverBC(f, x, b, c)| == |b| * |c|
  {
    if b != [] {
      LengthC(f, x, b[0], c);
      LengthBC(f, x, b[1..], c);
      OneMore(|b|, |c|);
    }
  }

  lemma {:induction false} LengthTensor(f: Triple, a: Vector, b: Vector, c: Vector)
    ensures |Tensor(f, a, b, c)| == |a| * (|b| * |c|)
  {
    if a != [] {
      LengthBC(f, a[0], b, c);
      LengthTensor(f, a[1..], b, c);
      OneMore(|a|, |b| * |c|);
    }
  }

  lemma {:induction false} AtC(f: Triple, x: real, y: real, c: Vector, k: nat)
    requires k < |c|
    ensures |OverC(f, x, y, c)| == |c| && OverC(f, x, y, c)[k] == f(x, y, c[k])
  {
    LengthC(f, x, y, c);
    if k > 0 {
      AtC(f, x, y, c[1..], k - 1);
    }
  }

  lemma {:induction false} AtBC(f: Triple, x: real, b: Vector, c: Vector, j: nat, k: nat)
    requires j < |b| && k < |c|
    ensures 0 <= j * |c| + k < |OverBC(f, x, b, c)|
    ensures OverBC(f, x, b, c)[j * |c| + k] == f(x, b[j], c[k])
  {
    LengthC(f, x, b[0], c);
    if j == 0 {
      AtC(f, x, b[0], c, k);
    } else {
      AtBC(f, x, b[1..], c, j - 1, k);
      OneMore(j, |c|);
    }
  }

  /** The value of the i-th, j-th and k-th scores stands at place i, j, k of the nested loops. */
  lemma {:induction false} TensorAt(f: Triple, a: Vector, b: Vector, c: Vector, i: nat, j: nat, k: nat)
    requires i < |a| && j < |b| && k < |c|
    ensures 0 <= i * (|b| * |c|) + (j * |c| + k) < |Tensor(f, a, b, c)|
    ensures Tensor(f, a, b, c)[i * (|b| * |c|) + (j * |c| + k)] == f(a[i], b[j], c[k])
  {
    LengthBC(f, a[0], b, c);
    if i == 0 {
      AtBC(f, a[0], b, c, j, k);
    } else {
      TensorAt(f, a[1..], b, c, i - 1, j, k);
      OneMore(i, |b| * |c|);
    }
  }

  lemma PositiveProduct(i: nat, j: nat, k: nat)
    requires i > 0 && j > 0 && k > 0
    ensures i * (j * k) > 0
  {
    assert j * k > 0;
  }

  lemma {:induction false} RealProduct(i: nat, j: nat)
    ensures (i * j) as real == (i as real) * (j as real)
  {
    if i > 0 {
      RealProduct(i - 1, j);
      OneMore(i, j);
      var x, y := i as real, j as real;
      assert x * y == y + (x - 1.0) * y;
    }
  }

  lemma TensorIsNonempty(f: Triple, a: Vector, b: Vector, c: Vector)
    requires a != [] && b != [] && c != []
    ensures Tensor(f, a, b, c) != []
  {
    LengthTensor(f, a, b, c);
    PositiveProduct(|a|, |b|, |c|);
  }

  lemma SizeAsReal(i: nat, j: nat, k: nat)
    requires i > 0 && j > 0 && k > 0
    ensures i * (j * k) > 0
    ensures (i * (j * k)) as real == (i as real) * ((j as real) * (k as real))
  {
    PositiveProduct(i, j, k);
    RealProduct(j, k);
    RealProduct(i, j * k);
  }

  // ---------------------------------------------------------------- the three means of three numbers

  lemma SquareIsNonNegative(t: real)
    ensures t * t >= 0.0
  {
    if t < 0.0 {
      assert t * t == (-t) * (-t);
    }
  }

  lemma PositiveTimes(s: real, t: real)
    requires s > 0.0 && t > 0.0
    ensures s * t > 0.0
  {}

  lemma SameFactor(s: real, t: real, k: real)
    requires s == t
    ensures s * k == t * k && k * s == k * t
  {}

  lemma SquareOrder(p: real, q: real)
    requires p >= 0.0 && q >= 0.0 && p * p <= q * q
    ensures p <= q
  {
    if p > q {
      PositiveTimes(p - q, p + q);
      DifferenceOfSquares(p, q);
    }
  }

  lemma DifferenceOfSquares(p: real, q: real)
    ensures (p - q) * (p + q) == p * p - q * q
  {}

  lemma CubeOrder(p: real, q: real)
    requires p >= 0.0 && q > p
    ensures p * p * p < q * q * q
  {
    PositiveTimes(q, q);
    SquareIsNonNegative(p);
    assert q * p >= 0.0;
    PositiveTimes(q - p, q * q + q * p + p * p);
    DifferenceOfCubes(p, q);
  }

  lemma DifferenceOfCubes(p: real, q: real)
    ensures (q - p) * (q * q + q * p + p * p) == q * q * q - p * p * p
  {}

  lemma CubeInjective(p: real, q: real)
    requires p >= 0.0 && q >= 0.0 && p * p * p == q * q * q
    ensures p == q
  {
    if p < q {
      CubeOrder(p, q);
    } else if q < p {
      CubeOrder(q, p);
    }
  }

  lemma CubeOfProduct(p: real, q: real)
    ensures (p * q) * (p * q) * (p * q) == (p * p * p) * (q * q * q)
  {}

  /** The cube root of a product of two is the product of the cube roots. */
  lemma CubeRootOfPair(roots: Roots, x: real, y: real)
    requires Lawful(roots) && x >= 0.0 && y >= 0.0
    ensures x * y >= 0.0 && roots.cube(x * y) == roots.cube(x) * roots.cube(y)
  {
    assert x * y >= 0.0;
    assert IsCubeRoot(roots, x) && IsCubeRoot(roots, y) && IsCubeRoot(roots, x * y);
    var p, q := roots.cube(x), roots.cube(y);
    assert p * q >= 0.0;
    CubeOfProduct(p, q);
    CubeInjective(roots.cube(x * y), p * q);
  }

  lemma CubeRootOfProduct(roots: Roots, x: real, y: real, z: real)
    requires Lawful(roots) && x >= 0.0 && y >= 0.0 && z >= 0.0
    ensures roots.cube(Product(x, y, z)) == Product(roots.cube(x), roots.cube(y), roots.cube(z))
  {
    var w := x * y;
    CubeRootOfPair(roots, x, y);
    CubeRootOfPair(roots, w, z);
    assert Product(x, y, z) == w * z;
    SameFactor(roots.cube(w), roots.cube(x) * roots.cube(y), roots.cube(z));
  }

  /** pqr is at most the mean of the cubes. */
  lemma ThreeTermInequality(p: real, q: real, r: real)
    requires p >= 0.0 && q >= 0.0 && r >= 0.0
    ensures 3.0 * (p * q * r) <= p * p * p + q * q * q + r * r * r
  {
    var g := (p - q) * (p - q) + (q - r) * (q - r) + (r - p) * (r - p);
    assert g >= 0.0 by {
      SquareIsNonNegative(p - q);
      SquareIsNonNegative(q - r);
      SquareIsNonNegative(r - p);
    }
    assert (p + q + r) * g >= 0.0;
    FactoredCubes(p, q, r);
  }

  lemma FactoredCubes(p: real, q: real, r: real)
    ensures (p + q + r) * ((p - q) * (p - q) + (q - r) * (q - r) + (r - p) * (r - p)) ==
            2.0 * (p * p * p + q * q * q + r * r * r - 3.0 * (p * q * r))
  {}

  lemma GeometricBelowArithmetic(roots: Roots, x: real, y: real, z: real)
    requires Lawful(roots) && x >= 0.0 && y >= 0.0 && z >= 0.0
    ensures Combine(Geometric, roots, x, y, z) <= Combine(Arithmetic, roots, x, y, z)
  {
    CubeRootOfProduct(roots, x, y, z);
    assert IsCubeRoot(roots, x) && IsCubeRoot(roots, y) && IsCubeRoot(roots, z);
    ThreeTermInequality(roots.cube(x), roots.cube(y), roots.cube(z));
  }

  lemma ArithmeticBelowRms(roots: Roots, x: real, y: real, z: real)
    requires Lawful(roots) && x >= 0.0 && y >= 0.0 && z >= 0.0
    ensures Combine(Arithmetic, roots, x, y, z) <= Combine(Rms, roots, x, y, z)
  {
    var square := (x * x + y * y + z * z) / 3.0;
    MeanSquare(x, y, z);
    assert IsSquareRoot(roots, square);
    SquareOrder((x + y + z) / 3.0, roots.square(square));
  }

  lemma MeanSquare(x: real, y: real, z: real)
    ensures (x * x + y * y + z * z) / 3.0 >= 0.0
    ensures ((x + y + z) / 3.0) * ((x + y + z) / 3.0) <= (x * x + y * y + z * z) / 3.0
  {
    SquareIsNonNegative(x);
    SquareIsNonNegative(y);
    SquareIsNonNegative(z);
    SquareIsNonNegative(x - y);
    SquareIsNonNegative(y - z);
    SquareIsNonNegative(z - x);
    SquareOfSum(x, y, z);
    NinthOfSquare(x + y + z);
  }

  lemma SquareOfSum(x: real, y: real, z: real)
    ensures (x + y + z) * (x + y + z) + (x - y) * (x - y) + (y - z) * (y - z) + (z - x) * (z - x) ==
            3.0 * (x * x + y * y + z * z)
  {}

  lemma NinthOfSquare(s: real)
    ensures (s / 3.0) * (s / 3.0) == s * s / 9.0
  {}

  /** One function is below another on non-negative numbers. */
  ghost predicate Below(f: Triple, g: Triple) {
    forall x, y, z :: x >= 0.0 && y >= 0.0 && z >= 0.0 ==> f(x, y, z) <= g(x, y, z)
  }

  lemma OperatorsAreOrdered(roots: Roots)
    requires Lawful(roots)
    ensures Below(Operation(Geometric, roots), Operation(Arithmetic, roots))
    ensures Below(Operation(Arithmetic, roots), Operation(Rms, roots))
  {
    forall x: real, y: real, z: real | x >= 0.0 && y >= 0.0 && z >= 0.0
      ensures Operation(Geometric, roots)(x, y, z) <= Operation(Arithmetic, roots)(x, y, z)
      ensures Operation(Arithmetic, roots)(x, y, z) <= Operation(Rms, roots)(x, y, z)
    {
      GeometricBelowArithmetic(roots, x, y, z);
      ArithmeticBelowRms(roots, x, y, z);
    }
  }

  lemma {:induction false} BelowC(f: Triple, g: Triple, x: real, y: real, c: Vector)
    requires Below(f, g) && x >= 0.0 && y >= 0.0 && NonNegative(c)
    ensures Sum(OverC(f, x, y, c)) <= Sum(OverC(g, x, y, c))
  {
    if c != [] {
      BelowC(f, g, x, y, c[1..]);
    }
  }

  lemma {:induction false} BelowBC(f: Triple, g: Triple, x: real, b: Vector, c: Vector)
    requires Below(f, g) && x >= 0.0 && NonNegative(b) && NonNegative(c)
    ensures Sum(OverBC(f, x, b, c)) <= Sum(OverBC(g, x, b, c))
  {
    if b != [] {
      BelowC(f, g, x, b[0], c);
      BelowBC(f, g, x, b[1..], c);
      SumConcat(OverC(f, x, b[0], c), OverBC(f, x, b[1..], c));
      SumConcat(OverC(g, x, b[0], c), OverBC(g, x, b[1..], c));
    }
  }

  lemma {:induction false} BelowTensor(f: Triple, g: Triple, a: Vector, b: Vector, c: Vector)
    requires Below(f, g) && NonNegative(a) && NonNegative(b) && NonNegative(c)
    ensures Sum(Tensor(f, a, b, c)) <= Sum(Tensor(g, a, b, c))
  {
    if a != [] {
      BelowBC(f, g, a[0], b, c);
      BelowTensor(f, g, a[1..], b, c);
      SumConcat(OverBC(f, a[0], b, c), Tensor(f, a[1..], b, c));
      SumConcat(OverBC(g, a[0], b, c), Tensor(g, a[1..], b, c));
    }
  }

  lemma DivideOrder(s: real, t: real, n: real)
    requires n > 0.0 && s <= t
    ensures s / n <= t / n
  {}

  lemma MeansFollow(f: Triple, g: Triple, a: Vector, b: Vector, c: Vector)
    requires Below(f, g) && a != [] && b != [] && c != []
    requires NonNegative(a) && NonNegative(b) && NonNegative(c)
    ensures Tensor(f, a, b, c) != [] && Tensor(g, a, b, c) != []
    ensures Mean(Tensor(f, a, b, c)) <= Mean(Tensor(g, a, b, c))
  {
    BelowTensor(f, g, a, b, c);
    TensorIsNonempty(f, a, b, c);
    TensorIsNonempty(g, a, b, c);
    LengthTensor(f, a, b, c);
    LengthTensor(g, a, b, c);
    DivideOrder(Sum(Tensor(f, a, b, c)), Sum(Tensor(g, a, b, c)), |Tensor(f, a, b, c)| as real);
  }

  function TensorMean(op: Operator, roots: Roots, a: Vector, b: Vector, c: Vector): real
    requires a != [] && b != [] && c != []
  {
    TensorIsNonempty(Operation(op, roots), a, b, c);
    Mean(Tensor(Operation(op, roots), a, b, c))
  }

  /** The root mean square of three numbers: three times its square is the sum of their squares. */
  lemma RmsSquare(roots: Roots, x: real, y: real, z: real)
    requires Lawful(roots)
    ensures var r := Combine(Rms, roots, x, y, z); r >= 0.0 && 3.0 * (r * r) == x * x + y * y + z * z
  {
    MeanSquare(x, y, z);
    assert IsSquareRoot(roots, (x * x + y * y + z * z) / 3.0);
  }

  /** Geometric <= arithmetic <= root mean square, for all nonempty non-negative vectors. */
  lemma TensorMeansAreOrdered(roots: Roots, a: Vector, b: Vector, c: Vector)
    requires Lawful(roots) && a != [] && b != [] && c != []
    requires NonNegative(a) && NonNegative(b) && NonNegative(c)
    ensures TensorMean(Geometric, roots, a, b, c) <= TensorMean(Arithmetic, roots, a, b, c)
    ensures TensorMean(Arithmetic, roots, a, b, c) <= TensorMean(Rms, roots, a, b, c)
  {
    OperatorsAreOrdered(roots);
    MeansFollow(Operation(Geometric, roots), Operation(Arithmetic, roots), a, b, c);
    MeansFollow(Operation(Arithmetic, roots), Operation(Rms, roots), a, b, c);
  }

  // ---------------------------------------------------------------- the arithmetic tensor factorizes

  function ArithmeticFactorized(a: Vector, b: Vector, c: Vector): real
    requires a != [] && b != [] && c != []
  {
    (Mean(a) + Mean(b) + Mean(c)) / 3.0
  }

  /** Three times the function is the sum of its arguments. */
  ghost predicate ThirdOfSum(f: Triple) {
    forall x, y, z :: 3.0 * f(x, y, z) == x + y + z
  }

  /** n copies of w, added up. */
  function Repeated(n: nat, w: real): real {
    if n == 0 then 0.0 else w + Repeated(n - 1, w)
  }

  ghost predicate AddsAt(g: real -> real, s: real, t: real) {
    g(s + t) == g(s) + g(t)
  }

  ghost predicate Additive(g: real -> real) {
    g(0.0) == 0.0 && forall s, t :: AddsAt(g, s, t)
  }

  lemma {:induction false} RepeatedAdds(n: nat, s: real, t: real)
    ensures Repeated(n, s + t) == Repeated(n, s) + Repeated(n, t)
  {
    if n > 0 {
      RepeatedAdds(n - 1, s, t);
    }
  }

  lemma {:induction false} RepeatedIsProduct(n: nat, w: real)
    ensures Repeated(n, w) == (n as real) * w
  {
    if n > 0 {
      RepeatedIsProduct(n - 1, w);
      OneFewer(n as real, w);
    }
  }

  lemma OneFewer(n: real, w: real)
    ensures w + (n - 1.0) * w == n * w
  {}

  /** The innermost loop adds up to g(y) + w. */
  ghost predicate InnerSums(f: Triple, x: real, c: Vector, g: real -> real, w: real) {
    forall y :: 3.0 * Sum(OverC(f, x, y, c)) == g(y) + w
  }

  /** The two inner loops add up to g(x) + w. */
  ghost predicate MiddleSums(f: Triple, b: Vector, c: Vector, g: real -> real, w: real) {
    forall x :: 3.0 * Sum(OverBC(f, x, b, c)) == g(x) + w
  }

  lemma {:induction false} ArithmeticC(f: Triple, x: real, y: real, c: Vector)
    requires ThirdOfSum(f)
    ensures 3.0 * Sum(OverC(f, x, y, c)) == Repeated(|c|, x + y) + Sum(c)
  {
    if c != [] {
      ArithmeticC(f, x, y, c[1..]);
    }
  }

  lemma {:induction false} ArithmeticBC(f: Triple, x: real, b: Vector, c: Vector, g: real -> real, w: real)
    requires InnerSums(f, x, c, g, w) && Additive(g)
    ensures 3.0 * Sum(OverBC(f, x, b, c)) == g(Sum(b)) + Repeated(|b|, w)
  {
    if b != [] {
      ArithmeticBC(f, x, b[1..], c, g, w);
      SumConcat(OverC(f, x, b[0], c), OverBC(f, x, b[1..], c));
      assert AddsAt(g, b[0], Sum(b[1..]));
    }
  }

  lemma {:induction false} ArithmeticABC(f: Triple, a: Vector, b: Vector, c: Vector, g: real -> real, w: real)
    requires MiddleSums(f, b, c, g, w) && Additive(g)
    ensures 3.0 * Sum(Tensor(f, a, b, c)) == g(Sum(a)) + Repeated(|a|, w)
  {
    if a != [] {
      ArithmeticABC(f, a[1..], b, c, g, w);
      SumConcat(OverBC(f, a[0], b, c), Tensor(f, a[1..], b, c));
      assert AddsAt(g, a[0], Sum(a[1..]));
    }
  }

  /** Repetition by two counts, one after the other. */
  function Copies(n: nat): real -> real {
    w => Repeated(n, w)
  }

  function CopiesOfCopies(m: nat, n: nat): real -> real {
    w => Repeated(m, Repeated(n, w))
  }

  lemma {:induction false} RepeatedZero(n: nat)
    ensures Repeated(n, 0.0) == 0.0
  {
    if n > 0 {
      RepeatedZero(n - 1);
    }
  }

  lemma CopiesAdd(m: nat, n: nat)
    ensures Additive(Copies(n)) && Additive(CopiesOfCopies(m, n))
  {
    RepeatedZero(m);
    RepeatedZero(n);
    forall s, t ensures AddsAt(Copies(n), s, t) && AddsAt(CopiesOfCopies(m, n), s, t) {
      RepeatedAdds(n, s, t);
      RepeatedAdds(m, Repeated(n, s), Repeated(n, t));
    }
  }

  lemma InnerArithmetic(f: Triple, x: real, c: Vector)
    requires ThirdOfSum(f)
    ensures InnerSums(f, x, c, Copies(|c|), Repeated(|c|, x) + Sum(c))
  {
    forall y ensures 3.0 * Sum(OverC(f, x, y, c)) == Copies(|c|)(y) + (Repeated(|c|, x) + Sum(c)) {
      ArithmeticC(f, x, y, c);
      RepeatedAdds(|c|, x, y);
    }
  }

  /** The rest of a row, once the part that depends on x is taken out. */
  function RowRest(b: Vector, c: Vector): real {
    Repeated(|c|, Sum(b)) + Repeated(|b|, Sum(c))
  }

  lemma OneRow(f: Triple, x: real, b: Vector, c: Vector)
    requires ThirdOfSum(f)
    ensures 3.0 * Sum(OverBC(f, x, b, c)) == Repeated(|b|, Repeated(|c|, x)) + RowRest(b, c)
  {
    InnerArithmetic(f, x, c);
    CopiesAdd(|b|, |c|);
    ArithmeticBC(f, x, b, c, Copies(|c|), Repeated(|c|, x) + Sum(c));
    RepeatedAdds(|b|, Repeated(|c|, x), Sum(c));
  }

  lemma MiddleArithmetic(f: Triple, b: Vector, c: Vector)
    requires ThirdOfSum(f)
    ensures MiddleSums(f, b, c, CopiesOfCopies(|b|, |c|), RowRest(b, c))
  {
    forall x ensures 3.0 * Sum(OverBC(f, x, b, c)) == CopiesOfCopies(|b|, |c|)(x) + RowRest(b, c) {
      OneRow(f, x, b, c);
    }
  }

  lemma QuotientIs(x: real, n: real, q: real)
    requires n > 0.0 && n * q == x
    ensures x / n == q
  {}

  lemma QuotientBack(x: real, n: real)
    requires n > 0.0
    ensures n * (x / n) == x
  {}

  lemma ScaledThird(k: real, w: real)
    ensures 3.0 * (k * (w / 3.0)) == k * w
  {}

  lemma WeightedMeans(l: real, m: real, n: real, x: real, y: real, z: real)
    ensures (l * (m * n)) * (x + y + z) == m * (n * (l * x)) + l * (n * (m * y) + m * (n * z))
  {}

  lemma MeanOfMeans(total: real, l: real, m: real, n: real, s: real, t: real, u: real)
    requires l > 0.0 && m > 0.0 && n > 0.0 && l * (m * n) > 0.0
    requires 3.0 * total == m * (n * s) + l * (n * t + m * u)
    ensures total / (l * (m * n)) == (s / l + t / m + u / n) / 3.0
  {
    QuotientBack(s, l);
    QuotientBack(t, m);
    QuotientBack(u, n);
    ThirdOfMeans(total, l, m, n, s / l, t / m, u / n);
  }

  lemma ThirdOfMeans(total: real, l: real, m: real, n: real, x: real, y: real, z: real)
    requires l * (m * n) > 0.0
    requires 3.0 * total == m * (n * (l * x)) + l * (n * (m * y) + m * (n * z))
    ensures total / (l * (m * n)) == (x + y + z) / 3.0
  {
    WeightedMeans(l, m, n, x, y, z);
    ScaledThird(l * (m * n), x + y + z);
    QuotientIs(total, l * (m * n), (x + y + z) / 3.0);
  }

  lemma ArithmeticSum(f: Triple, a: Vector, b: Vector, c: Vector)
    requires ThirdOfSum(f)
    ensures 3.0 * Sum(Tensor(f, a, b, c)) == Repeated(|b|, Repeated(|c|, Sum(a))) + Repeated(|a|, RowRest(b, c))
  {
    MiddleArithmetic(f, b, c);
    CopiesAdd(|b|, |c|);
    ArithmeticABC(f, a, b, c, CopiesOfCopies(|b|, |c|), RowRest(b, c));
  }

  function ScaledSums(l: nat, m: nat, n: nat, s: real, t: real, u: real): real {
    Repeated(m, Repeated(n, s)) + Repeated(l, Repeated(n, t) + Repeated(m, u))
  }

  lemma ScaledSumsAreProducts(l: nat, m: nat, n: nat, s: real, t: real, u: real)
    ensures ScaledSums(l, m, n, s, t, u) ==
            (m as real) * ((n as real) * s) + (l as real) * ((n as real) * t + (m as real) * u)
  {
    RepeatedIsProduct(n, s);
    RepeatedIsProduct(m, Repeated(n, s));
    RepeatedIsProduct(n, t);
    RepeatedIsProduct(m, u);
    RepeatedIsProduct(l, Repeated(n, t) + Repeated(m, u));
  }

  lemma MeanOfScaledSums(total: real, size: nat, l: nat, m: nat, n: nat, s: real, t: real, u: real)
    requires l > 0 && m > 0 && n > 0 && 3.0 * total == ScaledSums(l, m, n, s, t, u)
    requires size == l * (m * n)
    ensures size > 0 && total / size as real == (s / l as real + t / m as real + u / n as real) / 3.0
  {
    SizeAsReal(l, m, n);
    ScaledSumsAreProducts(l, m, n, s, t, u);
    MeanOfMeans(total, l as real, m as real, n as real, s, t, u);
  }

  lemma ArithmeticMean(f: Triple, a: Vector, b: Vector, c: Vector)
    requires ThirdOfSum(f) && a != [] && b != [] && c != []
    ensures Tensor(f, a, b, c) != []
    ensures Sum(Tensor(f, a, b, c)) / |Tensor(f, a, b, c)| as real ==
            (Sum(a) / |a| as real + Sum(b) / |b| as real + Sum(c) / |c| as real) / 3.0
  {
    ArithmeticSum(f, a, b, c);
    LengthTensor(f, a, b, c);
    MeanOfScaledSums(Sum(Tensor(f, a, b, c)), |Tensor(f, a, b, c)|, |a|, |b|, |c|, Sum(a), Sum(b), Sum(c));
  }

  /** The triple loop of arithmetic means is the mean of the three means. */
  lemma ArithmeticFactorizes(roots: Roots, a: Vector, b: Vector, c: Vector)
    requires a != [] && b != [] && c != []
    ensures TensorMean(Arithmetic, roots, a, b, c) == ArithmeticFactorized(a, b, c)
  {
    assert ThirdOfSum(Operation(Arithmetic, roots));
    ArithmeticMean(Operation(Arithmetic, roots), a, b, c);
  }

  // ---------------------------------------------------------------- the geometric tensor factorizes

  function CubeRoots(roots: Roots, v: Vector): Vector {
    if v == [] then [] else [roots.cube(v[0])] + CubeRoots(roots, v[1..])
  }

  function GeometricFactorized(roots: Roots, a: Vector, b: Vector, c: Vector): real
    requires a != [] && b != [] && c != []
  {
    Product(Sum(CubeRoots(roots, a)) / |a| as real, Sum(CubeRoots(roots, b)) / |b| as real,
            Sum(CubeRoots(roots, c)) / |c| as real)
  }

  /** The function is the product of the cube roots on non-negative numbers. */
  ghost predicate ProductOfRoots(f: Triple, roots: Roots) {
    forall x, y, z :: x >= 0.0 && y >= 0.0 && z >= 0.0 ==>
                        f(x, y, z) == Product(roots.cube(x), roots.cube(y), roots.cube(z))
  }

  /** The innermost loop adds up to g(the root of y). */
  ghost predicate InnerProducts(f: Triple, roots: Roots, x: real, c: Vector, g: real -> real) {
    forall y :: y >= 0.0 ==> Sum(OverC(f, x, y, c)) == g(roots.cube(y))
  }

  /** The two inner loops add up to g(the root of x). */
  ghost predicate MiddleProducts(f: Triple, roots: Roots, b: Vector, c: Vector, g: real -> real) {
    forall x :: x >= 0.0 ==> Sum(OverBC(f, x, b, c)) == g(roots.cube(x))
  }

  ghost predicate Values(f: Triple, roots: Roots, x: real, y: real, g: real -> real) {
    forall z :: z >= 0.0 ==> f(x, y, z) == g(roots.cube(z))
  }

  lemma {:induction false} GeometricC(f: Triple, roots: Roots, x: real, y: real, c: Vector, g: real -> real)
    requires Values(f, roots, x, y, g) && Additive(g) && NonNegative(c)
    ensures Sum(OverC(f, x, y, c)) == g(Sum(CubeRoots(roots, c)))
  {
    if c != [] {
      GeometricC(f, roots, x, y, c[1..], g);
      assert AddsAt(g, roots.cube(c[0]), Sum(CubeRoots(roots, c[1..])));
    }
  }

  lemma {:induction false} GeometricBC(f: Triple, roots: Roots, x: real, b: Vector, c: Vector, g: real -> real)
    requires InnerProducts(f, roots, x, c, g) && Additive(g) && NonNegative(b)
    ensures Sum(OverBC(f, x, b, c)) == g(Sum(CubeRoots(roots, b)))
  {
    if b != [] {
      GeometricBC(f, roots, x, b[1..], c, g);
      SumConcat(OverC(f, x, b[0], c), OverBC(f, x, b[1..], c));
      assert AddsAt(g, roots.cube(b[0]), Sum(CubeRoots(roots, b[1..])));
    }
  }

  lemma {:induction false} GeometricABC(f: Triple, roots: Roots, a: Vector, b: Vector, c: Vector, g: real -> real)
    requires MiddleProducts(f, roots, b, c, g) && Additive(g) && NonNegative(a)
    ensures Sum(Tensor(f, a, b, c)) == g(Sum(CubeRoots(roots, a)))
  {
    if a != [] {
      GeometricABC(f, roots, a[1..], b, c, g);
      SumConcat(OverBC(f, a[0], b, c), Tensor(f, a[1..], b, c));
      assert AddsAt(g, roots.cube(a[0]), Sum(CubeRoots(roots, a[1..])));
    }
  }

  /** The product as a function of one factor. */
  function First(t: real, u: real): real -> real {
    s => Product(s, t, u)
  }

  function Second(s: real, u: real): real -> real {
    t => Product(s, t, u)
  }

  function Third(s: real, t: real): real -> real {
    u => Product(s, t, u)
  }

  lemma FactorsAdd(p: real, q: real)
    ensures Additive(First(p, q)) && Additive(Second(p, q)) && Additive(Third(p, q))
  {
    forall s, t ensures AddsAt(First(p, q), s, t) && AddsAt(Second(p, q), s, t) && AddsAt(Third(p, q), s, t) {
      ProductAdds(p, q, s, t);
    }
  }

  lemma ProductAdds(p: real, q: real, s: real, t: real)
    ensures Product(s + t, p, q) == Product(s, p, q) + Product(t, p, q)
    ensures Product(p, s + t, q) == Product(p, s, q) + Product(p, t, q)
    ensures Product(p, q, s + t) == Product(p, q, s) + Product(p, q, t)
  {}

  lemma InnerGeometric(f: Triple, roots: Roots, x: real, c: Vector)
    requires ProductOfRoots(f, roots) && x >= 0.0 && NonNegative(c)
    ensures InnerProducts(f, roots, x, c, Second(roots.cube(x), Sum(CubeRoots(roots, c))))
  {
    forall y: real | y >= 0.0
      ensures Sum(OverC(f, x, y, c)) == Second(roots.cube(x), Sum(CubeRoots(roots, c)))(roots.cube(y))
    {
      FactorsAdd(roots.cube(x), roots.cube(y));
      GeometricC(f, roots, x, y, c, Third(roots.cube(x), roots.cube(y)));
    }
  }

  lemma MiddleGeometric(f: Triple, roots: Roots, b: Vector, c: Vector)
    requires ProductOfRoots(f, roots) && NonNegative(b) && NonNegative(c)
    ensures MiddleProducts(f, roots, b, c, First(Sum(CubeRoots(roots, b)), Sum(CubeRoots(roots, c))))
  {
    var u := Sum(CubeRoots(roots, c));
    forall x: real | x >= 0.0
      ensures Sum(OverBC(f, x, b, c)) == First(Sum(CubeRoots(roots, b)), u)(roots.cube(x))
    {
      InnerGeometric(f, roots, x, c);
      FactorsAdd(roots.cube(x), u);
      GeometricBC(f, roots, x, b, c, Second(roots.cube(x), u));
    }
  }

  lemma GeometricSum(f: Triple, roots: Roots, a: Vector, b: Vector, c: Vector)
    requires ProductOfRoots(f, roots) && NonNegative(a) && NonNegative(b) && NonNegative(c)
    ensures Sum(Tensor(f, a, b, c)) ==
            Product(Sum(CubeRoots(roots, a)), Sum(CubeRoots(roots, b)), Sum(CubeRoots(roots, c)))
  {
    var t, u := Sum(CubeRoots(roots, b)), Sum(CubeRoots(roots, c));
    MiddleGeometric(f, roots, b, c);
    FactorsAdd(t, u);
    GeometricABC(f, roots, a, b, c, First(t, u));
  }

  lemma RootsMultiply(roots: Roots)
    requires Lawful(roots)
    ensures ProductOfRoots(Operation(Geometric, roots), roots)
  {
    forall x: real, y: real, z: real | x >= 0.0 && y >= 0.0 && z >= 0.0
      ensures Operation(Geometric, roots)(x, y, z) == Product(roots.cube(x), roots.cube(y), roots.cube(z))
    {
      CubeRootOfProduct(roots, x, y, z);
    }
  }

  lemma ProductOfMeans(l: real, m: real, n: real, x: real, y: real, z: real)
    ensures (l * (m * n)) * (x * y * z) == (l * x) * (m * y) * (n * z)
  {}

  lemma QuotientOfProducts(total: real, l: real, m: real, n: real, s: real, t: real, u: real)
    requires l > 0.0 && m > 0.0 && n > 0.0 && l * (m * n) > 0.0 && total == s * t * u
    ensures total / (l * (m * n)) == (s / l) * (t / m) * (u / n)
  {
    QuotientBack(s, l);
    QuotientBack(t, m);
    QuotientBack(u, n);
    QuotientOfMeans(total, l, m, n, s / l, t / m, u / n);
  }

  lemma QuotientOfMeans(total: real, l: real, m: real, n: real, x: real, y: real, z: real)
    requires l * (m * n) > 0.0 && total == (l * x) * (m * y) * (n * z)
    ensures total / (l * (m * n)) == x * y * z
  {
    ProductOfMeans(l, m, n, x, y, z);
    QuotientIs(total, l * (m * n), x * y * z);
  }

  lemma MeanOfProducts(total: real, size: nat, l: nat, m: nat, n: nat, s: real, t: real, u: real)
    requires l > 0 && m > 0 && n > 0 && total == Product(s, t, u)
    requires size == l * (m * n)
    ensures size > 0 && total / size as real == Product(s / l as real, t / m as real, u / n as real)
  {
    SizeAsReal(l, m, n);
    QuotientOfProducts(total, l as real, m as real, n as real, s, t, u);
  }

  lemma GeometricMean(f: Triple, roots: Roots, a: Vector, b: Vector, c: Vector)
    requires ProductOfRoots(f, roots) && a != [] && b != [] && c != []
    requires NonNegative(a) && NonNegative(b) && NonNegative(c)
    ensures Tensor(f, a, b, c) != []
    ensures Sum(Tensor(f, a, b, c)) / |Tensor(f, a, b, c)| as real == GeometricFactorized(roots, a, b, c)
  {
    GeometricSum(f, roots, a, b, c);
    LengthTensor(f, a, b, c);
    MeanOfProducts(Sum(Tensor(f, a, b, c)), |Tensor(f, a, b, c)|, |a|, |b|, |c|,
                   Sum(CubeRoots(roots, a)), Sum(CubeRoots(roots, b)), Sum(CubeRoots(roots, c)));
  }

  /** The triple loop of geometric means is the product of the mean cube roots. */
  lemma GeometricFactorizes(roots: Roots, a: Vector, b: Vector, c: Vector)
    requires Lawful(roots) && a != [] && b != [] && c != []
    requires NonNegative(a) && NonNegative(b) && NonNegative(c)
    ensures TensorMean(Geometric, roots, a, b, c) == GeometricFactorized(roots, a, b, c)
  {
    RootsMultiply(roots);
    GeometricMean(Operation(Geometric, roots), roots, a, b, c);
  }
}
