/** The three ways of summing an lvec: uniform coercion of every element to
    double (sum1), an exhaustive visitor with one handler per kind (sum2), and
    a downcast to the double vector (sum3). Each is given as a recursive model
    and as the source's loop, proved equal to it; the lemmas relate the three
    strategies to each other and to the NA-aware specification. */
module Sum {
  import opened Wrappers
  import opened Lvec
  import opened NaArith

  // ---------------------------------------------------------------- sum1

  /** The coercion loop from index i with running sum acc. Each element is read
      through GetOfType, so a text vector fails at its first element and only
      there. */
  function CoercionLoop(v: Vec, i: nat, acc: real): (r: Result<Option<real>, Error>)
    requires i <= v.Size()
    ensures !v.StrVec? ==> r == Success(Fold(Numeric(v)[i..], acc))
    ensures v.StrVec? ==> (r.Success? <==> i == v.Size())
    ensures r.Failure? ==> r.error == UnsupportedKind(Character)
    decreases v.Size() - i
  {
    if i == v.Size() then Success(Some(acc))
    else
      match GetOfType(v, i)
      case Failure(e) => Failure(e)
      case Success(None) =>
        assert Numeric(v)[i..][0] == Numeric(v)[i];
        Success(None)
      case Success(Some(x)) =>
        assert Numeric(v)[i..][0] == Numeric(v)[i];
        assert Numeric(v)[i..][1..] == Numeric(v)[i + 1..];
        CoercionLoop(v, i + 1, acc + x)
  }

  /** sum1: the NA-aware sum of the elements coerced to double, as a numeric
      vector of length one. On text it fails as soon as an element must be
      converted, so an empty text vector still sums to 0.0. */
  function SumByCoercion(v: Vec): (r: Result<Vec, Error>)
    ensures !v.StrVec? ==> r == Success(Scalar(NaSum(Numeric(v))))
    ensures v.StrVec? ==> (r.Success? <==> v.Size() == 0)
    ensures r.Failure? ==> r.error == UnsupportedKind(Character)
    ensures r.Success? ==> r.value.DblVec? && r.value.Size() == 1
  {
    FoldFromZero(if v.StrVec? then [] else Numeric(v));
    match CoercionLoop(v, 0, 0.0)
    case Failure(e) => Failure(e)
    case Success(s) => Success(Scalar(s))
  }

  method Sum1(v: Vec) returns (r: Result<Vec, Error>)
    ensures r == SumByCoercion(v)
  {
    var sum: Option<real> := Some(0.0);
    var i := 0;
    while i < v.Size()
      invariant i <= v.Size()
      invariant sum.Some?
      invariant CoercionLoop(v, i, sum.value) == CoercionLoop(v, 0, 0.0)
    {
      var val :- GetOfType(v, i);
      if val.None? {
        sum := None;
        break;
      }
      sum := Some(sum.value + val.value);
      i := i + 1;
    }
    r := Success(Scalar(sum));
  }

  // ---------------------------------------------------------------- sum2

  /** The visitor's template handler: cast each element to double, then run
      the accumulating loop. */
  function VisitTemplate<T>(xs: seq<Option<T>>, cast: T -> real): Option<real> {
    Fold(CastAll(xs, cast), 0.0)
  }

  /** sum2: double, int and logical go through the same template; text is
      refused whatever its content or length. */
  function SumByVisitor(v: Vec): (r: Result<Vec, Error>)
    ensures v.StrVec? ==> r == Failure(UnsupportedOperation(SumOp, Character))
    ensures !v.StrVec? ==> r == Success(Scalar(NaSum(Numeric(v))))
  {
    FoldFromZero(if v.StrVec? then [] else Numeric(v));
    match v
    case DblVec(xs) => Success(Scalar(VisitTemplate(xs, DoubleOfDouble)))
    case IntVec(xs) => Success(Scalar(VisitTemplate(xs, DoubleOfInt)))
    case LglVec(xs) => Success(Scalar(VisitTemplate(xs, DoubleOfLogical)))
    case StrVec(_) => Failure(UnsupportedOperation(SumOp, Character))
  }

  method VisitLoop<T>(xs: seq<Option<T>>, cast: T -> real) returns (sum: Option<real>)
    ensures sum == VisitTemplate(xs, cast)
  {
    ghost var ys := CastAll(xs, cast);
    sum := Some(0.0);
    var i := 0;
    while i < |xs|
      invariant i <= |xs|
      invariant sum.Some?
      invariant Fold(ys[i..], sum.value) == Fold(ys, 0.0)
    {
      var val := CastValue(xs[i], cast);
      assert ys[i..][0] == val;
      if val.None? {
        sum := None;
        break;
      }
      assert ys[i..][1..] == ys[i + 1..];
      sum := Some(sum.value + val.value);
      i := i + 1;
    }
  }

  method Sum2(v: Vec) returns (r: Result<Vec, Error>)
    ensures r == SumByVisitor(v)
  {
    match v
    case DblVec(xs) =>
      var s := VisitLoop(xs, DoubleOfDouble);
      r := Success(Scalar(s));
    case IntVec(xs) =>
      var s := VisitLoop(xs, DoubleOfInt);
      r := Success(Scalar(s));
    case LglVec(xs) =>
      var s := VisitLoop(xs, DoubleOfLogical);
      r := Success(Scalar(s));
    case StrVec(_) =>
      r := Failure(UnsupportedOperation(SumOp, Character));
  }

  // ---------------------------------------------------------------- sum3

  /** The checked downcast to the double vector. */
  function AsDouble(v: Vec): (r: Result<seq<Option<real>>, Error>)
    ensures r.Success? <==> v.DblVec?
    ensures v.DblVec? ==> r == Success(v.ds)
    ensures r.Failure? ==> r.error == TypeMismatch(Double, v.KindOf())
  {
    match v
    case DblVec(xs) => Success(xs)
    case _ => Failure(TypeMismatch(Double, v.KindOf()))
  }

  /** sum3: only a double vector is summed; every other kind is a type
      mismatch that names both kinds. */
  function SumByDowncast(v: Vec): (r: Result<Vec, Error>)
    ensures v.DblVec? ==> r == Success(Scalar(NaSum(v.ds)))
    ensures !v.DblVec? ==> r == Failure(TypeMismatch(Double, v.KindOf()))
  {
    FoldFromZero(if v.DblVec? then v.ds else []);
    match AsDouble(v)
    case Failure(e) => Failure(e)
    case Success(xs) => Success(Scalar(Fold(xs, 0.0)))
  }

  method Sum3(v: Vec) returns (r: Result<Vec, Error>)
    ensures r == SumByDowncast(v)
  {
    var xs :- AsDouble(v);
    var sum: Option<real> := Some(0.0);
    var i := 0;
    while i < |xs|
      invariant i <= |xs|
      invariant sum.Some?
      invariant Fold(xs[i..], sum.value) == Fold(xs, 0.0)
    {
      var val := xs[i];
      assert xs[i..][0] == val;
      if val.None? {
        sum := None;
        break;
      }
      assert xs[i..][1..] == xs[i + 1..];
      sum := Some(sum.value + val.value);
      i := i + 1;
    }
    r := Success(Scalar(sum));
  }

  // ---------------------------------------------------------------- properties

  /** Casting doubles to double changes nothing. */
  lemma CastDoubleIsIdentity(xs: seq<Option<real>>)
    ensures CastAll(xs, DoubleOfDouble) == xs
  {
  }

  /** On a double vector the three strategies give the same result. */
  lemma StrategiesAgreeOnDouble(xs: seq<Option<real>>)
    ensures SumByCoercion(DblVec(xs)) == SumByVisitor(DblVec(xs))
    ensures SumByVisitor(DblVec(xs)) == SumByDowncast(DblVec(xs))
  {
    CastDoubleIsIdentity(xs);
  }

  /** Coercion and visitor agree on every kind that has a numeric view. */
  lemma CoercionAgreesWithVisitor(v: Vec)
    requires !v.StrVec?
    ensures SumByCoercion(v) == SumByVisitor(v)
  {
  }

  /** One NA anywhere makes every strategy that accepts the vector return NA. */
  lemma SumTaintedByNA(v: Vec, k: nat)
    requires k < v.Size() && v.IsNA(k)
    ensures !v.StrVec? ==> SumByCoercion(v) == Success(Scalar(None))
    ensures !v.StrVec? ==> SumByVisitor(v) == Success(Scalar(None))
    ensures v.DblVec? ==> SumByDowncast(v) == Success(Scalar(None))
  {
  }

  /** Without NA, every accepting strategy returns the sum of the values. */
  lemma SumWithoutNA(v: Vec)
    requires forall i :: 0 <= i < v.Size() ==> !v.IsNA(i)
    ensures !v.StrVec? ==> SumByVisitor(v) == Success(Scalar(Some(ValueSum(Numeric(v)))))
    ensures !v.StrVec? ==> SumByCoercion(v) == Success(Scalar(Some(ValueSum(Numeric(v)))))
    ensures v.DblVec? ==> SumByDowncast(v) == Success(Scalar(Some(ValueSum(v.ds))))
  {
  }

  /** The accumulator starts at 0.0, so an empty vector sums to 0.0. */
  lemma EmptySumIsZero(v: Vec)
    requires v.Size() == 0
    ensures SumByCoercion(v) == Success(Scalar(Some(0.0)))
    ensures !v.StrVec? ==> SumByVisitor(v) == Success(Scalar(Some(0.0)))
    ensures v.DblVec? ==> SumByDowncast(v) == Success(Scalar(Some(0.0)))
  {
  }

  /** The downcast path is narrower than the visitor: it refuses int and
      logical vectors the visitor sums. */
  lemma DowncastNarrowerThanVisitor(v: Vec)
    requires v.IntVec? || v.LglVec?
    ensures SumByDowncast(v) == Failure(TypeMismatch(Double, v.KindOf()))
    ensures SumByVisitor(v).Success?
  {
  }

  /** int [1, 2, 3]: the visitor sums to 6.0, the downcast refuses. */
  lemma IntScenario()
    ensures SumByVisitor(IntVec([Some(1), Some(2), Some(3)])) == Success(Scalar(Some(6.0)))
    ensures SumByDowncast(IntVec([Some(1), Some(2), Some(3)])) == Failure(TypeMismatch(Double, Integer))
  {
    var v := IntVec([Some(1), Some(2), Some(3)]);
    assert !HasNA(Numeric(v)) by {
      forall i | 0 <= i < 3 ensures !v.IsNA(i) {}
    }
    var xs := Numeric(v);
    assert xs == [Some(1.0), Some(2.0), Some(3.0)];
    assert xs[1..][1..] == [Some(3.0)];
    assert ValueSum(xs) == 6.0 by {
      assert ValueSum(xs[1..][1..]) == 3.0;
    }
  }

  /** double [2.0, NA, 3.0] and logical [TRUE, FALSE, NA]: the NA taints every
      strategy that accepts the vector. */
  lemma NaScenario()
    ensures SumByCoercion(DblVec([Some(2.0), None, Some(3.0)])) == Success(Scalar(None))
    ensures SumByVisitor(DblVec([Some(2.0), None, Some(3.0)])) == Success(Scalar(None))
    ensures SumByDowncast(DblVec([Some(2.0), None, Some(3.0)])) == Success(Scalar(None))
    ensures SumByVisitor(LglVec([Some(true), Some(false), None])) == Success(Scalar(None))
  {
    SumTaintedByNA(DblVec([Some(2.0), None, Some(3.0)]), 1);
    SumTaintedByNA(LglVec([Some(true), Some(false), None]), 2);
  }
}
