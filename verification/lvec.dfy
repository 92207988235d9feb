/** The run-time-typed vector: one of four element kinds, each element either a
    value or missing (NA), plus the per-kind conversions to double that the
    operations rely on. */
module Lvec {
  import opened Wrappers

  /** The closed set of element kinds an lvec can hold. */
  datatype Kind = Double | Integer | Logical | Character

  /** A vector whose kind is known only at run time. `None` is the NA of the
      element kind; the kind tag and the payload can never disagree because the
      constructor is the tag. */
  datatype Vec =
    | DblVec(ds: seq<Option<real>>)
    | IntVec(ns: seq<Option<int>>)
    | LglVec(ls: seq<Option<bool>>)
    | StrVec(ss: seq<Option<string>>)
  {
    function KindOf(): Kind {
      match this
      case DblVec(_) => Double
      case IntVec(_) => Integer
      case LglVec(_) => Logical
      case StrVec(_) => Character
    }

    function Size(): nat {
      match this
      case DblVec(xs) => |xs|
      case IntVec(xs) => |xs|
      case LglVec(xs) => |xs|
      case StrVec(xs) => |xs|
    }

    /** Element i is the NA of its kind. */
    predicate IsNA(i: nat)
      requires i < Size()
    {
      match this
      case DblVec(xs) => xs[i].None?
      case IntVec(xs) => xs[i].None?
      case LglVec(xs) => xs[i].None?
      case StrVec(xs) => xs[i].None?
    }
  }

  /** The operations that can refuse a kind. */
  datatype Op = SumOp | SquareOp

  datatype Error =
    /** The operation has no meaning for this kind (a visitor that throws). */
    | UnsupportedOperation(op: Op, kind: Kind)
    /** A downcast to `expected` found a vector of kind `actual`. */
    | TypeMismatch(expected: Kind, actual: Kind)
    /** No conversion of this kind's elements to double is available. */
    | UnsupportedKind(kind: Kind)

  /** Conversions of one non-missing element to double. Logical follows the
      convention TRUE = 1, FALSE = 0; Int widens exactly. */
  function DoubleOfDouble(x: real): real { x }

  function DoubleOfInt(n: int): real { n as real }

  function DoubleOfLogical(b: bool): real { if b then 1.0 else 0.0 }

  /** Casting an element to double keeps NA as NA. */
  function CastValue<T>(x: Option<T>, cast: T -> real): Option<real> {
    match x
    case None => None
    case Some(y) => Some(cast(y))
  }

  function CastAll<T>(xs: seq<Option<T>>, cast: T -> real): seq<Option<real>> {
    seq(|xs|, i requires 0 <= i < |xs| => CastValue(xs[i], cast))
  }

  /** The whole vector seen as doubles; Character has no numeric view. */
  function Numeric(v: Vec): (xs: seq<Option<real>>)
    requires !v.StrVec?
    ensures |xs| == v.Size()
    ensures forall i :: 0 <= i < |xs| ==> (xs[i].None? <==> v.IsNA(i))
  {
    match v
    case DblVec(ys) => CastAll(ys, DoubleOfDouble)
    case IntVec(ys) => CastAll(ys, DoubleOfInt)
    case LglVec(ys) => CastAll(ys, DoubleOfLogical)
  }

  /** Element i converted to double, as the coercion path reads it. The
      conversion of a text element is not available to this model and is
      reported as an error. */
  function GetOfType(v: Vec, i: nat): (r: Result<Option<real>, Error>)
    requires i < v.Size()
    ensures r.Failure? <==> v.StrVec?
    ensures r.Failure? ==> r.error == UnsupportedKind(Character)
    ensures r.Success? ==> r.value == Numeric(v)[i]
  {
    match v
    case DblVec(xs) => Success(CastValue(xs[i], DoubleOfDouble))
    case IntVec(xs) => Success(CastValue(xs[i], DoubleOfInt))
    case LglVec(xs) => Success(CastValue(xs[i], DoubleOfLogical))
    case StrVec(_) => Failure(UnsupportedKind(Character))
  }

  /** A sum result: a numeric vector of length one. */
  function Scalar(s: Option<real>): Vec {
    DblVec([s])
  }
}
