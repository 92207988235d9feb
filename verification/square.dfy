/** Element-wise square through the exhaustive visitor: double and int vectors
    are squared into a new vector of the same kind and length, a logical vector
    is returned as a copy (TRUE = 1 and FALSE = 0 are their own squares), and a
    text vector is refused. */
module Square {
  import opened Wrappers
  import opened Lvec

  /** The template handler for double and int: a result vector of the input's
      length, every slot starting as NA, filled index by index with NA for NA
      and `val * val` otherwise. */
  method SquareTemplate<T>(xs: seq<Option<T>>, times: (T, T) -> T) returns (ys: seq<Option<T>>)
    ensures |ys| == |xs|
    ensures forall i :: 0 <= i < |xs| ==> (ys[i].None? <==> xs[i].None?)
    ensures forall i :: 0 <= i < |xs| && xs[i].Some? ==> ys[i] == Some(times(xs[i].value, xs[i].value))
  {
    ys := seq(|xs|, _ => None);
    var i := 0;
    while i < |xs|
      invariant i <= |xs|
      invariant |ys| == |xs|
      invariant forall j :: 0 <= j < i ==> (ys[j].None? <==> xs[j].None?)
      invariant forall j :: 0 <= j < i && xs[j].Some? ==> ys[j] == Some(times(xs[j].value, xs[j].value))
    {
      var val := xs[i];
      if val.None? {
        ys := ys[i := None];
      } else {
        ys := ys[i := Some(times(val.value, val.value))];
      }
      i := i + 1;
    }
  }

  function TimesReal(a: real, b: real): real { a * b }

  function TimesInt(a: int, b: int): int { a * b }

  /** square: one handler per kind. */
  method Square(v: Vec) returns (r: Result<Vec, Error>)
    ensures v.StrVec? ==> r == Failure(UnsupportedOperation(SquareOp, Character))
    ensures !v.StrVec? ==>
      && r.Success?
      && r.value.KindOf() == v.KindOf()
      && r.value.Size() == v.Size()
      && forall i :: 0 <= i < v.Size() ==> (r.value.IsNA(i) <==> v.IsNA(i))
    ensures v.DblVec? && r.Success? ==>
      forall i :: 0 <= i < |v.ds| && v.ds[i].Some? ==> r.value.ds[i] == Some(v.ds[i].value * v.ds[i].value)
    ensures v.IntVec? && r.Success? ==>
      forall i :: 0 <= i < |v.ns| && v.ns[i].Some? ==> r.value.ns[i] == Some(v.ns[i].value * v.ns[i].value)
    ensures v.LglVec? ==> r == Success(v)
  {
    match v
    case DblVec(xs) =>
      var ys := SquareTemplate(xs, TimesReal);
      r := Success(DblVec(ys));
    case IntVec(xs) =>
      var ys := SquareTemplate(xs, TimesInt);
      r := Success(IntVec(ys));
    case LglVec(xs) =>
      r := Success(LglVec(xs));
    case StrVec(_) =>
      r := Failure(UnsupportedOperation(SquareOp, Character));
  }

  /** double [2.0, NA, 3.0] squares to [4.0, NA, 9.0]. */
  method SquareScenario() returns (r: Result<Vec, Error>)
    ensures r == Success(DblVec([Some(4.0), None, Some(9.0)]))
  {
    var v := DblVec([Some(2.0), None, Some(3.0)]);
    r := Square(v);
    var ys := r.value.ds;
    assert ys[0] == Some(4.0) by { assert v.ds[0].Some?; }
    assert ys[1] == None by { assert v.IsNA(1); assert r.value.IsNA(1); }
    assert ys[2] == Some(9.0) by { assert v.ds[2].Some?; }
    assert ys == [Some(4.0), None, Some(9.0)];
  }
}
