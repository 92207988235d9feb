# lvec_example in Dafny

A model of the two R-extension entry points of `lvec_example`, which act on an
`ldat` lvec: a vector whose element kind (double, int, logical or character) is
known only at run time, where each element is either a value or NA.

- `sum` (src/sum.cpp) is written three ways:
  - `sum1` coerces every element to double through `get_of_type`;
  - `sum2` uses a visitor with one handler per kind and throws for character vectors;
  - `sum3` downcasts to `lvec<double>` and throws for any other kind.
  
  All three start from 0.0, add each element, and at the first NA set the sum to NA and stop. The result is a numeric R vector of length one.
- `square` (src/square.cpp) uses a visitor:
  - double and int vectors are squared element by element into a new vector of the same kind and length, with NA kept as NA;
  - a logical vector is cloned;
  - a character vector is refused.

Modules:

- `Wrappers`: `Option` (NA or a value) and `Result` (a value or a typed error).
- `Lvec`: the run-time-typed vector `Vec`. It has one constructor per kind over `seq<Option<T>>`, so the kind tag and the payload cannot disagree. The module also holds the error type and the per-kind conversions to double. `Numeric` is the whole vector seen as doubles. `GetOfType` reads one element as a double.
- `NaArith`: the NA-aware sum.
  - `NaSum` is the declarative definition: NA if any element is NA, otherwise the sum of the values.
  - `Fold` is the accumulating loop with its early exit, written as a recursive function. Its contract proves it equal to the declarative definition.
- `Sum`: for each strategy, a recursive model (`SumByCoercion`, `SumByVisitor`, `SumByDowncast`) and the source's loop (`Sum1`, `Sum2`, `Sum3`), proved equal to it. Lemmas relate the strategies to each other and to `NaSum`.
- `Square`: the visitor's template loop and the per-kind dispatch.

The visitor's double dispatch (`v->visit(&visitor)`) is modelled as an exhaustive `match` on the `Vec` constructor. The `dynamic_cast` in `sum3` is modelled as `AsDouble`, which returns a `TypeMismatch` error naming the expected and the actual kind. The source's `runtime_error`s become `Failure` values:

- `UnsupportedOperation(op, Character)` for the visitors' throws;
- `TypeMismatch(Double, kind)` for the failed downcast;
- `UnsupportedKind(Character)` for a text element read as a double on the coercion path.

Modelling assumptions:

- Doubles are `real` and ints are mathematical `int`.
- NA is `None`, not a sentinel bit pattern.
- A logical converts to double as TRUE = 1.0 and FALSE = 0.0.
- `get_of_type(i, double)` on a character lvec belongs to `ldat`, which is not part of this model. It is modelled as failing with `UnsupportedKind`.

Because `sum1` only calls `get_of_type` inside its loop, an empty character vector still sums to 0.0 under `sum1`, while `sum2` refuses every character vector; so `sum1` and `sum2` disagree on an empty character vector.

## Model

| member | source | states |
|---|---|---|
| Lvec.Numeric | src/sum.cpp:66 | Seeing a double, int or logical vector as doubles keeps its length, and element i is NA exactly when the input's element i is NA |
| Lvec.GetOfType | src/sum.cpp:31 | Reading element i as a double fails exactly on a character vector, with UnsupportedKind; otherwise it gives element i of the whole-vector coercion |
| NaArith.Fold | src/sum.cpp:29-37 | The loop that adds each value and stops with NA at the first NA gives NA exactly when some element is NA, and otherwise the start value plus the sum of all values, whatever the start value |
| NaArith.FoldFromZero | src/sum.cpp:29-30 | Starting the loop from 0.0 computes the declarative NA-aware sum |
| NaArith.NaAnywhereTaints | src/sum.cpp:31-35 | An NA inserted at any position, between any prefix and suffix, makes the loop's result NA |
| Sum.CoercionLoop | src/sum.cpp:30-37 | The index loop over get_of_type gives the same result as the early-exit loop over the coerced elements; on a character vector it fails exactly when an element remains to be read |
| Sum.SumByCoercion | src/sum.cpp:26-42 | sum1 returns the NA-aware sum of the coerced elements as a numeric vector of length one. On character vectors it fails with UnsupportedKind exactly when the vector is non-empty |
| Sum.Sum1 | src/sum.cpp:26-42 | The imperative loop with break and failure propagation computes exactly the recursive sum1 model |
| Sum.SumByVisitor | src/sum.cpp:59-99 | sum2 returns the NA-aware sum of the coerced elements for double, int and logical vectors. For every character vector, empty ones included, it fails with UnsupportedOperation(Sum, Character) |
| Sum.VisitLoop | src/sum.cpp:63-73 | The template loop, which casts each element and then accumulates with early exit, computes the template's recursive model for any element type and cast |
| Sum.Sum2 | src/sum.cpp:75-109 | The per-kind dispatch to the template loop computes exactly the recursive sum2 model |
| Sum.AsDouble | src/sum.cpp:121-123 | The downcast succeeds exactly on a double vector and then yields its elements unchanged; every other kind fails with TypeMismatch naming Double and the actual kind |
| Sum.SumByDowncast | src/sum.cpp:118-138 | sum3 returns the NA-aware sum of a double vector. Every other kind fails with TypeMismatch naming Double and the actual kind |
| Sum.Sum3 | src/sum.cpp:118-138 | The downcast followed by the loop with break computes exactly the recursive sum3 model |
| Sum.StrategiesAgreeOnDouble | src/sum.cpp:26-138 | For every double vector, sum1, sum2 and sum3 return the same result |
| Sum.CoercionAgreesWithVisitor | src/sum.cpp:26-85 | For every double, int or logical vector, sum1 and sum2 return the same result |
| Sum.SumTaintedByNA | src/sum.cpp:31-35 | If element k is NA, every strategy that accepts the vector returns NA, whatever the other elements |
| Sum.SumWithoutNA | src/sum.cpp:30-37 | If no element is NA, every strategy that accepts the vector returns the sum of the elements cast to double |
| Sum.EmptySumIsZero | src/sum.cpp:29-30 | An empty vector sums to 0.0 under every strategy that accepts its kind. sum1 accepts every kind when empty |
| Sum.DowncastNarrowerThanVisitor | src/sum.cpp:121-123 | On int and logical vectors sum3 fails with TypeMismatch while sum2 succeeds |
| Sum.IntScenario | src/sum.cpp:79-81 | For the int vector [1, 2, 3], sum2 gives 6.0 and sum3 fails with TypeMismatch(Double, Integer) |
| Sum.NaScenario | src/sum.cpp:66-70 | For the double vector [2.0, NA, 3.0], all three strategies give NA; for the logical vector [TRUE, FALSE, NA], sum2 gives NA |
| Square.SquareTemplate | src/square.cpp:24-41 | The result has the input's length; element i is NA exactly when input i is NA; and a non-NA input v gives v*v |
| Square.SquareScenario | src/square.cpp:43-45 | Squaring the double vector [2.0, NA, 3.0] gives [4.0, NA, 9.0] |
| Square.Square | src/square.cpp:43-59 | Double and int results keep the kind, the length and the NA positions, and hold the element-wise squares. A logical result equals the input. A character vector fails with UnsupportedOperation(Square, Character), empty ones included |

## Left out

- R marshaling (`SEXP`, `sexp_to_vec`, `vec_to_sexp`, `cppr::rvec`) and the `CPPRTRY`/`CPPRCATCH` bridge from exceptions to R errors are host-runtime glue. Inputs and results are plain `Vec` values, and a thrown error is a `Failure`.
- The `ldat` and `cppr` libraries are not part of this model. `GetOfType` on a character vector is an assumption: the library may parse text as numbers.
- NA sentinels (reserved bit patterns) are not modelled; NA is `None`.
- IEEE-754 rounding is not modelled: doubles are `real`, so the proved sums are exact and associative.
- Square.Square: does not model the 32-bit overflow of `val * val` on int vectors, because ints are unbounded. In C++ that overflow is undefined behaviour and in practice wraps, giving a wrong, possibly negative square; it never yields R's integer NA, since no square is congruent to 2^31 modulo 2^32.
- Ownership (`unique_ptr`/`release` at src/square.cpp:28-40) is not modelled. That `square` leaves its input untouched holds by construction, since every value in the model is immutable. The logical "clone" is therefore the same value, not a separate object.
- The get, set and length primitives of `ldat::lvec`, including their bounds checks, are not separate operations here. Sequence indexing is checked statically, and the new result vector is built as a sequence of NAs filled in by index.
