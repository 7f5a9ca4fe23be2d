/** What the models share. */
module Common {

  /** SQLRETURN, without the numbers. */
  datatype Return = Success | SuccessWithInfo | NeedData | NoData | Error

  function Min(a: int, b: int): int { if a <= b then a else b }

  function Max(a: int, b: int): int { if a >= b then a else b }

  function Sum(s: seq<int>): int { if s == [] then 0 else Sum(s[..|s| - 1]) + s[|s| - 1] }

  ghost predicate NoDuplicates<X>(xs: seq<X>) {
    forall i, j :: 0 <= i < j < |xs| ==> xs[i] != xs[j]
  }
}
