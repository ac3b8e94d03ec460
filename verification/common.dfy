/** Small value types shared by every module of the model. */
module Common {

  /** Python's `None` / present value. */
  datatype Option<+T> = None | Some(value: T) {
    function GetOr(default: T): T {
      match this
      case Some(v) => v
      case None => default
    }
  }

  /** A computation that either returns a value or raises the exception `error`. */
  datatype Result<+T, +E> = Ok(value: T) | Err(error: E)

  function Max(a: int, b: int): int { if a < b then b else a }

  function Min(a: int, b: int): int { if a < b then a else b }

  /**
   * `requested or date.today()` followed by "a date in the future becomes today",
   * as the loaders and the report do with their date arguments (day numbers).
   */
  function ClampToToday(requested: Option<int>, today: int): (d: int)
    ensures d <= today
    ensures requested.Some? && requested.value <= today ==> d == requested.value
    ensures requested.None? || requested.value >= today ==> d == today
  {
    var d := requested.GetOr(today);
    if d > today then today else d
  }

  /** The elements of `s` for which `p` holds, in order (a Python list comprehension with a filter). */
  function Filter<T(!new)>(s: seq<T>, p: T -> bool): (r: seq<T>)
    ensures |r| <= |s|
    ensures forall x :: x in r <==> x in s && p(x)
  {
    if s == [] then [] else (if p(s[0]) then [s[0]] else []) + Filter(s[1..], p)
  }

  lemma {:induction false} FilterAppend<T(!new)>(a: seq<T>, b: seq<T>, p: T -> bool)
    ensures Filter(a + b, p) == Filter(a, p) + Filter(b, p)
  {
    if a == [] {
      assert a + b == b;
    } else {
      assert (a + b)[1..] == a[1..] + b;
      FilterAppend(a[1..], b, p);
    }
  }

  lemma FilterSnoc<T(!new)>(s: seq<T>, x: T, p: T -> bool)
    ensures Filter(s + [x], p) == Filter(s, p) + (if p(x) then [x] else [])
  {
    FilterAppend(s, [x], p);
  }

}
