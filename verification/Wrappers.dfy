/** The two failure-aware datatypes the other modules share, and the bounds of 64-bit integers. */
module Wrappers {

  datatype Option<+T> = None | Some(value: T)

  datatype Result<+T, +E> = Ok(value: T) | Err(error: E)

  const INT64_LIMIT: int := 0x8000_0000_0000_0000
  /** Go's int64. */
  type Int64 = n: int | -INT64_LIMIT <= n < INT64_LIMIT

  const UINT64_LIMIT: int := 0x1_0000_0000_0000_0000

  lemma MultiplesAreApart(d: int, limit: int)
    requires limit > 0
    ensures d >= 1 ==> d * limit >= limit
    ensures d <= -1 ==> d * limit <= -limit
  {
  }

  lemma QuotientIsUnique(n: int, limit: int, q: int, r: int)
    requires limit > 0 && n == q * limit + r && 0 <= r < limit
    ensures n / limit == q
  {
    var d := n / limit - q;
    assert d * limit == r - n % limit;
    MultiplesAreApart(d, limit);
  }
}
