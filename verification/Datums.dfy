/** SQL values and their comparison; floats, numerics and date-times are left out. */
module Datums {
  import opened Base

  datatype Datum = Null | Int(i: int) | Bool(b: bool) | Text(t: string)
  type Row = seq<Datum>

  const MIN64: int := -0x8000_0000_0000_0000
  const MAX64: int := 0x7FFF_FFFF_FFFF_FFFF

  datatype EvalError = TypeMismatch | Overflow | Undefined | Failed(id: nat)
  type Value = Result<Datum, EvalError>

  function TextOrder(x: string, y: string): int {
    if x == [] then (if y == [] then 0 else -1)
    else if y == [] then 1
    else if x[0] < y[0] then -1 else if x[0] > y[0] then 1 else TextOrder(x[1..], y[1..])
  }

  /** The sign of the comparison; `None` when an operand is NULL. */
  function Compare(a: Datum, b: Datum): Result<Option<int>, EvalError> {
    match (a, b)
    case (Null, _) => Ok(None)
    case (_, Null) => Ok(None)
    case (Int(x), Int(y)) => Ok(Some(if x < y then -1 else if x == y then 0 else 1))
    case (Bool(x), Bool(y)) => Ok(Some(if x == y then 0 else if y then -1 else 1))
    case (Text(x), Text(y)) => Ok(Some(TextOrder(x, y)))
    case _ => Err(TypeMismatch)
  }

  /** Alphabetical order: `x` is a prefix of `y`, or has the smaller character where they first
      differ. */
  ghost predicate AlphaAtMost(x: string, y: string) {
    x <= y || exists n :: 0 <= n < |x| && n < |y| && x[..n] == y[..n] && x[n] < y[n]
  }

  lemma {:induction false} TextOrderIs(x: string, y: string)
    ensures TextOrder(x, y) <= 0 <==> AlphaAtMost(x, y)
    ensures TextOrder(x, y) == 0 <==> x == y
  {
    if x != [] && y != [] && x[0] == y[0] {
      TextOrderIs(x[1..], y[1..]);
      assert x == [x[0]] + x[1..] && y == [y[0]] + y[1..];
      if n :| 0 <= n < |x[1..]| && n < |y[1..]| && x[1..][..n] == y[1..][..n] && x[1..][n] < y[1..][n] {
        assert x[..n + 1] == [x[0]] + x[1..][..n] && y[..n + 1] == [y[0]] + y[1..][..n];
        assert x[n + 1] < y[n + 1];
      }
      if n :| 0 <= n < |x| && n < |y| && x[..n] == y[..n] && x[n] < y[n] {
        assert x[1..][..n - 1] == x[..n][1..] && y[1..][..n - 1] == y[..n][1..];
        assert x[1..][n - 1] < y[1..][n - 1];
      }
    } else if x != [] && y != [] {
      assert x[0] < y[0] ==> x[..0] == y[..0];
      if n :| 0 <= n < |x| && n < |y| && x[..n] == y[..n] && x[n] < y[n] {
        assert n > 0 ==> x[..n][0] == y[..n][0];
      }
    }
  }
}
