/** Small datatypes shared by every module. */
module Base {
  datatype Option<+T> = None | Some(value: T)

  datatype Result<+T, +E> = Ok(value: T) | Err(error: E)

  function Max(a: nat, b: nat): nat { if a < b then b else a }

  type Term = nat
  type NodeId = nat

  /** `is_serving`: the node leads, and has settled the term it leads in. */
  predicate Serves(leading: bool, served: Term, term: Term) { leading && served == term }

  /** `at` lists in increasing order exactly the numbers below `n` that satisfy `p`. */
  ghost predicate Listing(at: seq<nat>, n: nat, p: nat -> bool) {
    && (forall x, y | 0 <= x < y < |at| :: at[x] < at[y])
    && (forall x | 0 <= x < |at| :: at[x] < n && p(at[x]))
    && (forall i: nat | i < n && p(i) :: i in at)
  }

  lemma ListingStep(at: seq<nat>, n: nat, p: nat -> bool)
    requires Listing(at, n, p)
    ensures Listing(if p(n) then at + [n] else at, n + 1, p)
  {
    var more := at + [n];
    assert p(n) ==> more[|at|] == n;
    forall i: nat | i < n + 1 && p(i) ensures i in if p(n) then more else at {
      if i < n { assert i in at; }
    }
  }
}
