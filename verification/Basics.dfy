/** What several modules share. */
module Basics {

  datatype Option<+T> = None | Some(value: T)

  /** Two to the power of `k`. */
  function Power2(k: nat): nat {
    if k == 0 then 1 else 2 * Power2(k - 1)
  }

  lemma Associative<T>(a: seq<T>, b: seq<T>, c: seq<T>)
    ensures a + b + c == a + (b + c)
  {
  }
}
