/** Small things used everywhere. */
module Basics {

  datatype Option<T> = None | Some(value: T)

  datatype Result<T> = Ok(value: T) | Err

  function Min(a: nat, b: nat): nat {
    if a < b then a else b
  }

  function Max(a: nat, b: nat): nat {
    if a < b then b else a
  }

  lemma {:induction false} SubsetSize<T>(s: set<T>, t: set<T>)
    requires s <= t
    ensures |s| <= |t|
  {
    assert t == s + (t - s);
  }
}
