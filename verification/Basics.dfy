/** Shared vocabulary: optional values, results, and the size of a one-to-one map. */
module Basics {

  datatype Option<+T> = None | Some(value: T)

  datatype Result<+T, +E> = Ok(value: T) | Err(error: E)

  /** A one-to-one map has as many values as keys. */
  lemma {:induction false} InjectiveSize<T, U>(m: map<T, U>)
    requires forall x, y | x in m && y in m && m[x] == m[y] :: x == y
    ensures |m.Values| == |m.Keys|
    decreases |m.Keys|
  {
    if m.Keys == {} {
      assert m.Values == {};
    } else {
      var e :| e in m;
      var rest := m - {e};
      InjectiveSize(rest);
      assert m.Keys == rest.Keys + {e};
      assert m.Values == rest.Values + {m[e]};
      assert m[e] !in rest.Values;
    }
  }
}
