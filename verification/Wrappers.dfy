/** A value that may be absent, Python's `None` in a field or a lookup, and what sequences hold. */
module Wrappers {
  datatype Option<+T> = None | Some(value: T)

  /** `mapping.get(key)`. */
  function Get<K, V>(m: map<K, V>, k: K): (r: Option<V>)
    ensures r.Some? <==> k in m
    ensures r.Some? ==> r.value == m[k]
  {
    if k in m then Some(m[k]) else None
  }

  function Elements<T(==, !new)>(s: seq<T>): (r: set<T>)
    ensures forall x :: x in r <==> x in s
  {
    set x | x in s
  }

  /** The first position of `x` in `s` from `from` on. */
  function IndexOf<T(==)>(s: seq<T>, x: T, from: nat): (r: Option<nat>)
    requires from <= |s|
    ensures r.Some? ==> from <= r.value < |s| && s[r.value] == x && forall i | from <= i < r.value :: s[i] != x
    ensures r.None? ==> forall i | from <= i < |s| :: s[i] != x
    decreases |s| - from
  {
    if from == |s| then None else if s[from] == x then Some(from) else IndexOf(s, x, from + 1)
  }
}
