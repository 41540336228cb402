/** Option stands for a Java reference that may be null; `Get` and `ListAt` are the map lookups. */
module Wrappers {

  datatype Option<+T> = None | Some(value: T) {

    /** The value when present, `default` when the reference is null. */
    function GetOr(default: T): T {
      match this
      case Some(v) => v
      case None => default
    }
  }

  /** Map lookup that yields null (None) for a missing key, like `Map.get`. */
  function Get<K, V>(m: map<K, V>, k: K): (r: Option<V>)
    ensures r.Some? <==> k in m
    ensures r.Some? ==> r.value == m[k]
  {
    if k in m then Some(m[k]) else None
  }

  /** The list stored under `k`, or the empty list when there is none: the
      `get`-then-create-if-null step of the source's list-valued maps. */
  function ListAt<K, T>(m: map<K, seq<T>>, k: K): (r: seq<T>)
    ensures k in m ==> r == m[k]
    ensures k !in m ==> r == []
  {
    Get(m, k).GetOr([])
  }
}
