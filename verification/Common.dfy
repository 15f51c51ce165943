/** Shared by the other modules: optional values, lookup, and erasing from a list. */
module Common {

  datatype Option<+T> = None | Some(value: T)

  /** Lookup in a dictionary; None is the end iterator of a failed find. */
  function Get<K, V>(m: map<K, V>, k: K): Option<V> {
    if k in m then Some(m[k]) else None
  }

  /** A list without the first occurrence of an element. */
  function EraseFirst<T(==)>(list: seq<T>, x: T): seq<T> {
    if list == [] then []
    else if list[0] == x then list[1..]
    else [list[0]] + EraseFirst(list[1..], x)
  }

  /** That is one occurrence less of that element and of no other. */
  lemma {:induction false} EraseFirstCount<T>(list: seq<T>, x: T, y: T)
    ensures multiset(EraseFirst(list, x))[y] == multiset(list)[y] - if y == x && x in list then 1 else 0
  {
    if list != [] {
      assert list == [list[0]] + list[1..];
      EraseFirstCount(list[1..], x, y);
    }
  }

  lemma {:induction false} EraseFirstSkips<T>(list: seq<T>, x: T, n: nat)
    requires n <= |list| && x !in list[..n]
    ensures EraseFirst(list, x) == list[..n] + EraseFirst(list[n..], x)
  {
    if n > 0 {
      assert list[0] == list[..n][0] && list[1..][..n - 1] == list[..n][1..] && list[1..][n - 1..] == list[n..];
      EraseFirstSkips(list[1..], x, n - 1);
    }
  }
}
