/**
 * The two query shapes the handlers use on a table, `query.filter(p).first()`
 * and deleting one row, over a table held as its rows in primary-key order.
 */
module Query {
  import opened Wrappers

  /** Index of the first row satisfying `p`, or None when no row does. */
  function FirstIndex<T>(rows: seq<T>, p: T -> bool): (r: Option<nat>)
    ensures r.Some? ==> r.value < |rows| && p(rows[r.value])
    ensures r.Some? ==> forall j :: 0 <= j < r.value ==> !p(rows[j])
    ensures r.None? <==> forall j :: 0 <= j < |rows| ==> !p(rows[j])
  {
    if |rows| == 0 then None
    else if p(rows[0]) then Some(0)
    else match FirstIndex(rows[1..], p)
      case None => None
      case Some(i) => Some(i + 1)
  }

  /** `filter(p).first()`: the first matching row, or None. */
  function First<T>(rows: seq<T>, p: T -> bool): (r: Option<T>)
    ensures r.Some? ==> r.value in rows && p(r.value)
    ensures r.None? <==> forall x :: x in rows ==> !p(x)
  {
    match FirstIndex(rows, p)
    case None => None
    case Some(i) => Some(rows[i])
  }

  /** The table without its `i`-th row. */
  function RemoveAt<T>(rows: seq<T>, i: nat): (r: seq<T>)
    requires i < |rows|
    ensures |r| == |rows| - 1
    ensures forall j :: 0 <= j < i ==> r[j] == rows[j]
    ensures forall j :: i <= j < |r| ==> r[j] == rows[j + 1]
  {
    rows[..i] + rows[i + 1..]
  }

  /** Primary keys strictly increase along the table and stay below the next key to be issued. */
  predicate KeysIncreasing<T>(rows: seq<T>, key: T -> int, next: int) {
    (forall i, j :: 0 <= i < j < |rows| ==> key(rows[i]) < key(rows[j]))
    && (forall i :: 0 <= i < |rows| ==> key(rows[i]) < next)
  }

  /** Appending a row with the next key keeps keys increasing, with the next key one further. */
  lemma AppendKeepsKeys<T>(rows: seq<T>, key: T -> int, next: int, row: T)
    requires KeysIncreasing(rows, key, next) && key(row) == next
    ensures KeysIncreasing(rows + [row], key, next + 1)
  {
  }

  /** Removing a row keeps the keys increasing. */
  lemma RemoveKeepsKeys<T>(rows: seq<T>, key: T -> int, next: int, i: nat)
    requires KeysIncreasing(rows, key, next) && i < |rows|
    ensures KeysIncreasing(RemoveAt(rows, i), key, next)
  {
    var r := RemoveAt(rows, i);
    forall a, b | 0 <= a < b < |r| ensures key(r[a]) < key(r[b]) {
      var a' := if a < i then a else a + 1;
      var b' := if b < i then b else b + 1;
      assert r[a] == rows[a'] && r[b] == rows[b'];
    }
  }

  /** Replacing a row by one with the same key keeps the keys increasing. */
  lemma UpdateKeepsKeys<T>(rows: seq<T>, key: T -> int, next: int, i: nat, row: T)
    requires KeysIncreasing(rows, key, next) && i < |rows| && key(row) == key(rows[i])
    ensures KeysIncreasing(rows[i := row], key, next)
  {
  }

  /** With increasing keys, a row whose key is `k` is the only such row. */
  lemma KeyIsUnique<T>(rows: seq<T>, key: T -> int, next: int, i: nat, j: nat)
    requires KeysIncreasing(rows, key, next) && i < |rows| && j < |rows|
    ensures key(rows[i]) == key(rows[j]) ==> i == j
  {
  }

  /** With increasing keys, removing the row with key `k` leaves no row with key `k`. */
  lemma RemoveDropsKey<T>(rows: seq<T>, key: T -> int, next: int, i: nat)
    requires KeysIncreasing(rows, key, next) && i < |rows|
    ensures forall x :: x in RemoveAt(rows, i) ==> key(x) != key(rows[i])
  {
    var r := RemoveAt(rows, i);
    forall x | x in r ensures key(x) != key(rows[i]) {
      var a :| 0 <= a < |r| && r[a] == x;
      if a < i {
        assert x == rows[a];
      } else {
        assert x == rows[a + 1];
      }
    }
  }
}
