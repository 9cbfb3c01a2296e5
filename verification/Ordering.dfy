/**
 `ORDER BY`: the ids of the rows that satisfy a filter, ascending by key.  The id is
 the last part of every key, so the order is total.
 */
module Ordering {

  datatype Key = Key(major: int, minor: int, id: nat)

  predicate Precedes(a: Key, b: Key) {
    || a.major < b.major
    || (a.major == b.major && (a.minor < b.minor || (a.minor == b.minor && a.id < b.id)))
  }

  ghost predicate Ascending(keys: seq<Key>) {
    forall i, j :: 0 <= i < j < |keys| ==> Precedes(keys[i], keys[j])
  }

  function Insert(k: Key, keys: seq<Key>): seq<Key> {
    if keys == [] then [k]
    else if Precedes(k, keys[0]) then [k] + keys
    else [keys[0]] + Insert(k, keys[1..])
  }

  function Sort(keys: seq<Key>): seq<Key> {
    if keys == [] then [] else Insert(keys[0], Sort(keys[1..]))
  }

  lemma {:induction false} InsertMembers(k: Key, keys: seq<Key>, x: Key)
    ensures x in Insert(k, keys) <==> x == k || x in keys
  {
    if keys != [] && !Precedes(k, keys[0]) {
      InsertMembers(k, keys[1..], x);
      assert keys == [keys[0]] + keys[1..];
    }
  }

  lemma {:induction false} InsertAscending(k: Key, keys: seq<Key>)
    requires Ascending(keys) && k !in keys
    ensures Ascending(Insert(k, keys))
  {
    if keys != [] && !Precedes(k, keys[0]) {
      var rest := Insert(k, keys[1..]);
      InsertAscending(k, keys[1..]);
      forall i | 0 <= i < |rest| ensures Precedes(keys[0], rest[i]) {
        InsertMembers(k, keys[1..], rest[i]);
      }
    }
  }

  lemma {:induction false} SortMembers(keys: seq<Key>, x: Key)
    ensures x in Sort(keys) <==> x in keys
  {
    if keys != [] {
      SortMembers(keys[1..], x);
      InsertMembers(keys[0], Sort(keys[1..]), x);
      assert keys == [keys[0]] + keys[1..];
    }
  }

  lemma {:induction false} SortAscending(keys: seq<Key>)
    requires forall i, j :: 0 <= i < j < |keys| ==> keys[i] != keys[j]
    ensures Ascending(Sort(keys))
  {
    if keys != [] {
      SortAscending(keys[1..]);
      SortMembers(keys[1..], keys[0]);
      InsertAscending(keys[0], Sort(keys[1..]));
    }
  }

  /** The keys of the rows below `n` that pass the filter. */
  function Matching(n: nat, filter: nat -> bool, key: nat -> Key): seq<Key> {
    if n == 0 then []
    else Matching(n - 1, filter, key) + (if filter(n - 1) then [key(n - 1)] else [])
  }

  function Ids(keys: seq<Key>): seq<nat> {
    seq(|keys|, i requires 0 <= i < |keys| => keys[i].id)
  }

  function OrderBy(n: nat, filter: nat -> bool, key: nat -> Key): seq<nat> {
    Ids(Sort(Matching(n, filter, key)))
  }

  lemma {:induction false} MatchingRows(n: nat, filter: nat -> bool, key: nat -> Key, k: Key)
    requires forall i: nat :: i < n ==> key(i).id == i
    ensures k in Matching(n, filter, key) <==> k.id < n && filter(k.id) && key(k.id) == k
    ensures forall i, j ::
      0 <= i < j < |Matching(n, filter, key)| ==> Matching(n, filter, key)[i] != Matching(n, filter, key)[j]
  {
    if 0 < n {
      var front := Matching(n - 1, filter, key);
      MatchingRows(n - 1, filter, key, k);
      MatchingRows(n - 1, filter, key, key(n - 1));
    }
  }

  /** Further rows that do not pass a filter are not noticed. */
  lemma {:induction false} MatchingSame(n: nat, filter: nat -> bool, key: nat -> Key, m: nat, other: nat -> bool,
                                        otherKey: nat -> Key)
    requires n <= m
    requires forall i: nat :: i < n ==> other(i) == filter(i) && otherKey(i) == key(i)
    requires forall i: nat :: n <= i < m ==> !other(i)
    ensures Matching(m, other, otherKey) == Matching(n, filter, key)
  {
    if n < m { MatchingSame(n, filter, key, m - 1, other, otherKey); }
    else if 0 < n { MatchingSame(n - 1, filter, key, n - 1, other, otherKey); }
  }

  /** `ids` lists exactly the rows that pass the filter, each once, in key order. */
  ghost predicate Selects(ids: seq<nat>, n: nat, filter: nat -> bool, key: nat -> Key) {
    && (forall i: nat :: i in ids <==> i < n && filter(i))
    && (forall i, j :: 0 <= i < j < |ids| ==> Precedes(key(ids[i]), key(ids[j])))
  }

  lemma OrderBySelects(n: nat, filter: nat -> bool, key: nat -> Key)
    requires forall i: nat :: i < n ==> key(i).id == i
    ensures Selects(OrderBy(n, filter, key), n, filter, key)
  {
    var keys := Matching(n, filter, key);
    var sorted := Sort(keys);
    MatchingRows(n, filter, key, Key(0, 0, 0));
    SortAscending(keys);
    var ids := Ids(sorted);
    forall i | 0 <= i < |ids|
      ensures sorted[i] == key(ids[i]) && ids[i] < n && filter(ids[i])
    {
      SortMembers(keys, sorted[i]);
      MatchingRows(n, filter, key, sorted[i]);
    }
    forall i: nat | i < n && filter(i) ensures i in ids {
      MatchingRows(n, filter, key, key(i));
      SortMembers(keys, key(i));
      var p :| 0 <= p < |sorted| && sorted[p] == key(i);
      assert ids[p] == i;
    }
  }

  /** Of two listed rows the one with the smaller key stands first. */
  lemma Positions(ids: seq<nat>, n: nat, filter: nat -> bool, key: nat -> Key, x: nat, y: nat) returns (i: nat, j: nat)
    requires Selects(ids, n, filter, key)
    requires x < n && y < n && filter(x) && filter(y) && Precedes(key(x), key(y))
    ensures i < j < |ids| && ids[i] == x && ids[j] == y
  {
    assert x in ids && y in ids;
    i :| 0 <= i < |ids| && ids[i] == x;
    j :| 0 <= j < |ids| && ids[j] == y;
  }

  /** Visiting the next row of a table whose keys ascend. */
  lemma SelectsNext(ids: seq<nat>, n: nat, filter: nat -> bool, key: nat -> Key)
    requires Selects(ids, n, filter, key) && forall i: nat :: i < n ==> Precedes(key(i), key(n))
    ensures Selects(if filter(n) then ids + [n] else ids, n + 1, filter, key)
  {
    var next := if filter(n) then ids + [n] else ids;
    forall i: nat ensures i in next <==> i < n + 1 && filter(i) {
      assert i in ids <==> i < n && filter(i);
    }
    forall i, j | 0 <= i < j < |next| ensures Precedes(key(next[i]), key(next[j])) {
      assert ids[i] in ids;
    }
  }

  lemma SelectsHead(ids: seq<nat>, others: seq<nat>, n: nat, filter: nat -> bool, key: nat -> Key)
    requires Selects(ids, n, filter, key) && Selects(others, n, filter, key) && others != []
    ensures ids != [] && ids[0] == others[0]
  {
    var x := others[0];
    assert x in others;
    assert x < n && filter(x);
    assert x in ids;
    assert ids[0] in ids;
    assert ids[0] in others;
  }

  /** Only one list selects the rows of a filter in the order of a key. */
  lemma {:induction false} SelectsUnique(ids: seq<nat>, others: seq<nat>, n: nat, filter: nat -> bool, key: nat -> Key)
    requires Selects(ids, n, filter, key) && Selects(others, n, filter, key)
    ensures ids == others
    decreases ids
  {
    if others != [] { SelectsHead(ids, others, n, filter, key); }
    if ids != [] {
      SelectsHead(others, ids, n, filter, key);
      var x := ids[0];
      var rest := (i: nat) => i != x && filter(i);
      SelectsUnique(ids[1..], others[1..], n, rest, key);
    }
  }

}
