/**
 * What the services need of a Spring Data repository, over an in-memory
 * map: the ids in storage order (ascending, since ids come from a counter
 * that only grows), removal of one id, and `findAll(pageable)` as a slice
 * of that order.
 */
module Store {

  /** Strictly ascending, hence free of repeats. */
  ghost predicate Ascending(s: seq<int>)
  {
    forall i, j :: 0 <= i < j < |s| ==> s[i] < s[j]
  }

  /** `order` lists exactly the stored ids, ascending, all below the next fresh id. */
  ghost predicate Lists(order: seq<int>, keys: set<int>, nextId: int)
  {
    && Ascending(order)
    && (forall i :: 0 <= i < |order| ==> order[i] in keys && order[i] < nextId)
    && (forall k :: k in keys ==> k in order)
  }

  /** A fresh id appended at the end keeps the listing exact and ascending. */
  lemma ListsInsert(order: seq<int>, keys: set<int>, nextId: int)
    requires Lists(order, keys, nextId)
    ensures Lists(order + [nextId], keys + {nextId}, nextId + 1)
  {
  }

  /** `order` with `id` taken out, the rest in the same order. */
  function Without(order: seq<int>, id: int): (r: seq<int>)
    ensures |r| <= |order|
    ensures forall i :: 0 <= i < |r| ==> r[i] != id
    ensures id !in order ==> r == order
    decreases |order|
  {
    if |order| == 0 then []
    else (if order[0] == id then [] else [order[0]]) + Without(order[1..], id)
  }

  /** Removing an id keeps every other id and only those. */
  lemma {:induction false} WithoutMembers(order: seq<int>, id: int)
    ensures forall k :: k in Without(order, id) <==> k in order && k != id
    decreases |order|
  {
    if |order| > 0 {
      WithoutMembers(order[1..], id);
      assert order == [order[0]] + order[1..];
    }
  }

  /** Removing an id keeps the listing ascending. */
  lemma {:induction false} WithoutAscending(order: seq<int>, id: int)
    requires Ascending(order)
    ensures Ascending(Without(order, id))
    decreases |order|
  {
    if |order| > 0 {
      var rest := Without(order[1..], id);
      WithoutAscending(order[1..], id);
      WithoutMembers(order[1..], id);
      forall j | 0 <= j < |rest| ensures order[0] < rest[j] {
        assert rest[j] in rest;
        var m :| 0 <= m < |order[1..]| && order[1..][m] == rest[j];
        assert order[1 + m] == rest[j];
      }
    }
  }

  /** Deleting a stored id leaves an exact listing of the remaining ids. */
  lemma ListsRemove(order: seq<int>, keys: set<int>, nextId: int, id: int)
    requires Lists(order, keys, nextId)
    ensures Lists(Without(order, id), keys - {id}, nextId)
  {
    WithoutMembers(order, id);
    WithoutAscending(order, id);
    var r := Without(order, id);
    forall i | 0 <= i < |r| ensures r[i] in keys - {id} && r[i] < nextId {
      assert r[i] in r;
    }
  }

  /** The ids `findAll(PageRequest.of(page, size))` returns: the `page`-th run of `size` ids. */
  function PageOf(order: seq<int>, page: nat, size: nat): (r: seq<int>)
    requires size > 0
    ensures |r| <= size
    ensures r == [] <==> page * size >= |order|
    ensures page * size < |order| ==> |r| == if |order| - page * size < size then |order| - page * size else size
    ensures forall i :: 0 <= i < |r| ==> page * size + i < |order| && r[i] == order[page * size + i]
  {
    var start := page * size;
    if start >= |order| then []
    else if start + size <= |order| then order[start..start + size]
    else order[start..]
  }
}
