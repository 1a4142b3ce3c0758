/**
 * The list type of CZMQ as ingescape uses it: items in order and one cursor that
 * every walk over the list shares.
 */
module ZLists {
  import opened Options

  /** The items without the one at an index. */
  function Cut<T>(items: seq<T>, at: nat): seq<T>
    requires at < |items|
  {
    items[..at] + items[at + 1..]
  }

  /** The second list has the items of the first at these indices, in order. */
  ghost predicate InOrder<T>(before: seq<T>, after: seq<T>, at: seq<nat>) {
    && |at| == |after|
    && (forall j :: 0 <= j < |at| ==> at[j] < |before| && after[j] == before[at[j]])
    && (forall j, k :: 0 <= j < k < |at| ==> at[j] < at[k])
  }

  /** One more item, which is kept or not. */
  lemma InOrderMore<T>(before: seq<T>, after: seq<T>, at: seq<nat>, item: T)
    requires InOrder(before, after, at)
    ensures InOrder(before + [item], after, at) && |before| !in at
    ensures InOrder(before + [item], after + [item], at + [|before|])
  {
  }

  /** Where zlist_next moves a cursor. */
  function NextCursor(cursor: int, size: nat): int {
    if cursor + 1 < size then cursor + 1 else -1
  }

  class ZList<T> {
    var items: seq<T>
    /** Index of the cursor node, or -1 when the cursor is unset. */
    var cursor: int

    ghost predicate Valid()
      reads this
    {
      -1 <= cursor < |items|
    }

    constructor ()
      ensures Valid() && items == [] && cursor == -1
    {
      items, cursor := [], -1;
    }

    /** What the cursor points at. */
    function Current(): Option<T>
      requires Valid()
      reads this
    {
      if cursor < 0 then None else Some(items[cursor])
    }

    method First() returns (item: Option<T>)
      requires Valid()
      modifies this`cursor
      ensures Valid() && item == Current()
      ensures cursor == if items == [] then -1 else 0
    {
      cursor := if items == [] then -1 else 0;
      item := Current();
    }

    /** Without a cursor, the next item is the head of the list. */
    method Next() returns (item: Option<T>)
      requires Valid()
      modifies this`cursor
      ensures Valid() && item == Current()
      ensures cursor == NextCursor(old(cursor), |items|)
    {
      cursor := NextCursor(cursor, |items|);
      item := Current();
    }

    method Append(item: T)
      requires Valid()
      modifies this
      ensures Valid() && items == old(items) + [item] && cursor == -1
    {
      items, cursor := items + [item], -1;
    }

    /**
     * zlist_remove for the item under the cursor, which is how ingescape calls it: items
     * are compared by address, so this is the cursor node. The cursor moves to its
     * predecessor.
     */
    method RemoveCurrent()
      requires Valid() && cursor >= 0
      modifies this
      ensures Valid() && items == Cut(old(items), old(cursor))
      ensures cursor == old(cursor) - 1
    {
      items := Cut(items, cursor);
      cursor := cursor - 1;
    }
  }
}
