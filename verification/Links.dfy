/** Singly linked lists threaded through the cells of a pool: `next` holds each cell's link word. */
module Links {
  import opened WaitList

  const NIL := -1

  ghost predicate LinkAt(next: seq<int>, cells: seq<nat>, i: nat)
    requires i < |cells|
  {
    cells[i] < |next| && next[cells[i]] == if i + 1 < |cells| then cells[i + 1] else NIL
  }

  /** Following `next` from `head` visits exactly `cells`. */
  ghost predicate Chained(next: seq<int>, head: int, cells: seq<nat>)
  {
    && head == (if cells == [] then NIL else cells[0])
    && forall i :: 0 <= i < |cells| ==> LinkAt(next, cells, i)
  }

  lemma ChainedElsewhere(next: seq<int>, head: int, cells: seq<nat>, c: nat, x: int)
    requires Chained(next, head, cells) && c < |next| && c !in cells
    ensures Chained(next[c := x], head, cells)
  {
    var now := next[c := x];
    forall i | 0 <= i < |cells|
      ensures LinkAt(now, cells, i)
    {
      assert LinkAt(next, cells, i);
    }
  }

  lemma ChainedTail(next: seq<int>, head: int, cells: seq<nat>)
    requires Chained(next, head, cells) && cells != []
    ensures cells[0] < |next| && Chained(next, next[cells[0]], cells[1..])
  {
    assert LinkAt(next, cells, 0);
    var r := cells[1..];
    forall i | 0 <= i < |r|
      ensures LinkAt(next, r, i)
    {
      assert LinkAt(next, cells, i + 1);
    }
  }

  lemma ChainedPush(next: seq<int>, head: int, cells: seq<nat>, c: nat)
    requires Chained(next, head, cells) && c < |next| && c !in cells
    ensures Chained(next[c := head], c, [c] + cells)
  {
    var r, now := [c] + cells, next[c := head];
    forall i | 0 <= i < |r|
      ensures LinkAt(now, r, i)
    {
      assert 0 < i ==> LinkAt(next, cells, i - 1);
    }
  }

  lemma ChainedAppend(next: seq<int>, head: int, cells: seq<nat>, c: nat)
    requires Chained(next, head, cells) && c < |next| && c !in cells && next[c] == NIL && Distinct(cells) && cells != []
    requires cells[|cells| - 1] < |next|
    ensures Chained(next[cells[|cells| - 1] := c], head, cells + [c])
  {
    var r, now := cells + [c], next[cells[|cells| - 1] := c];
    forall i | 0 <= i < |r|
      ensures LinkAt(now, r, i)
    {
      assert i < |cells| ==> LinkAt(next, cells, i);
    }
  }
}
