/** Circular doubly linked lists: a next and a prev link for every member. */
module Ring {
  import opened WaitList

  ghost predicate StepAt(next: map<int, int>, prev: map<int, int>, nodes: seq<int>, i: nat)
    requires i < |nodes|
  {
    var a, b := nodes[i], nodes[if i + 1 < |nodes| then i + 1 else 0];
    a in next && next[a] == b && b in prev && prev[b] == a
  }

  /** Both ways round the ring visits exactly `nodes`. */
  ghost predicate IsRing(next: map<int, int>, prev: map<int, int>, nodes: seq<int>)
  {
    nodes != [] && Distinct(nodes) && forall i :: 0 <= i < |nodes| ==> StepAt(next, prev, nodes, i)
  }

  /** What stands around a member. */
  lemma Around(next: map<int, int>, prev: map<int, int>, nodes: seq<int>, i: nat)
    requires IsRing(next, prev, nodes) && i < |nodes|
    ensures nodes[i] in next && next[nodes[i]] == nodes[if i + 1 < |nodes| then i + 1 else 0]
    ensures nodes[i] in prev && prev[nodes[i]] == nodes[if i > 0 then i - 1 else |nodes| - 1]
    ensures next[nodes[i]] in prev && prev[nodes[i]] in next
  {
    assert StepAt(next, prev, nodes, i);
    assert StepAt(next, prev, nodes, if i > 0 then i - 1 else |nodes| - 1);
  }

  function Inserted(nodes: seq<int>, i: nat, x: int): seq<int>
    requires i < |nodes|
  {
    nodes[..i + 1] + [x] + nodes[i + 1..]
  }

  /** The four stores that link a new member in behind another. */
  lemma InsertAfter(next: map<int, int>, prev: map<int, int>, nodes: seq<int>, i: nat, x: int)
    requires IsRing(next, prev, nodes) && i < |nodes| && x !in nodes
    ensures nodes[i] in next
    ensures var a, b := nodes[i], next[nodes[i]];
            IsRing(next[x := b][a := x], prev[x := a][b := x], Inserted(nodes, i, x))
  {
    Around(next, prev, nodes, i);
    var a, b, r := nodes[i], next[nodes[i]], Inserted(nodes, i, x);
    var next', prev' := next[x := b][a := x], prev[x := a][b := x];
    forall j | 0 <= j < |r|
      ensures StepAt(next', prev', r, j)
    {
      if j < i {
        assert StepAt(next, prev, nodes, j) && r[j] == nodes[j] && r[j + 1] == nodes[j + 1];
      } else if j > i + 1 {
        assert StepAt(next, prev, nodes, j - 1) && r[j] == nodes[j - 1];
      }
    }
    InsertedDistinct(nodes, i, x);
  }

  lemma InsertedDistinct(nodes: seq<int>, i: nat, x: int)
    requires Distinct(nodes) && i < |nodes| && x !in nodes
    ensures Distinct(Inserted(nodes, i, x))
  {
    var r := Inserted(nodes, i, x);
    assert forall j :: 0 <= j < |r| ==> r[j] == if j <= i then nodes[j] else if j == i + 1 then x else nodes[j - 1];
  }

  function Removed(nodes: seq<int>, i: nat): seq<int>
    requires i < |nodes|
  {
    nodes[..i] + nodes[i + 1..]
  }

  /** The two stores that take a member out; its own links stay. */
  lemma RemoveAt(next: map<int, int>, prev: map<int, int>, nodes: seq<int>, i: nat)
    requires IsRing(next, prev, nodes) && i < |nodes| && 1 < |nodes|
    ensures nodes[i] in next && nodes[i] in prev
    ensures var a, b := prev[nodes[i]], next[nodes[i]];
            IsRing(next[a := b], prev[b := a], Removed(nodes, i))
  {
    Around(next, prev, nodes, i);
    var a, b, r, n := prev[nodes[i]], next[nodes[i]], Removed(nodes, i), |nodes|;
    var next', prev' := next[a := b], prev[b := a];
    assert forall j :: 0 <= j < |r| ==> r[j] == nodes[if j < i then j else j + 1];
    forall j | 0 <= j < |r|
      ensures StepAt(next', prev', r, j)
    {
      assert StepAt(next, prev, nodes, if j < i then j else j + 1);
    }
  }
}
