/**
 * Views of a task forest used to state what the parser builds and what the
 * id-addressed mutators change: the multiset of ids at every depth, the
 * preorder outline (each node with its depth and without its children), and
 * the bare skeleton of ids and nesting.
 */
module Forest {
  import opened Types

  /** Every id in the forest, at every depth, with multiplicity. */
  function IdBag(items: seq<Task>): multiset<Id>
    decreases items
  {
    if items == [] then multiset{}
    else multiset{items[0].id} + IdBag(items[0].subtasks) + IdBag(items[1..])
  }

  predicate Occurs(items: seq<Task>, id: Id) {
    id in IdBag(items)
  }

  /** The forest invariant of the data model: no id occurs twice, at any depth. */
  predicate Distinct(items: seq<Task>) {
    forall x | x in IdBag(items) :: IdBag(items)[x] == 1
  }

  /** All ids lie below `bound`, so every id drawn from the supply at `bound` or later is fresh. */
  predicate IdsBelow(items: seq<Task>, bound: Id) {
    forall x | x in IdBag(items) :: x < bound
  }

  lemma {:induction false} IdBagAppend(a: seq<Task>, b: seq<Task>)
    ensures IdBag(a + b) == IdBag(a) + IdBag(b)
    decreases |a|
  {
    if a != [] {
      assert (a + b)[0] == a[0];
      assert (a + b)[1..] == a[1..] + b;
      IdBagAppend(a[1..], b);
    } else {
      assert a + b == b;
    }
  }

  lemma IdBagSingle(t: Task)
    ensures IdBag([t]) == multiset{t.id} + IdBag(t.subtasks)
  {
    assert [t][1..] == [];
  }

  /** The ids of a distinct forest split into disjoint, distinct parts: the head, its children, the rest. */
  lemma DistinctParts(items: seq<Task>)
    requires items != [] && Distinct(items)
    ensures Distinct(items[0].subtasks) && Distinct(items[1..])
    ensures !Occurs(items[0].subtasks, items[0].id) && !Occurs(items[1..], items[0].id)
    ensures IdBag(items[0].subtasks) !! IdBag(items[1..])
  {
    var bag := IdBag(items);
    var sub, rest := IdBag(items[0].subtasks), IdBag(items[1..]);
    assert bag == multiset{items[0].id} + sub + rest;
    assert bag[items[0].id] == 1;
    forall x | x in sub ensures sub[x] == 1 && x !in rest {
      assert bag[x] == multiset{items[0].id}[x] + sub[x] + rest[x];
    }
    forall x | x in rest ensures rest[x] == 1 {
      assert bag[x] == multiset{items[0].id}[x] + sub[x] + rest[x];
    }
  }

  /** Two distinct forests with disjoint ids form a distinct forest. */
  lemma {:induction false} DistinctAppend(a: seq<Task>, b: seq<Task>)
    requires Distinct(a) && Distinct(b) && IdBag(a) !! IdBag(b)
    ensures Distinct(a + b)
  {
    IdBagAppend(a, b);
    forall x | x in IdBag(a + b) ensures IdBag(a + b)[x] == 1 {
      assert IdBag(a + b)[x] == IdBag(a)[x] + IdBag(b)[x];
    }
  }

  /** Adding one id that does not occur yet keeps a forest distinct. */
  lemma DistinctAddFresh(items: seq<Task>, items': seq<Task>, id: Id)
    requires Distinct(items) && !Occurs(items, id)
    requires IdBag(items') == IdBag(items) + multiset{id}
    ensures Distinct(items')
  {
    forall x | x in IdBag(items') ensures IdBag(items')[x] == 1 {
      assert IdBag(items')[x] == IdBag(items)[x] + multiset{id}[x];
    }
  }

  /** A forest whose ids are among those of a distinct forest is distinct, and keeps every bound. */
  lemma DistinctSub(a: seq<Task>, b: seq<Task>, bound: Id)
    requires IdBag(a) <= IdBag(b) && Distinct(b)
    ensures Distinct(a)
    ensures IdsBelow(b, bound) ==> IdsBelow(a, bound)
  {
    forall x | x in IdBag(a) ensures IdBag(a)[x] == 1 {
      assert IdBag(a)[x] <= IdBag(b)[x];
    }
  }

  /** A node's own data, without its children. */
  function Data(t: Task): Task {
    t.(subtasks := [])
  }

  datatype Entry = Entry(depth: nat, node: Task)

  /**
   * The preorder outline of a forest whose roots sit at `depth`. It determines
   * the forest: the nodes' data, their order and their nesting.
   */
  function Outline(items: seq<Task>, depth: nat): seq<Entry>
    decreases items
  {
    if items == [] then []
    else [Entry(depth, Data(items[0]))] + Outline(items[0].subtasks, depth + 1) + Outline(items[1..], depth)
  }

  lemma {:induction false} OutlineAppend(a: seq<Task>, b: seq<Task>, depth: nat)
    ensures Outline(a + b, depth) == Outline(a, depth) + Outline(b, depth)
    decreases |a|
  {
    if a != [] {
      assert (a + b)[0] == a[0];
      assert (a + b)[1..] == a[1..] + b;
      OutlineAppend(a[1..], b, depth);
    } else {
      assert a + b == b;
    }
  }

  lemma OutlineSingle(t: Task, depth: nat)
    ensures Outline([t], depth) == [Entry(depth, Data(t))] + Outline(t.subtasks, depth + 1)
  {
    assert [t][1..] == [];
  }

  /** Appending a childless node to a node's children appends one entry, one level deeper, to its outline. */
  lemma OutlineAddChild(t: Task, child: Task, depth: nat)
    requires child.subtasks == []
    ensures Outline([t.(subtasks := t.subtasks + [child])], depth) == Outline([t], depth) + [Entry(depth + 1, child)]
  {
    var t' := t.(subtasks := t.subtasks + [child]);
    OutlineSingle(t, depth);
    OutlineSingle(t', depth);
    OutlineAppend(t.subtasks, [child], depth + 1);
    OutlineSingle(child, depth + 1);
    assert Data(t') == Data(t);
    assert Data(child) == child;
  }

  /** Every entry of an outline whose roots sit at `depth` is at least that deep; the first is exactly that deep. */
  lemma {:induction false} OutlineDepths(items: seq<Task>, depth: nat)
    ensures forall k :: 0 <= k < |Outline(items, depth)| ==> Outline(items, depth)[k].depth >= depth
    ensures items != [] ==> Outline(items, depth)[0].depth == depth
    decreases items
  {
    if items != [] {
      OutlineDepths(items[0].subtasks, depth + 1);
      OutlineDepths(items[1..], depth);
    }
  }

  /** The outline lists exactly the ids of the forest. */
  lemma {:induction false} OutlineIds(items: seq<Task>, depth: nat)
    ensures forall k :: 0 <= k < |Outline(items, depth)| ==> Occurs(items, Outline(items, depth)[k].node.id)
    decreases items
  {
    if items != [] {
      OutlineIds(items[0].subtasks, depth + 1);
      OutlineIds(items[1..], depth);
      var a, b := Outline(items[0].subtasks, depth + 1), Outline(items[1..], depth);
      var es := Outline(items, depth);
      forall k | 0 <= k < |es| ensures Occurs(items, es[k].node.id) {
        if k == 0 {
        } else if k <= |a| {
          assert es[k] == a[k - 1];
        } else {
          assert es[k] == b[k - 1 - |a|];
        }
      }
    }
  }

  /** The number of leading entries deeper than `depth`: the rest of a block that opened at `depth`. */
  function BlockLength(es: seq<Entry>, depth: nat): (n: nat)
    ensures n <= |es|
  {
    if es == [] || es[0].depth <= depth then 0 else 1 + BlockLength(es[1..], depth)
  }

  /** The block is the longest prefix of entries deeper than `depth`. */
  lemma {:induction false} BlockLengthFacts(es: seq<Entry>, depth: nat)
    ensures forall k :: 0 <= k < BlockLength(es, depth) ==> es[k].depth > depth
    ensures BlockLength(es, depth) < |es| ==> es[BlockLength(es, depth)].depth <= depth
  {
    if es != [] && es[0].depth > depth {
      BlockLengthFacts(es[1..], depth);
      assert forall k :: 1 <= k < BlockLength(es, depth) ==> es[k] == es[1..][k - 1];
    }
  }

  lemma {:induction false} BlockLengthIs(es: seq<Entry>, depth: nat, n: nat)
    requires n <= |es|
    requires forall k :: 0 <= k < n ==> es[k].depth > depth
    requires n < |es| ==> es[n].depth <= depth
    ensures BlockLength(es, depth) == n
    decreases n
  {
    if n > 0 {
      assert forall k :: 0 <= k < n - 1 ==> es[1..][k] == es[k + 1];
      BlockLengthIs(es[1..], depth, n - 1);
    }
  }

  /** After an entry at `depth`, its block is exactly the outline of its children. */
  lemma BlockOfChildren(children: seq<Task>, rest: seq<Task>, depth: nat)
    ensures BlockLength(Outline(children, depth + 1) + Outline(rest, depth), depth) == |Outline(children, depth + 1)|
  {
    var a, b := Outline(children, depth + 1), Outline(rest, depth);
    OutlineDepths(children, depth + 1);
    OutlineDepths(rest, depth);
    assert forall k :: 0 <= k < |a| ==> (a + b)[k] == a[k];
    BlockLengthIs(a + b, depth, |a|);
  }

  /** A block that ends inside `a` ends at the same place in `a + b`, and one reaching the end of `a` stops where `b` is shallow enough. */
  lemma BlockLengthAppend(a: seq<Entry>, b: seq<Entry>, depth: nat)
    requires b == [] || b[0].depth <= depth
    ensures BlockLength(a + b, depth) == BlockLength(a, depth)
  {
    var n := BlockLength(a, depth);
    BlockLengthFacts(a, depth);
    assert forall k :: 0 <= k < n ==> (a + b)[k] == a[k];
    BlockLengthIs(a + b, depth, n);
  }

  /** The position of the first entry for `id`, or the length when there is none. */
  function Find(es: seq<Entry>, id: Id): (i: nat)
    ensures i <= |es|
  {
    if es == [] || es[0].node.id == id then 0 else 1 + Find(es[1..], id)
  }

  /** `Find` stops at the first entry for `id` and passes only entries for other ids. */
  lemma {:induction false} FindFacts(es: seq<Entry>, id: Id)
    ensures Find(es, id) < |es| ==> es[Find(es, id)].node.id == id
    ensures forall k :: 0 <= k < Find(es, id) ==> es[k].node.id != id
  {
    if es != [] && es[0].node.id != id {
      FindFacts(es[1..], id);
      assert forall k :: 1 <= k < Find(es, id) ==> es[k] == es[1..][k - 1];
    }
  }

  lemma {:induction false} FindIs(es: seq<Entry>, id: Id, i: nat)
    requires i <= |es|
    requires i < |es| ==> es[i].node.id == id
    requires forall k :: 0 <= k < i ==> es[k].node.id != id
    ensures Find(es, id) == i
    decreases i
  {
    if i > 0 {
      assert forall k :: 0 <= k < i - 1 ==> es[1..][k] == es[k + 1];
      FindIs(es[1..], id, i - 1);
    }
  }

  /** The end of the block that opens at position `i`: the entry and everything deeper right after it. */
  function BlockEnd(es: seq<Entry>, i: nat): (j: nat)
    requires i < |es|
    ensures i < j <= |es|
  {
    i + 1 + BlockLength(es[i + 1..], es[i].depth)
  }

  /** The ids and the nesting of a forest, without any other field. */
  datatype Skeleton = Skeleton(id: Id, children: seq<Skeleton>)

  function SkeletonOf(items: seq<Task>): seq<Skeleton>
    decreases items
  {
    if items == [] then []
    else [Skeleton(items[0].id, SkeletonOf(items[0].subtasks))] + SkeletonOf(items[1..])
  }
}
