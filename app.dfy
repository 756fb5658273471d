/**
 * The application state of src/App.tsx: the task forest with its id-addressed
 * mutators, the project list, and the quest stage derived from the roots.
 *
 * The five `map` rebuilds of the source (status, project, priority, expansion,
 * new subtask) share one shape: the node whose id matches is replaced and its
 * children are not visited, every other node is copied with its children
 * rebuilt. The model writes that shape once, as `Rebuild`, with the change a
 * value of type `Edit`.
 */
module App {
  import opened Types
  import opened Forest
  import TaskParser

  /** The change a rebuild applies to the matched node. */
  datatype Edit =
    | SetStatus(status: Status)
    | SetProject(project: string)
    | SetPriority(priority: Priority)
    | ToggleExpanded
    | AddChild(childId: Id)

  /** The subtask `addSubtask` appends, under a parent with status `status`. */
  function NewSubtask(id: Id, status: Status): (t: Task)
    ensures t.id == id && t.content == "New subtask" && t.status == status
    ensures t.subtasks == [] && t.isExpanded && t.priority == Some(Low) && t.project.None?
  {
    Task(id, "New subtask", status, None, [], true, Some(Low), None, None)
  }

  /** The replacement for the matched node. */
  function Apply(e: Edit, t: Task): (r: Task)
    ensures r.id == t.id && r.content == t.content
    ensures !e.AddChild? ==> r.subtasks == t.subtasks
  {
    match e
    case SetStatus(s) => t.(status := s)
    case SetProject(p) => t.(project := Some(p))
    case SetPriority(p) => t.(priority := Some(p))
    case ToggleExpanded => t.(isExpanded := !t.isExpanded)
    case AddChild(n) => t.(subtasks := t.subtasks + [NewSubtask(n, t.status)], isExpanded := true)
  }

  /** The shared recursion of the rebuilds: as many roots as before. */
  function Rebuild(items: seq<Task>, id: Id, e: Edit): (r: seq<Task>)
    ensures |r| == |items|
    decreases items
  {
    if items == [] then []
    else
      var t := items[0];
      [if t.id == id then Apply(e, t) else t.(subtasks := Rebuild(t.subtasks, id, e))] + Rebuild(items[1..], id, e)
  }

  function UpdateStatus(items: seq<Task>, id: Id, status: Status): seq<Task> {
    Rebuild(items, id, SetStatus(status))
  }

  function UpdateProject(items: seq<Task>, id: Id, project: string): seq<Task> {
    Rebuild(items, id, SetProject(project))
  }

  function UpdatePriority(items: seq<Task>, id: Id, priority: Priority): seq<Task> {
    Rebuild(items, id, SetPriority(priority))
  }

  function ToggleExpand(items: seq<Task>, id: Id): seq<Task> {
    Rebuild(items, id, ToggleExpanded)
  }

  /** `addSubtask(parentId)`, with `childId` the fresh id the new subtask receives. */
  function AddSubtask(items: seq<Task>, parentId: Id, childId: Id): seq<Task> {
    Rebuild(items, parentId, AddChild(childId))
  }

  /** `deleteTask`: a node whose id matches is dropped with everything below it. */
  function DeleteTask(items: seq<Task>, id: Id): (r: seq<Task>)
    ensures |r| <= |items|
    decreases items
  {
    if items == [] then []
    else if items[0].id == id then DeleteTask(items[1..], id)
    else [items[0].(subtasks := DeleteTask(items[0].subtasks, id))] + DeleteTask(items[1..], id)
  }

  // ---------------------------------------------------------------------------
  // The rebuilds, root by root
  // ---------------------------------------------------------------------------

  /** Each root is either the matched node, edited, or a copy with its children rebuilt. */
  lemma {:induction false} RebuildRoot(items: seq<Task>, id: Id, e: Edit, k: nat)
    requires k < |items|
    ensures Rebuild(items, id, e)[k] ==
      if items[k].id == id then Apply(e, items[k])
      else items[k].(subtasks := Rebuild(items[k].subtasks, id, e))
    decreases k
  {
    if k > 0 {
      RebuildRoot(items[1..], id, e, k - 1);
    }
  }

  /** A rebuild for an id that occurs nowhere leaves the forest as it was. */
  lemma {:induction false} RebuildAbsent(items: seq<Task>, id: Id, e: Edit)
    requires !Occurs(items, id)
    ensures Rebuild(items, id, e) == items
    decreases items
  {
    if items != [] {
      RebuildAbsent(items[0].subtasks, id, e);
      RebuildAbsent(items[1..], id, e);
      assert items == [items[0]] + items[1..];
    }
  }

  /** The edits other than adding a child keep every id, at every depth, in place. */
  lemma {:induction false} RebuildSkeleton(items: seq<Task>, id: Id, e: Edit)
    requires !e.AddChild?
    ensures SkeletonOf(Rebuild(items, id, e)) == SkeletonOf(items)
    decreases items
  {
    if items != [] {
      RebuildSkeleton(items[0].subtasks, id, e);
      RebuildSkeleton(items[1..], id, e);
      RebuildCons(items, id, e);
    }
  }

  /** The same edits keep the multiset of ids. */
  lemma {:induction false} RebuildIds(items: seq<Task>, id: Id, e: Edit)
    requires !e.AddChild?
    ensures IdBag(Rebuild(items, id, e)) == IdBag(items)
    decreases items
  {
    if items != [] {
      RebuildIds(items[0].subtasks, id, e);
      RebuildIds(items[1..], id, e);
      RebuildCons(items, id, e);
    }
  }

  /** Hence they keep the ids distinct and below any bound they were below. */
  lemma RebuildKeepsIds(items: seq<Task>, id: Id, e: Edit, bound: Id)
    requires !e.AddChild? && Distinct(items) && IdsBelow(items, bound)
    ensures Distinct(Rebuild(items, id, e)) && IdsBelow(Rebuild(items, id, e), bound)
  {
    RebuildIds(items, id, e);
  }

  /** Toggling the same node twice restores the forest. */
  lemma {:induction false} ToggleTwice(items: seq<Task>, id: Id)
    ensures ToggleExpand(ToggleExpand(items, id), id) == items
    decreases items
  {
    if items != [] {
      var once := ToggleExpand(items, id);
      assert once[1..] == ToggleExpand(items[1..], id);
      ToggleTwice(items[1..], id);
      if items[0].id != id {
        ToggleTwice(items[0].subtasks, id);
      }
      assert items == [items[0]] + items[1..];
    }
  }

  /** One level of `IdBag`: the head's id and children, then the rest. */
  lemma IdBagCons(items: seq<Task>)
    requires items != []
    ensures IdBag(items) == multiset{items[0].id} + IdBag(items[0].subtasks) + IdBag(items[1..])
  {
  }

  /** A rebuilt forest starts with the rebuilt head, followed by the rebuilt rest. */
  lemma RebuildCons(items: seq<Task>, id: Id, e: Edit)
    requires items != []
    ensures Rebuild(items, id, e)[1..] == Rebuild(items[1..], id, e)
  {
  }

  /** Adding a child to one node adds exactly the child's id to that node's ids. */
  lemma AddChildIds(t: Task, childId: Id)
    ensures IdBag(Apply(AddChild(childId), t).subtasks) == IdBag(t.subtasks) + multiset{childId}
  {
    var child := NewSubtask(childId, t.status);
    assert Apply(AddChild(childId), t).subtasks == t.subtasks + [child];
    IdBagAppend(t.subtasks, [child]);
    IdBagSingle(child);
  }

  /** The ids of a forest whose head is `head`, in terms of the head's parts. */
  lemma IdBagOfCons(head: Task, rest: seq<Task>)
    ensures IdBag([head] + rest) == multiset{head.id} + IdBag(head.subtasks) + IdBag(rest)
  {
    assert ([head] + rest)[1..] == rest;
  }

  /** Adding a subtask under an id that occurs once adds exactly the new id. */
  lemma {:induction false} AddSubtaskIds(items: seq<Task>, parentId: Id, childId: Id)
    requires Distinct(items)
    ensures IdBag(AddSubtask(items, parentId, childId)) ==
      IdBag(items) + (if Occurs(items, parentId) then multiset{childId} else multiset{})
    decreases items
  {
    if items != [] {
      var t, rest := items[0], items[1..];
      var e := AddChild(childId);
      var m := multiset{childId};
      DistinctParts(items);
      IdBagCons(items);
      var r := Rebuild(rest, parentId, e);
      if t.id == parentId {
        assert AddSubtask(items, parentId, childId) == [Apply(e, t)] + rest by {
          RebuildCons(items, parentId, e);
          RebuildRoot(items, parentId, e, 0);
          RebuildAbsent(rest, parentId, e);
        }
        calc {
          IdBag([Apply(e, t)] + rest);
          { IdBagOfCons(Apply(e, t), rest); AddChildIds(t, childId); }
          multiset{t.id} + (IdBag(t.subtasks) + m) + IdBag(rest);
          IdBag(items) + m;
        }
      } else {
        var sub := Rebuild(t.subtasks, parentId, e);
        assert AddSubtask(items, parentId, childId) == [t.(subtasks := sub)] + r by {
          RebuildCons(items, parentId, e);
          RebuildRoot(items, parentId, e, 0);
        }
        AddSubtaskIds(rest, parentId, childId);
        AddSubtaskIds(t.subtasks, parentId, childId);
        IdBagOfCons(t.(subtasks := sub), r);
        var inSub, inRest := Occurs(t.subtasks, parentId), Occurs(rest, parentId);
        assert Occurs(items, parentId) <==> inSub || inRest;
        BagsWithOneAddition(t.id, IdBag(t.subtasks), IdBag(sub), IdBag(rest), IdBag(r), m, inSub, inRest);
      }
    }
  }

  /** Adding `m` to at most one of two parts adds it to the whole at most once. */
  lemma BagsWithOneAddition(x: Id, s0: multiset<Id>, s1: multiset<Id>, r0: multiset<Id>, r1: multiset<Id>,
                            m: multiset<Id>, inS: bool, inR: bool)
    requires s1 == s0 + (if inS then m else multiset{})
    requires r1 == r0 + (if inR then m else multiset{})
    requires !(inS && inR)
    ensures multiset{x} + s1 + r1 == multiset{x} + s0 + r0 + (if inS || inR then m else multiset{})
  {
  }

  /** With a fresh id for the child, adding a subtask keeps the forest distinct and bounded. */
  lemma AddSubtaskKeepsDistinct(items: seq<Task>, parentId: Id, childId: Id)
    requires Distinct(items) && IdsBelow(items, childId)
    ensures Distinct(AddSubtask(items, parentId, childId))
    ensures IdsBelow(AddSubtask(items, parentId, childId), childId + 1)
  {
    var r := AddSubtask(items, parentId, childId);
    AddSubtaskIds(items, parentId, childId);
    assert !Occurs(items, childId);
    if Occurs(items, parentId) {
      DistinctAddFresh(items, r, childId);
    } else {
      assert IdBag(r) == IdBag(items);
    }
  }

  // ---------------------------------------------------------------------------
  // Deletion
  // ---------------------------------------------------------------------------

  lemma {:induction false} DeleteAbsent(items: seq<Task>, id: Id)
    requires !Occurs(items, id)
    ensures DeleteTask(items, id) == items
    decreases items
  {
    if items != [] {
      DeleteAbsent(items[0].subtasks, id);
      DeleteAbsent(items[1..], id);
      assert items == [items[0]] + items[1..];
    }
  }

  /** After a deletion no node at any depth carries the id, and no id is added. */
  lemma {:induction false} DeleteRemoves(items: seq<Task>, id: Id)
    ensures !Occurs(DeleteTask(items, id), id)
    ensures IdBag(DeleteTask(items, id)) <= IdBag(items)
    decreases items
  {
    if items != [] {
      DeleteRemoves(items[0].subtasks, id);
      DeleteRemoves(items[1..], id);
      if items[0].id != id {
        var r := DeleteTask(items, id);
        assert r[0] == items[0].(subtasks := DeleteTask(items[0].subtasks, id));
        assert r[1..] == DeleteTask(items[1..], id);
      }
    }
  }

  // ---------------------------------------------------------------------------
  // What the mutators do to the outline
  // ---------------------------------------------------------------------------

  /** The entry a rebuild adds after the matched node's block: the new subtask, one level deeper. */
  function Added(e: Edit, h: Entry): seq<Entry> {
    if e.AddChild? then [Entry(h.depth + 1, NewSubtask(e.childId, h.node.status))] else []
  }

  /** What replaces an edited entry `h` and its block: the edited entry, the same block, and any new child. */
  function Replacement(h: Entry, block: seq<Entry>, e: Edit): seq<Entry> {
    [Entry(h.depth, Data(Apply(e, h.node)))] + block + Added(e, h)
  }

  /** `s` with the slice from `i` to `j` replaced by `mid`. */
  function SpliceAt<T>(s: seq<T>, i: nat, j: nat, mid: seq<T>): seq<T>
    requires i <= j <= |s|
  {
    s[..i] + mid + s[j..]
  }

  /**
   * An outline with the entry at `i` edited: its own data changes, the block
   * of deeper entries after it is kept as it is, and a new child goes at the
   * end of the block. Nothing before or after the block changes.
   */
  function EditAt(es: seq<Entry>, i: nat, e: Edit): seq<Entry>
    requires i < |es|
  {
    var j := BlockEnd(es, i);
    SpliceAt(es, i, j, Replacement(es[i], es[i + 1..j], e))
  }

  /** An outline without the block that opens at `i`. */
  function DropAt(es: seq<Entry>, i: nat): seq<Entry>
    requires i < |es|
  {
    SpliceAt(es, i, BlockEnd(es, i), [])
  }

  /** Slices of a three-part sequence taken inside its middle part. */
  lemma SliceMiddle<T>(p: seq<T>, x: seq<T>, q: seq<T>, i: nat, j: nat)
    requires i <= j <= |x|
    ensures (p + x + q)[|p| + i..|p| + j] == x[i..j]
  {
  }

  /** Splicing inside the middle part of a three-part sequence. */
  lemma SpliceMiddle<T>(p: seq<T>, x: seq<T>, q: seq<T>, i: nat, j: nat, mid: seq<T>)
    requires i <= j <= |x|
    ensures SpliceAt(p + x + q, |p| + i, |p| + j, mid) == p + SpliceAt(x, i, j, mid) + q
  {
    var s := p + x + q;
    assert s[..|p| + i] == p + x[..i];
    assert s[|p| + j..] == x[j..] + q;
  }

  /** Splicing inside the last part of a two-part sequence. */
  lemma SpliceSuffix<T>(p: seq<T>, x: seq<T>, i: nat, j: nat, mid: seq<T>)
    requires i <= j <= |x|
    ensures SpliceAt(p + x, |p| + i, |p| + j, mid) == p + SpliceAt(x, i, j, mid)
  {
    var s := p + x;
    assert s[..|p| + i] == p + x[..i];
    assert s[|p| + j..] == x[j..];
  }

  /** Splicing out the first element and the part that follows it. */
  lemma SpliceFront<T>(h: T, a: seq<T>, b: seq<T>, mid: seq<T>)
    ensures SpliceAt([h] + a + b, 0, 1 + |a|, mid) == mid + b
  {
    var s := [h] + a + b;
    assert s[..0] == [];
    assert s[1 + |a|..] == b;
  }

  /** The parts of a sequence that opens with one element. */
  lemma SliceFront<T>(h: T, a: seq<T>, b: seq<T>)
    ensures ([h] + a + b)[0] == h
    ensures ([h] + a + b)[1..1 + |a|] == a
  {
  }

  /** A block inside a part of an outline that is followed by shallower entries ends inside that part. */
  lemma BlockEndShift(p: seq<Entry>, x: seq<Entry>, q: seq<Entry>, i: nat)
    requires i < |x|
    requires q == [] || q[0].depth <= x[i].depth
    ensures BlockEnd(p + x + q, |p| + i) == |p| + BlockEnd(x, i)
  {
    var s := p + x + q;
    assert s[|p| + i] == x[i];
    assert s[|p| + i + 1..] == x[i + 1..] + q;
    BlockLengthAppend(x[i + 1..], q, x[i].depth);
  }

  /** A block in the last part of an outline ends at the same place, shifted. */
  lemma BlockEndSuffix(p: seq<Entry>, x: seq<Entry>, i: nat)
    requires i < |x|
    ensures BlockEnd(p + x, |p| + i) == |p| + BlockEnd(x, i)
  {
    var s := p + x;
    assert s[|p| + i] == x[i];
    assert s[|p| + i + 1..] == x[i + 1..];
  }

  /** Editing in a part of an outline followed by shallower entries edits in the whole. */
  lemma EditAtShift(p: seq<Entry>, x: seq<Entry>, q: seq<Entry>, i: nat, e: Edit)
    requires i < |x|
    requires q == [] || q[0].depth <= x[i].depth
    ensures EditAt(p + x + q, |p| + i, e) == p + EditAt(x, i, e) + q
  {
    var s, j := p + x + q, BlockEnd(x, i);
    BlockEndShift(p, x, q, i);
    assert s[|p| + i] == x[i];
    SliceMiddle(p, x, q, i + 1, j);
    SpliceMiddle(p, x, q, i, j, Replacement(x[i], x[i + 1..j], e));
  }

  /** Dropping a block in a part of an outline followed by shallower entries drops it in the whole. */
  lemma DropAtShift(p: seq<Entry>, x: seq<Entry>, q: seq<Entry>, i: nat)
    requires i < |x|
    requires q == [] || q[0].depth <= x[i].depth
    ensures DropAt(p + x + q, |p| + i) == p + DropAt(x, i) + q
  {
    BlockEndShift(p, x, q, i);
    SpliceMiddle(p, x, q, i, BlockEnd(x, i), []);
  }

  /** Editing in the last part of an outline edits in the whole. */
  lemma EditAtSuffix(p: seq<Entry>, x: seq<Entry>, i: nat, k: nat, e: Edit)
    requires i < |x| && k == |p| + i
    ensures EditAt(p + x, k, e) == p + EditAt(x, i, e)
  {
    var s, j := p + x, BlockEnd(x, i);
    BlockEndSuffix(p, x, i);
    assert s[k] == x[i];
    assert s[k + 1..|p| + j] == x[i + 1..j];
    SpliceSuffix(p, x, i, j, Replacement(x[i], x[i + 1..j], e));
  }

  /** Dropping a block in the last part of an outline drops it in the whole. */
  lemma DropAtSuffix(p: seq<Entry>, x: seq<Entry>, i: nat, k: nat)
    requires i < |x| && k == |p| + i
    ensures DropAt(p + x, k) == p + DropAt(x, i)
  {
    BlockEndSuffix(p, x, i);
    SpliceSuffix(p, x, i, BlockEnd(x, i), []);
  }

  /** The data of an edited node depends only on the node's own data. */
  lemma ApplyData(e: Edit, t: Task)
    ensures Data(Apply(e, Data(t))) == Data(Apply(e, t))
  {
  }

  /** One level of `Outline` for a forest given as its head and the rest. */
  lemma OutlineOfCons(t: Task, rest: seq<Task>, depth: nat)
    ensures Outline([t] + rest, depth) ==
      [Entry(depth, Data(t))] + Outline(t.subtasks, depth + 1) + Outline(rest, depth)
  {
    assert ([t] + rest)[0] == t;
    assert ([t] + rest)[1..] == rest;
  }

  /** One level of `Outline`: the head's entry, its children one level deeper, then the rest. */
  lemma OutlineCons(items: seq<Task>, depth: nat)
    requires items != []
    ensures Outline(items, depth) ==
      [Entry(depth, Data(items[0]))] + Outline(items[0].subtasks, depth + 1) + Outline(items[1..], depth)
  {
  }

  /** The outline of an edited root, followed by the rest: the replacement of its entry and block. */
  lemma EditedHeadOutline(t: Task, rest: seq<Task>, e: Edit, depth: nat)
    ensures Outline([Apply(e, t)] + rest, depth) ==
      Replacement(Entry(depth, Data(t)), Outline(t.subtasks, depth + 1), e) + Outline(rest, depth)
  {
    OutlineOfCons(Apply(e, t), rest, depth);
    ApplyData(e, t);
    if e.AddChild? {
      var child := NewSubtask(e.childId, t.status);
      OutlineAppend(t.subtasks, [child], depth + 1);
      OutlineSingle(child, depth + 1);
      assert Data(child) == child;
    }
  }

  /** A root copied with new children contributes its own entry, then the children's outline. */
  lemma CopiedHeadOutline(t: Task, sub: seq<Task>, rest: seq<Task>, depth: nat)
    ensures Outline([t.(subtasks := sub)] + rest, depth) ==
      [Entry(depth, Data(t))] + Outline(sub, depth + 1) + Outline(rest, depth)
  {
    OutlineOfCons(t.(subtasks := sub), rest, depth);
    assert Data(t.(subtasks := sub)) == Data(t);
  }

  /** When the id first occurs among the head's children, it is found there, shifted by one. */
  lemma FindInChildren(items: seq<Task>, id: Id, depth: nat)
    requires items != [] && items[0].id != id
    requires Find(Outline(items[0].subtasks, depth + 1), id) < |Outline(items[0].subtasks, depth + 1)|
    ensures Find(Outline(items, depth), id) == 1 + Find(Outline(items[0].subtasks, depth + 1), id)
  {
    var a := Outline(items[0].subtasks, depth + 1);
    var es := Outline(items, depth);
    OutlineCons(items, depth);
    var i := Find(a, id);
    FindFacts(a, id);
    assert forall k :: 1 <= k < 1 + i ==> es[k] == a[k - 1];
    assert es[1 + i] == a[i];
    FindIs(es, id, 1 + i);
  }

  /** When the id is not below the head, it is found in the rest, shifted by the head's block. */
  lemma FindInRest(items: seq<Task>, id: Id, depth: nat)
    requires items != [] && items[0].id != id && !Occurs(items[0].subtasks, id)
    ensures Find(Outline(items, depth), id) ==
      1 + |Outline(items[0].subtasks, depth + 1)| + Find(Outline(items[1..], depth), id)
  {
    var a, b := Outline(items[0].subtasks, depth + 1), Outline(items[1..], depth);
    var es := Outline(items, depth);
    OutlineCons(items, depth);
    OutlineIds(items[0].subtasks, depth + 1);
    var i := Find(b, id);
    FindFacts(b, id);
    assert forall k :: 1 <= k < 1 + |a| ==> es[k] == a[k - 1];
    assert forall k :: 1 + |a| <= k < |es| ==> es[k] == b[k - 1 - |a|];
    FindIs(es, id, 1 + |a| + i);
  }

  /** The matched node is the first root: its entry opens the outline and its block is its children. */
  lemma HeadBlock(items: seq<Task>, id: Id, depth: nat)
    requires items != [] && items[0].id == id
    ensures Find(Outline(items, depth), id) == 0
    ensures BlockEnd(Outline(items, depth), 0) == 1 + |Outline(items[0].subtasks, depth + 1)|
  {
    var es := Outline(items, depth);
    OutlineCons(items, depth);
    FindIs(es, id, 0);
    assert es[1..] == Outline(items[0].subtasks, depth + 1) + Outline(items[1..], depth);
    BlockOfChildren(items[0].subtasks, items[1..], depth);
  }

  /** Where an id occurs in a forest: the head, below it, or after it, exclusively when distinct. */
  lemma OccursCases(items: seq<Task>, id: Id)
    requires Distinct(items) && Occurs(items, id)
    ensures items != []
    ensures Distinct(items[0].subtasks) && Distinct(items[1..])
    ensures items[0].id == id ==> !Occurs(items[1..], id)
    ensures items[0].id != id && Occurs(items[0].subtasks, id) ==> !Occurs(items[1..], id)
    ensures items[0].id != id && !Occurs(items[0].subtasks, id) ==> Occurs(items[1..], id)
  {
    DistinctParts(items);
    IdBagCons(items);
  }

  // The three ways a matched id sits in a forest, first for the rebuilds, then for deletion.

  lemma RebuildAtHead(items: seq<Task>, id: Id, e: Edit)
    requires items != [] && items[0].id == id && !Occurs(items[1..], id)
    ensures Rebuild(items, id, e) == [Apply(e, items[0])] + items[1..]
  {
    RebuildAbsent(items[1..], id, e);
  }

  lemma RebuildBelowHead(items: seq<Task>, id: Id, e: Edit)
    requires items != [] && items[0].id != id && !Occurs(items[1..], id)
    ensures Rebuild(items, id, e) == [items[0].(subtasks := Rebuild(items[0].subtasks, id, e))] + items[1..]
  {
    RebuildAbsent(items[1..], id, e);
  }

  lemma RebuildAfterHead(items: seq<Task>, id: Id, e: Edit)
    requires items != [] && items[0].id != id && !Occurs(items[0].subtasks, id)
    ensures Rebuild(items, id, e) == [items[0]] + Rebuild(items[1..], id, e)
  {
    RebuildAbsent(items[0].subtasks, id, e);
    assert items[0].(subtasks := items[0].subtasks) == items[0];
  }

  lemma DeleteAtHead(items: seq<Task>, id: Id)
    requires items != [] && items[0].id == id && !Occurs(items[1..], id)
    ensures DeleteTask(items, id) == items[1..]
  {
    DeleteAbsent(items[1..], id);
  }

  lemma DeleteBelowHead(items: seq<Task>, id: Id)
    requires items != [] && items[0].id != id && !Occurs(items[1..], id)
    ensures DeleteTask(items, id) == [items[0].(subtasks := DeleteTask(items[0].subtasks, id))] + items[1..]
  {
    DeleteAbsent(items[1..], id);
  }

  lemma DeleteAfterHead(items: seq<Task>, id: Id)
    requires items != [] && items[0].id != id && !Occurs(items[0].subtasks, id)
    ensures DeleteTask(items, id) == [items[0]] + DeleteTask(items[1..], id)
  {
    DeleteAbsent(items[0].subtasks, id);
    assert items[0].(subtasks := items[0].subtasks) == items[0];
  }

  // The same three cases on outlines alone: where the edited or dropped block lies. Each
  // takes the position `k` as found in the whole outline, so that its conclusion is the
  // very term the outline lemmas below speak of.

  lemma EditFront(es: seq<Entry>, e0: Entry, a: seq<Entry>, b: seq<Entry>, x: seq<Entry>, k: nat, e: Edit)
    requires k == 0 && es == [e0] + a + b && BlockEnd(es, 0) == 1 + |a|
    requires x == Replacement(e0, a, e) + b
    ensures x == EditAt(es, k, e)
  {
    SliceFront(e0, a, b);
    SpliceFront(e0, a, b, Replacement(e0, a, e));
  }

  lemma EditMiddle(es: seq<Entry>, e0: Entry, a: seq<Entry>, b: seq<Entry>, x: seq<Entry>, ra: seq<Entry>, i: nat, k: nat, e: Edit)
    requires i < |a| && k == 1 + i && (b == [] || b[0].depth <= a[i].depth)
    requires es == [e0] + a + b && x == [e0] + ra + b && ra == EditAt(a, i, e)
    ensures x == EditAt(es, k, e)
  {
    EditAtShift([e0], a, b, i, e);
  }

  lemma EditBack(es: seq<Entry>, p: seq<Entry>, b: seq<Entry>, x: seq<Entry>, rb: seq<Entry>, i: nat, k: nat, e: Edit)
    requires i < |b| && k == |p| + i
    requires es == p + b && x == p + rb && rb == EditAt(b, i, e)
    ensures x == EditAt(es, k, e)
  {
    EditAtSuffix(p, b, i, k, e);
  }

  lemma DropFront(es: seq<Entry>, e0: Entry, a: seq<Entry>, b: seq<Entry>, x: seq<Entry>, k: nat)
    requires k == 0 && es == [e0] + a + b && BlockEnd(es, 0) == 1 + |a|
    requires x == b
    ensures x == DropAt(es, k)
  {
    SpliceFront(e0, a, b, []);
  }

  lemma DropMiddle(es: seq<Entry>, e0: Entry, a: seq<Entry>, b: seq<Entry>, x: seq<Entry>, ra: seq<Entry>, i: nat, k: nat)
    requires i < |a| && k == 1 + i && (b == [] || b[0].depth <= a[i].depth)
    requires es == [e0] + a + b && x == [e0] + ra + b && ra == DropAt(a, i)
    ensures x == DropAt(es, k)
  {
    DropAtShift([e0], a, b, i);
  }

  lemma DropBack(es: seq<Entry>, p: seq<Entry>, b: seq<Entry>, x: seq<Entry>, rb: seq<Entry>, i: nat, k: nat)
    requires i < |b| && k == |p| + i
    requires es == p + b && x == p + rb && rb == DropAt(b, i)
    ensures x == DropAt(es, k)
  {
    DropAtSuffix(p, b, i, k);
  }

  /** The outline of a rebuild whose match is the first root. */
  lemma RebuildShapeHere(items: seq<Task>, id: Id, e: Edit, depth: nat)
    requires items != [] && items[0].id == id && !Occurs(items[1..], id)
    ensures Outline(Rebuild(items, id, e), depth) ==
      Replacement(Entry(depth, Data(items[0])), Outline(items[0].subtasks, depth + 1), e) + Outline(items[1..], depth)
  {
    RebuildAtHead(items, id, e);
    EditedHeadOutline(items[0], items[1..], e, depth);
  }

  /** The outline of a rebuild whose match is below the first root. */
  lemma RebuildShapeBelow(items: seq<Task>, id: Id, e: Edit, depth: nat)
    requires items != [] && items[0].id != id && !Occurs(items[1..], id)
    ensures Outline(Rebuild(items, id, e), depth) ==
      [Entry(depth, Data(items[0]))] + Outline(Rebuild(items[0].subtasks, id, e), depth + 1) + Outline(items[1..], depth)
  {
    RebuildBelowHead(items, id, e);
    CopiedHeadOutline(items[0], Rebuild(items[0].subtasks, id, e), items[1..], depth);
  }

  /** The outline of a rebuild whose match is after the first root. */
  lemma RebuildShapeAfter(items: seq<Task>, id: Id, e: Edit, depth: nat)
    requires items != [] && items[0].id != id && !Occurs(items[0].subtasks, id)
    ensures Outline(Rebuild(items, id, e), depth) ==
      [Entry(depth, Data(items[0]))] + Outline(items[0].subtasks, depth + 1) + Outline(Rebuild(items[1..], id, e), depth)
  {
    RebuildAfterHead(items, id, e);
    OutlineOfCons(items[0], Rebuild(items[1..], id, e), depth);
  }

  /**
   * A rebuild edits exactly the block of the matched node in the outline: the
   * node's data changes as the edit says, its descendants are kept unchanged
   * (there is no recursion below a match), a new subtask is appended at the end
   * of the block, and every other entry keeps its data, depth and position.
   */
  lemma {:induction false} RebuildOutline(items: seq<Task>, id: Id, e: Edit, depth: nat)
    requires Distinct(items) && Occurs(items, id)
    ensures Find(Outline(items, depth), id) < |Outline(items, depth)|
    ensures Outline(Rebuild(items, id, e), depth) ==
      EditAt(Outline(items, depth), Find(Outline(items, depth), id), e)
    decreases items
  {
    OccursCases(items, id);
    if items[0].id == id {
      RebuildOutlineHere(items, id, e, depth);
    } else if Occurs(items[0].subtasks, id) {
      RebuildOutline(items[0].subtasks, id, e, depth + 1);
      RebuildOutlineBelow(items, id, e, depth);
    } else {
      RebuildOutline(items[1..], id, e, depth);
      RebuildOutlineAfter(items, id, e, depth);
    }
  }

  // The three cases of `RebuildOutline`, the last two given the induction hypothesis.

  lemma RebuildOutlineHere(items: seq<Task>, id: Id, e: Edit, depth: nat)
    requires items != [] && items[0].id == id && !Occurs(items[1..], id)
    ensures Find(Outline(items, depth), id) < |Outline(items, depth)|
    ensures Outline(Rebuild(items, id, e), depth) ==
      EditAt(Outline(items, depth), Find(Outline(items, depth), id), e)
  {
    var a, b := Outline(items[0].subtasks, depth + 1), Outline(items[1..], depth);
    var es := Outline(items, depth);
    OutlineCons(items, depth);
    HeadBlock(items, id, depth);
    RebuildShapeHere(items, id, e, depth);
    EditFront(es, Entry(depth, Data(items[0])), a, b, Outline(Rebuild(items, id, e), depth), Find(es, id), e);
  }

  lemma RebuildOutlineBelow(items: seq<Task>, id: Id, e: Edit, depth: nat)
    requires items != [] && items[0].id != id && !Occurs(items[1..], id)
    requires Find(Outline(items[0].subtasks, depth + 1), id) < |Outline(items[0].subtasks, depth + 1)|
    requires Outline(Rebuild(items[0].subtasks, id, e), depth + 1) ==
      EditAt(Outline(items[0].subtasks, depth + 1), Find(Outline(items[0].subtasks, depth + 1), id), e)
    ensures Find(Outline(items, depth), id) < |Outline(items, depth)|
    ensures Outline(Rebuild(items, id, e), depth) ==
      EditAt(Outline(items, depth), Find(Outline(items, depth), id), e)
  {
    var a, b := Outline(items[0].subtasks, depth + 1), Outline(items[1..], depth);
    var es := Outline(items, depth);
    OutlineCons(items, depth);
    FindInChildren(items, id, depth);
    RebuildShapeBelow(items, id, e, depth);
    OutlineDepths(items[0].subtasks, depth + 1);
    OutlineDepths(items[1..], depth);
    EditMiddle(es, Entry(depth, Data(items[0])), a, b, Outline(Rebuild(items, id, e), depth),
      Outline(Rebuild(items[0].subtasks, id, e), depth + 1), Find(a, id), Find(es, id), e);
  }

  lemma RebuildOutlineAfter(items: seq<Task>, id: Id, e: Edit, depth: nat)
    requires items != [] && items[0].id != id && !Occurs(items[0].subtasks, id)
    requires Find(Outline(items[1..], depth), id) < |Outline(items[1..], depth)|
    requires Outline(Rebuild(items[1..], id, e), depth) ==
      EditAt(Outline(items[1..], depth), Find(Outline(items[1..], depth), id), e)
    ensures Find(Outline(items, depth), id) < |Outline(items, depth)|
    ensures Outline(Rebuild(items, id, e), depth) ==
      EditAt(Outline(items, depth), Find(Outline(items, depth), id), e)
  {
    var a, b := Outline(items[0].subtasks, depth + 1), Outline(items[1..], depth);
    var es := Outline(items, depth);
    OutlineCons(items, depth);
    FindInRest(items, id, depth);
    RebuildShapeAfter(items, id, e, depth);
    EditBack(es, [Entry(depth, Data(items[0]))] + a, b, Outline(Rebuild(items, id, e), depth),
      Outline(Rebuild(items[1..], id, e), depth), Find(b, id), Find(es, id), e);
  }

  /** The outline after deleting the first root. */
  lemma DeleteShapeHere(items: seq<Task>, id: Id, depth: nat)
    requires items != [] && items[0].id == id && !Occurs(items[1..], id)
    ensures Outline(DeleteTask(items, id), depth) == Outline(items[1..], depth)
  {
    DeleteAtHead(items, id);
  }

  /** The outline after deleting a node below the first root. */
  lemma DeleteShapeBelow(items: seq<Task>, id: Id, depth: nat)
    requires items != [] && items[0].id != id && !Occurs(items[1..], id)
    ensures Outline(DeleteTask(items, id), depth) ==
      [Entry(depth, Data(items[0]))] + Outline(DeleteTask(items[0].subtasks, id), depth + 1) + Outline(items[1..], depth)
  {
    DeleteBelowHead(items, id);
    CopiedHeadOutline(items[0], DeleteTask(items[0].subtasks, id), items[1..], depth);
  }

  /** The outline after deleting a node after the first root. */
  lemma DeleteShapeAfter(items: seq<Task>, id: Id, depth: nat)
    requires items != [] && items[0].id != id && !Occurs(items[0].subtasks, id)
    ensures Outline(DeleteTask(items, id), depth) ==
      [Entry(depth, Data(items[0]))] + Outline(items[0].subtasks, depth + 1) + Outline(DeleteTask(items[1..], id), depth)
  {
    DeleteAfterHead(items, id);
    OutlineOfCons(items[0], DeleteTask(items[1..], id), depth);
  }

  /**
   * Deleting removes exactly the block of the matched node from the outline: the
   * node and its whole subtree; every other node keeps its data, its depth and
   * its order.
   */
  lemma {:induction false} DeleteOutline(items: seq<Task>, id: Id, depth: nat)
    requires Distinct(items) && Occurs(items, id)
    ensures Find(Outline(items, depth), id) < |Outline(items, depth)|
    ensures Outline(DeleteTask(items, id), depth) ==
      DropAt(Outline(items, depth), Find(Outline(items, depth), id))
    decreases items
  {
    OccursCases(items, id);
    if items[0].id == id {
      DeleteOutlineHere(items, id, depth);
    } else if Occurs(items[0].subtasks, id) {
      DeleteOutline(items[0].subtasks, id, depth + 1);
      DeleteOutlineBelow(items, id, depth);
    } else {
      DeleteOutline(items[1..], id, depth);
      DeleteOutlineAfter(items, id, depth);
    }
  }

  // The three cases of `DeleteOutline`, the last two given the induction hypothesis.

  lemma DeleteOutlineHere(items: seq<Task>, id: Id, depth: nat)
    requires items != [] && items[0].id == id && !Occurs(items[1..], id)
    ensures Find(Outline(items, depth), id) < |Outline(items, depth)|
    ensures Outline(DeleteTask(items, id), depth) ==
      DropAt(Outline(items, depth), Find(Outline(items, depth), id))
  {
    var a, b := Outline(items[0].subtasks, depth + 1), Outline(items[1..], depth);
    var es := Outline(items, depth);
    OutlineCons(items, depth);
    HeadBlock(items, id, depth);
    DeleteShapeHere(items, id, depth);
    DropFront(es, Entry(depth, Data(items[0])), a, b, Outline(DeleteTask(items, id), depth), Find(es, id));
  }

  lemma DeleteOutlineBelow(items: seq<Task>, id: Id, depth: nat)
    requires items != [] && items[0].id != id && !Occurs(items[1..], id)
    requires Find(Outline(items[0].subtasks, depth + 1), id) < |Outline(items[0].subtasks, depth + 1)|
    requires Outline(DeleteTask(items[0].subtasks, id), depth + 1) ==
      DropAt(Outline(items[0].subtasks, depth + 1), Find(Outline(items[0].subtasks, depth + 1), id))
    ensures Find(Outline(items, depth), id) < |Outline(items, depth)|
    ensures Outline(DeleteTask(items, id), depth) ==
      DropAt(Outline(items, depth), Find(Outline(items, depth), id))
  {
    var a, b := Outline(items[0].subtasks, depth + 1), Outline(items[1..], depth);
    var es := Outline(items, depth);
    OutlineCons(items, depth);
    FindInChildren(items, id, depth);
    DeleteShapeBelow(items, id, depth);
    OutlineDepths(items[0].subtasks, depth + 1);
    OutlineDepths(items[1..], depth);
    DropMiddle(es, Entry(depth, Data(items[0])), a, b, Outline(DeleteTask(items, id), depth),
      Outline(DeleteTask(items[0].subtasks, id), depth + 1), Find(a, id), Find(es, id));
  }

  lemma DeleteOutlineAfter(items: seq<Task>, id: Id, depth: nat)
    requires items != [] && items[0].id != id && !Occurs(items[0].subtasks, id)
    requires Find(Outline(items[1..], depth), id) < |Outline(items[1..], depth)|
    requires Outline(DeleteTask(items[1..], id), depth) ==
      DropAt(Outline(items[1..], depth), Find(Outline(items[1..], depth), id))
    ensures Find(Outline(items, depth), id) < |Outline(items, depth)|
    ensures Outline(DeleteTask(items, id), depth) ==
      DropAt(Outline(items, depth), Find(Outline(items, depth), id))
  {
    var a, b := Outline(items[0].subtasks, depth + 1), Outline(items[1..], depth);
    var es := Outline(items, depth);
    OutlineCons(items, depth);
    FindInRest(items, id, depth);
    DeleteShapeAfter(items, id, depth);
    DropBack(es, [Entry(depth, Data(items[0]))] + a, b, Outline(DeleteTask(items, id), depth),
      Outline(DeleteTask(items[1..], id), depth), Find(b, id), Find(es, id));
  }

  // ---------------------------------------------------------------------------
  // Projects
  // ---------------------------------------------------------------------------

  predicate NoDuplicates(names: seq<string>) {
    forall i, j :: 0 <= i < j < |names| ==> names[i] != names[j]
  }

  /**
   * `handleAddProject`: the name is appended unless it is already listed. The
   * list keeps its order, contains the name afterwards, gains nothing else, and
   * stays free of duplicates.
   */
  function AddProject(projects: seq<string>, name: string): (r: seq<string>)
    ensures |projects| <= |r| && r[..|projects|] == projects
    ensures forall x :: x in r <==> x in projects || x == name
    ensures name in projects ==> r == projects
    ensures NoDuplicates(projects) ==> NoDuplicates(r)
  {
    if name in projects then projects else projects + [name]
  }

  // ---------------------------------------------------------------------------
  // The quest stage
  // ---------------------------------------------------------------------------

  /** The number of root tasks whose status is done. */
  function DoneCount(tasks: seq<Task>): (n: nat)
    ensures n <= |tasks|
  {
    if tasks == [] then 0
    else (if tasks[0].status == Done then 1 else 0) + DoneCount(tasks[1..])
  }

  /** The done count is the full length exactly when every root is done. */
  lemma {:induction false} DoneCountAll(tasks: seq<Task>)
    ensures DoneCount(tasks) == |tasks| <==> forall k :: 0 <= k < |tasks| ==> tasks[k].status == Done
  {
    if tasks != [] {
      DoneCountAll(tasks[1..]);
      assert forall k :: 1 <= k < |tasks| ==> tasks[k] == tasks[1..][k - 1];
    }
  }

  /** The done count is zero exactly when no root is done. */
  lemma {:induction false} DoneCountNone(tasks: seq<Task>)
    ensures DoneCount(tasks) == 0 <==> forall k :: 0 <= k < |tasks| ==> tasks[k].status != Done
  {
    if tasks != [] {
      DoneCountNone(tasks[1..]);
      assert forall k :: 1 <= k < |tasks| ==> tasks[k] == tasks[1..][k - 1];
    }
  }

  /** Two root lists with the same statuses, position by position, have the same done count. */
  lemma {:induction false} DoneCountStatuses(a: seq<Task>, b: seq<Task>)
    requires |a| == |b| && forall k :: 0 <= k < |a| ==> a[k].status == b[k].status
    ensures DoneCount(a) == DoneCount(b)
  {
    if a != [] {
      DoneCountStatuses(a[1..], b[1..]);
    }
  }

  /** Integer ceiling division. */
  function CeilDiv(a: nat, b: nat): nat
    requires b > 0
  {
    (a + b - 1) / b
  }

  /** `CeilDiv(a, b)` is the least `q` with `q * b >= a`. */
  lemma CeilDivBounds(a: nat, b: nat)
    requires b > 0
    ensures CeilDiv(a, b) * b >= a
    ensures (CeilDiv(a, b) - 1) * b < a
  {
    var q := (a + b - 1) / b;
    var r := (a + b - 1) % b;
    assert a + b - 1 == q * b + r && 0 <= r < b;
    assert (q - 1) * b == q * b - b;
  }

  /** Cancelling a positive factor in a strict inequality. */
  lemma MulStrict(x: int, y: int, b: int)
    requires b > 0 && x * b < y * b
    ensures x < y
  {
    assert (y - x) * b == y * b - x * b;
  }

  /** `Math.min(Math.max(p, 1), 5)`. */
  function ClampStage(p: int): (s: nat)
    ensures 1 <= s <= 5
    ensures 1 <= p <= 5 ==> s == p
  {
    if p < 1 then 1 else if p > 5 then 5 else p
  }

  /**
   * The stage for `done` finished roots out of `total`: `ceil(done / total * 5)`
   * clamped into 1..5, and 1 when there are no roots. The source computes the
   * quotient in floating point; the model uses the exact ceiling.
   */
  function StageOf(done: nat, total: nat): (s: nat)
    requires done <= total
    ensures 1 <= s <= 5
  {
    ClampStage(if total == 0 then 1 else CeilDiv(5 * done, total))
  }

  /**
   * The stage is the least of 1..5 whose share of five reaches the done share:
   * `s * total >= 5 * done`, and one stage lower it would not (unless `s` is 1).
   * In particular the upper clamp never acts, since the ceiling is at most 5.
   */
  lemma StageOfBounds(done: nat, total: nat)
    requires done <= total
    ensures StageOf(done, total) * total >= 5 * done
    ensures StageOf(done, total) == 1 || (StageOf(done, total) - 1) * total < 5 * done
  {
    if total > 0 {
      var q: int := CeilDiv(5 * done, total);
      CeilDivBounds(5 * done, total);
      MulStrict(q - 1, 5, total);
    }
  }

  /** The stage of a task forest, counting its roots only. */
  function Stage(tasks: seq<Task>): (s: nat)
    ensures 1 <= s <= 5
  {
    StageOf(DoneCount(tasks), |tasks|)
  }

  /** The stage is 1 when no root is done, in particular when there are no tasks. */
  lemma StageNoneDone(tasks: seq<Task>)
    requires forall k :: 0 <= k < |tasks| ==> tasks[k].status != Done
    ensures Stage(tasks) == 1
  {
    DoneCountNone(tasks);
    var s := Stage(tasks);
    StageOfBounds(0, |tasks|);
  }

  /** The stage is 5 when there are roots and all of them are done. */
  lemma StageAllDone(tasks: seq<Task>)
    requires tasks != [] && forall k :: 0 <= k < |tasks| ==> tasks[k].status == Done
    ensures Stage(tasks) == 5
  {
    DoneCountAll(tasks);
    var s := Stage(tasks);
    StageOfBounds(|tasks|, |tasks|);
    MulStrict(4, s, |tasks|);
  }

  /** The stage never decreases as more roots are done. */
  lemma StageMonotone(done: nat, done': nat, total: nat)
    requires done <= done' <= total
    ensures StageOf(done, total) <= StageOf(done', total)
  {
    var s, s' := StageOf(done, total), StageOf(done', total);
    StageOfBounds(done, total);
    StageOfBounds(done', total);
    if total > 0 && s > 1 {
      MulStrict(s - 1, s', total);
    }
  }

  /** Changes below the roots, or to fields other than status, leave the stage unchanged. */
  lemma StageOfRebuild(items: seq<Task>, id: Id, e: Edit)
    requires !e.SetStatus? || forall k :: 0 <= k < |items| ==> items[k].id != id
    ensures Stage(Rebuild(items, id, e)) == Stage(items)
  {
    var r := Rebuild(items, id, e);
    forall k | 0 <= k < |items| ensures r[k].status == items[k].status {
      RebuildRoot(items, id, e, k);
    }
    DoneCountStatuses(r, items);
  }

  // ---------------------------------------------------------------------------
  // The application state
  // ---------------------------------------------------------------------------

  /** New roots from the parser are appended after the existing ones (`handleTaskAdd`). */
  lemma TaskAddKeepsDistinct(tasks: seq<Task>, added: seq<Task>, lo: Id, hi: Id)
    requires Distinct(tasks) && IdsBelow(tasks, lo)
    requires lo <= hi && Distinct(added) && TaskParser.IdsBetween(added, lo, hi)
    ensures Distinct(tasks + added) && IdsBelow(tasks + added, hi)
  {
    IdBagAppend(tasks, added);
    assert IdBag(tasks) !! IdBag(added) by {
      forall x | x in IdBag(tasks) ensures x !in IdBag(added) {
      }
    }
    DistinctAppend(tasks, added);
  }

  /**
   * The state `App` keeps: the forest, the project list, the view mode and the
   * stage, plus the counter standing in for `crypto.randomUUID`. The stage is
   * recomputed whenever the forest changes, as the source's effect does.
   */
  class TaskApp {
    var tasks: seq<Task>
    var projects: seq<string>
    var viewMode: ViewMode
    var currentStage: nat
    var nextId: Id

    predicate Valid()
      reads this
    {
      && Distinct(tasks) && IdsBelow(tasks, nextId)
      && NoDuplicates(projects) && UNCATEGORIZED in projects
      && currentStage == Stage(tasks)
    }

    constructor ()
      ensures Valid()
      ensures tasks == [] && projects == [UNCATEGORIZED] && viewMode == StatusView
      ensures currentStage == 1 && nextId == 0
    {
      tasks := [];
      projects := [UNCATEGORIZED];
      viewMode := StatusView;
      currentStage := 1;
      nextId := 0;
    }

    /** `handleTaskAdd`: the parsed roots go after the existing tasks, which stay as they were. */
    method HandleTaskAdd(content: string)
      requires Valid()
      modifies this
      ensures Valid()
      ensures tasks == old(tasks) + TaskParser.ParseForest(content, old(nextId))
      ensures nextId == old(nextId) + |TaskParser.ParsedLines(content)|
      ensures projects == old(projects) && viewMode == old(viewMode)
    {
      var added, next := TaskParser.ParseTaskInput(content, nextId);
      AppendRoots(added, next);
    }

    /** Appends roots whose ids were drawn from the supply, which then continues at `next`. */
    method AppendRoots(added: seq<Task>, next: Id)
      requires Valid()
      requires nextId <= next && Distinct(added) && TaskParser.IdsBetween(added, nextId, next)
      modifies this
      ensures Valid()
      ensures tasks == old(tasks) + added && nextId == next
      ensures projects == old(projects) && viewMode == old(viewMode)
    {
      TaskAddKeepsDistinct(tasks, added, nextId, next);
      tasks := tasks + added;
      nextId := next;
      currentStage := Stage(tasks);
    }

    /** Applies one of the field edits to the node with `id`; ids and nesting do not change (`RebuildSkeleton`). */
    method ApplyEdit(id: Id, e: Edit)
      requires Valid() && !e.AddChild?
      modifies this
      ensures Valid()
      ensures tasks == Rebuild(old(tasks), id, e)
      ensures projects == old(projects) && viewMode == old(viewMode) && nextId == old(nextId)
    {
      RebuildKeepsIds(tasks, id, e, nextId);
      var edited := Rebuild(tasks, id, e);
      tasks, currentStage := edited, Stage(edited);
    }

    method HandleStatusChange(id: Id, status: Status)
      requires Valid()
      modifies this
      ensures Valid() && tasks == UpdateStatus(old(tasks), id, status)
      ensures projects == old(projects) && viewMode == old(viewMode) && nextId == old(nextId)
    {
      ApplyEdit(id, SetStatus(status));
    }

    method HandleProjectChange(id: Id, project: string)
      requires Valid()
      modifies this
      ensures Valid() && tasks == UpdateProject(old(tasks), id, project)
      ensures projects == old(projects) && viewMode == old(viewMode) && nextId == old(nextId)
    {
      ApplyEdit(id, SetProject(project));
    }

    method HandlePriorityChange(id: Id, priority: Priority)
      requires Valid()
      modifies this
      ensures Valid() && tasks == UpdatePriority(old(tasks), id, priority)
      ensures projects == old(projects) && viewMode == old(viewMode) && nextId == old(nextId)
    {
      ApplyEdit(id, SetPriority(priority));
    }

    method HandleToggleExpand(id: Id)
      requires Valid()
      modifies this
      ensures Valid() && tasks == ToggleExpand(old(tasks), id)
      ensures projects == old(projects) && viewMode == old(viewMode) && nextId == old(nextId)
    {
      ApplyEdit(id, ToggleExpanded);
    }

    /** `handleDelete`: the node and its subtree leave the forest. */
    method HandleDelete(id: Id)
      requires Valid()
      modifies this
      ensures Valid() && tasks == DeleteTask(old(tasks), id) && !Occurs(tasks, id)
      ensures projects == old(projects) && viewMode == old(viewMode) && nextId == old(nextId)
    {
      DeleteRemoves(tasks, id);
      DistinctSub(DeleteTask(tasks, id), tasks, nextId);
      tasks := DeleteTask(tasks, id);
      currentStage := Stage(tasks);
    }

    /** `handleAddSubtask`: the new subtask draws the next fresh id. */
    method HandleAddSubtask(parentId: Id)
      requires Valid()
      modifies this
      ensures Valid() && tasks == AddSubtask(old(tasks), parentId, old(nextId))
      ensures nextId == old(nextId) + 1
      ensures projects == old(projects) && viewMode == old(viewMode)
    {
      AddSubtaskKeepsDistinct(tasks, parentId, nextId);
      tasks := AddSubtask(tasks, parentId, nextId);
      nextId := nextId + 1;
      currentStage := Stage(tasks);
    }

    method HandleAddProject(name: string)
      requires Valid()
      modifies this
      ensures Valid() && projects == AddProject(old(projects), name)
      ensures tasks == old(tasks) && viewMode == old(viewMode) && nextId == old(nextId)
    {
      projects := AddProject(projects, name);
    }

    method SetViewMode(mode: ViewMode)
      requires Valid()
      modifies this
      ensures Valid() && viewMode == mode
      ensures tasks == old(tasks) && projects == old(projects) && nextId == old(nextId)
    {
      viewMode := mode;
    }
  }
}
