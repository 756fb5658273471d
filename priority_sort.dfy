/**
 * `sortByPriority`, written identically in src/components/KanbanBoard.tsx and
 * src/components/ProjectBoard.tsx: a sort of a copy of the roots with the
 * comparator `priorityOrder[a] - priorityOrder[b]`, a missing priority read as
 * `Low`. ECMAScript 2019 requires `Array.prototype.sort` to be stable, and a
 * stable sort by a key has exactly one possible result; the model computes it
 * by insertion and proves that it is that result.
 */
module PrioritySort {
  import opened Types

  /** `a.priority || 'Low'`. */
  function EffectivePriority(t: Task): Priority {
    if t.priority.Some? then t.priority.value else Low
  }

  /** `priorityOrder`: High first, then Medium, then Low. */
  function Rank(p: Priority): (r: nat)
    ensures r <= 2
  {
    match p
    case High => 0
    case Medium => 1
    case Low => 2
  }

  function Key(t: Task): (k: nat)
    ensures k <= 2
  {
    Rank(EffectivePriority(t))
  }

  predicate SortedByPriority(s: seq<Task>) {
    forall i, j :: 0 <= i < j < |s| ==> Key(s[i]) <= Key(s[j])
  }

  /** The tasks of `s` with key `k`, in the order of `s`. */
  function Bucket(s: seq<Task>, k: nat): (b: seq<Task>)
    ensures |b| <= |s|
  {
    if s == [] then []
    else if Key(s[0]) == k then [s[0]] + Bucket(s[1..], k)
    else Bucket(s[1..], k)
  }

  /** Places `x` before the first task that does not rank strictly ahead of it. */
  function Insert(x: Task, s: seq<Task>): (r: seq<Task>)
    ensures |r| == |s| + 1
  {
    if s == [] || Key(x) <= Key(s[0]) then [x] + s
    else [s[0]] + Insert(x, s[1..])
  }

  /** The stable sort by priority, inserting from the back so that earlier tasks stay ahead of equal ones. */
  function SortByPriority(ts: seq<Task>): (r: seq<Task>)
    ensures |r| == |ts|
  {
    if ts == [] then [] else Insert(ts[0], SortByPriority(ts[1..]))
  }

  // ---------------------------------------------------------------------------
  // Buckets
  // ---------------------------------------------------------------------------

  lemma {:induction false} BucketAppend(a: seq<Task>, b: seq<Task>, k: nat)
    ensures Bucket(a + b, k) == Bucket(a, k) + Bucket(b, k)
  {
    if a == [] {
      assert a + b == b;
    } else {
      assert (a + b)[0] == a[0];
      assert (a + b)[1..] == a[1..] + b;
      BucketAppend(a[1..], b, k);
    }
  }

  /** A bucket holds exactly the tasks of its key. */
  lemma {:induction false} BucketMembers(s: seq<Task>, k: nat, t: Task)
    ensures t in Bucket(s, k) <==> t in s && Key(t) == k
  {
    if s != [] {
      BucketMembers(s[1..], k, t);
      assert s == [s[0]] + s[1..];
    }
  }

  lemma {:induction false} BucketEmpty(s: seq<Task>, k: nat)
    requires forall i :: 0 <= i < |s| ==> Key(s[i]) != k
    ensures Bucket(s, k) == []
  {
    if s != [] {
      assert forall i :: 0 <= i < |s| - 1 ==> s[1..][i] == s[i + 1];
      BucketEmpty(s[1..], k);
    }
  }

  /** Inserting `x` puts it at the front of its own bucket and changes no other bucket. */
  lemma {:induction false} InsertBucket(x: Task, s: seq<Task>, k: nat)
    ensures Key(x) == k ==> Bucket(Insert(x, s), k) == [x] + Bucket(s, k)
    ensures Key(x) != k ==> Bucket(Insert(x, s), k) == Bucket(s, k)
  {
    if s == [] || Key(x) <= Key(s[0]) {
      assert ([x] + s)[0] == x && ([x] + s)[1..] == s;
    } else {
      var r := Insert(x, s);
      assert r[0] == s[0] && r[1..] == Insert(x, s[1..]);
      InsertBucket(x, s[1..], k);
    }
  }

  /** Sorting keeps every bucket as it was: tasks of equal priority keep their input order. */
  lemma {:induction false} SortBucket(ts: seq<Task>, k: nat)
    ensures Bucket(SortByPriority(ts), k) == Bucket(ts, k)
  {
    if ts != [] {
      SortBucket(ts[1..], k);
      InsertBucket(ts[0], SortByPriority(ts[1..]), k);
    }
  }

  // ---------------------------------------------------------------------------
  // Ordered, a permutation, and the only stable result
  // ---------------------------------------------------------------------------

  /** Every task of `s` ranks no earlier than `m`. */
  predicate RanksFrom(s: seq<Task>, m: nat) {
    forall i :: 0 <= i < |s| ==> Key(s[i]) >= m
  }

  lemma SortedTail(s: seq<Task>)
    requires s != [] && SortedByPriority(s)
    ensures SortedByPriority(s[1..]) && RanksFrom(s[1..], Key(s[0]))
  {
    assert forall i :: 0 <= i < |s| - 1 ==> s[1..][i] == s[i + 1];
  }

  lemma SortedCons(h: Task, t: seq<Task>)
    requires SortedByPriority(t) && RanksFrom(t, Key(h))
    ensures SortedByPriority([h] + t)
  {
    assert forall i :: 0 < i < |t| + 1 ==> ([h] + t)[i] == t[i - 1];
  }

  lemma {:induction false} InsertRanksFrom(x: Task, s: seq<Task>, m: nat)
    requires RanksFrom(s, m) && Key(x) >= m
    ensures RanksFrom(Insert(x, s), m)
  {
    if s != [] && Key(x) > Key(s[0]) {
      assert forall i :: 0 <= i < |s| - 1 ==> s[1..][i] == s[i + 1];
      InsertRanksFrom(x, s[1..], m);
      assert forall i :: 0 < i < |s| + 1 ==> Insert(x, s)[i] == Insert(x, s[1..])[i - 1];
    }
  }

  lemma {:induction false} InsertSorted(x: Task, s: seq<Task>)
    requires SortedByPriority(s)
    ensures SortedByPriority(Insert(x, s))
  {
    if s == [] || Key(x) <= Key(s[0]) {
      if s != [] {
        SortedTail(s);
      }
      SortedCons(x, s);
    } else {
      SortedTail(s);
      InsertSorted(x, s[1..]);
      InsertRanksFrom(x, s[1..], Key(s[0]));
      SortedCons(s[0], Insert(x, s[1..]));
    }
  }

  lemma {:induction false} InsertMembers(x: Task, s: seq<Task>)
    ensures multiset(Insert(x, s)) == multiset{x} + multiset(s)
  {
    if s != [] && Key(x) > Key(s[0]) {
      InsertMembers(x, s[1..]);
      assert s == [s[0]] + s[1..];
    }
  }

  /** The result is ordered High, Medium, Low. */
  lemma {:induction false} SortSorted(ts: seq<Task>)
    ensures SortedByPriority(SortByPriority(ts))
  {
    if ts != [] {
      SortSorted(ts[1..]);
      InsertSorted(ts[0], SortByPriority(ts[1..]));
    }
  }

  /** The result is a permutation of the input: nothing is lost, duplicated or invented. */
  lemma {:induction false} SortPermutation(ts: seq<Task>)
    ensures multiset(SortByPriority(ts)) == multiset(ts)
  {
    if ts != [] {
      SortPermutation(ts[1..]);
      InsertMembers(ts[0], SortByPriority(ts[1..]));
      assert ts == [ts[0]] + ts[1..];
    }
  }

  /** An ordered sequence is its High bucket, then its Medium bucket, then its Low bucket. */
  lemma {:induction false} SortedIsBuckets(r: seq<Task>)
    requires SortedByPriority(r)
    ensures r == Bucket(r, 0) + Bucket(r, 1) + Bucket(r, 2)
  {
    if r != [] {
      var h, t := r[0], r[1..];
      SortedTail(r);
      SortedIsBuckets(t);
      if Key(h) >= 1 {
        BucketEmpty(t, 0);
      }
      if Key(h) == 2 {
        BucketEmpty(t, 1);
      }
      assert r == [h] + t;
    }
  }

  /** The sorted roots are the High roots, then the Medium ones, then the Low ones, each group in input order. */
  lemma SortIsBuckets(ts: seq<Task>)
    ensures SortByPriority(ts) == Bucket(ts, 0) + Bucket(ts, 1) + Bucket(ts, 2)
  {
    var r := SortByPriority(ts);
    SortSorted(ts);
    SortedIsBuckets(r);
    SortBucket(ts, 0);
    SortBucket(ts, 1);
    SortBucket(ts, 2);
  }

  /**
   * Any ordered rearrangement that keeps every priority group in input order
   * (any stable sort by this comparator) is the model's result.
   */
  lemma StableSortUnique(ts: seq<Task>, r: seq<Task>)
    requires SortedByPriority(r)
    requires forall k :: Bucket(r, k) == Bucket(ts, k)
    ensures r == SortByPriority(ts)
  {
    SortedIsBuckets(r);
    SortIsBuckets(ts);
    assert Bucket(r, 0) == Bucket(ts, 0) && Bucket(r, 1) == Bucket(ts, 1) && Bucket(r, 2) == Bucket(ts, 2);
  }
}
