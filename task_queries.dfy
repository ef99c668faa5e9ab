/** The queries the handlers run against the task collection: the owner's tasks, the owner's
    highest `order`, and the owner's tasks sorted ascending by `order`. */
module TaskQueries {
  import opened JsValues
  import opened Schema

  /** Document ids, handed out by the store in increasing order. */
  type Id = nat

  /** A stored document: its id and its fields. */
  datatype Entry = Entry(id: Id, task: Task)

  /** e is the document the collection holds under e.id. */
  predicate StoredIn(e: Entry, tasks: map<Id, Task>) {
    e.id in tasks && tasks[e.id] == e.task
  }

  /** `find({ userId: owner })` over the documents with ids below n, in id order. */
  function OwnedBelow(tasks: map<Id, Task>, owner: string, n: nat): (r: seq<Entry>)
    ensures forall e :: e in r <==> e.id < n && StoredIn(e, tasks) && e.task.userId == owner
    ensures forall i, j :: 0 <= i < j < |r| ==> r[i].id < r[j].id
  {
    if n == 0 then []
    else
      var prefix := OwnedBelow(tasks, owner, n - 1);
      if n - 1 in tasks && tasks[n - 1].userId == owner then prefix + [Entry(n - 1, tasks[n - 1])]
      else prefix
  }

  /** The `order` of `findOne({ userId }).sort({ order: -1 })`: the largest order among the
      entries, or None when there are none. */
  function MaxOrder(s: seq<Entry>): (r: Option<int>)
    ensures r.None? <==> s == []
    ensures r.Some? ==> exists e :: e in s && e.task.order == r.value
    ensures r.Some? ==> forall e :: e in s ==> e.task.order <= r.value
  {
    if s == [] then None
    else
      match MaxOrder(s[1..])
      case None => Some(s[0].task.order)
      case Some(m) => Some(if s[0].task.order < m then m else s[0].task.order)
  }

  /** `lastTask ? lastTask.order + 1 : 1`: one past the owner's largest order, or 1. */
  function NextOrder(owned: seq<Entry>): (r: int)
    ensures owned == [] ==> r == 1
    ensures owned != [] ==> exists e :: e in owned && e.task.order == r - 1
    ensures forall e :: e in owned ==> e.task.order < r
  {
    match MaxOrder(owned)
    case None => 1
    case Some(m) => m + 1
  }

  predicate SortedByOrder(s: seq<Entry>) {
    forall i, j :: 0 <= i < j < |s| ==> s[i].task.order <= s[j].task.order
  }

  predicate Distinct(s: seq<Entry>) {
    forall i, j :: 0 <= i < j < |s| ==> s[i] != s[j]
  }

  /** Prefixing an element absent from a sequence without repeats gives one without repeats. */
  lemma ConsDistinct(x: Entry, s: seq<Entry>)
    requires Distinct(s) && x !in s
    ensures Distinct([x] + s)
  {
  }

  /** Places e in a sequence sorted by order, after every entry whose order is smaller. */
  function Insert(e: Entry, s: seq<Entry>): (r: seq<Entry>)
    requires SortedByOrder(s)
    ensures SortedByOrder(r)
    ensures multiset(r) == multiset(s) + multiset{e}
    ensures forall x :: x in r <==> x == e || x in s
  {
    if s == [] || e.task.order <= s[0].task.order then [e] + s
    else
      var rest := Insert(e, s[1..]);
      assert s == [s[0]] + s[1..];
      assert forall x :: x in rest ==> s[0].task.order <= x.task.order;
      [s[0]] + rest
  }

  /** `.sort({ order: 1 })`: a permutation of s ascending by order. */
  function SortByOrder(s: seq<Entry>): (r: seq<Entry>)
    ensures SortedByOrder(r)
    ensures multiset(r) == multiset(s)
    ensures forall x :: x in r <==> x in s
  {
    if s == [] then []
    else
      assert s == [s[0]] + s[1..];
      Insert(s[0], SortByOrder(s[1..]))
  }

  /** Inserting an entry that is not yet present keeps a sequence free of repeats. */
  lemma {:induction false} InsertKeepsDistinct(e: Entry, s: seq<Entry>)
    requires SortedByOrder(s) && Distinct(s) && e !in s
    ensures Distinct(Insert(e, s))
  {
    if s == [] || e.task.order <= s[0].task.order {
      ConsDistinct(e, s);
    } else {
      assert s == [s[0]] + s[1..];
      InsertKeepsDistinct(e, s[1..]);
      ConsDistinct(s[0], Insert(e, s[1..]));
    }
  }

  /** Sorting keeps a sequence free of repeats. */
  lemma {:induction false} SortKeepsDistinct(s: seq<Entry>)
    requires Distinct(s)
    ensures Distinct(SortByOrder(s))
  {
    if s != [] {
      assert s == [s[0]] + s[1..];
      SortKeepsDistinct(s[1..]);
      InsertKeepsDistinct(s[0], SortByOrder(s[1..]));
    }
  }

  /** `find({ userId: owner }).sort({ order: 1 })` over a collection whose ids are all below n:
      every stored task of the owner once, no other task, ascending by order. */
  function ListByOwner(tasks: map<Id, Task>, n: nat, owner: string): (r: seq<Entry>)
    ensures forall e :: e in r <==> e.id < n && StoredIn(e, tasks) && e.task.userId == owner
    ensures SortedByOrder(r)
    ensures forall i, j :: 0 <= i < j < |r| ==> r[i].id != r[j].id
  {
    var owned := OwnedBelow(tasks, owner, n);
    var r := SortByOrder(owned);
    assert Distinct(owned) by {
      forall i, j | 0 <= i < j < |owned| ensures owned[i] != owned[j] {
        assert owned[i].id < owned[j].id;
      }
    }
    SortKeepsDistinct(owned);
    forall i, j | 0 <= i < j < |r| ensures r[i].id != r[j].id {
      assert r[i] in r && r[j] in r;
      assert r[i] != r[j];
    }
    r
  }

  /** In a sequence sorted by order, an entry whose order exceeds that of every other entry
      is the last one. */
  lemma GreatestIsLast(r: seq<Entry>, e: Entry)
    requires SortedByOrder(r) && e in r
    requires forall x :: x in r && x != e ==> x.task.order < e.task.order
    ensures r[|r| - 1] == e
  {
  }

  /** A task created with the order the create handler computes is listed last among its
      owner's tasks, after all of that owner's earlier tasks. */
  lemma CreatedTaskListsLast(tasks: map<Id, Task>, n: nat, t: Task)
    requires forall id :: id in tasks ==> id < n
    requires t.order == NextOrder(OwnedBelow(tasks, t.userId, n))
    ensures var r := ListByOwner(tasks[n := t], n + 1, t.userId);
            |r| == |ListByOwner(tasks, n, t.userId)| + 1 && r[|r| - 1] == Entry(n, t)
  {
    var before := ListByOwner(tasks, n, t.userId);
    var r := ListByOwner(tasks[n := t], n + 1, t.userId);
    var e := Entry(n, t);
    ListAfterInsert(tasks, n, t);
    forall x | x in r && x != e ensures x.task.order < t.order {
      assert x in OwnedBelow(tasks, t.userId, n);
    }
    GreatestIsLast(r, e);
    DistinctIdsLength(r, before, e);
  }

  /** Storing t under a fresh id n adds exactly that entry to its owner's listing. */
  lemma ListAfterInsert(tasks: map<Id, Task>, n: nat, t: Task)
    requires forall id :: id in tasks ==> id < n
    ensures Entry(n, t) !in ListByOwner(tasks, n, t.userId)
    ensures forall x :: x in ListByOwner(tasks[n := t], n + 1, t.userId) <==>
                        x == Entry(n, t) || x in ListByOwner(tasks, n, t.userId)
  {
  }

  /** Two listings without repeated ids that differ by exactly one entry differ in length by one. */
  lemma DistinctIdsLength(r: seq<Entry>, s: seq<Entry>, e: Entry)
    requires forall i, j :: 0 <= i < j < |r| ==> r[i].id != r[j].id
    requires forall i, j :: 0 <= i < j < |s| ==> s[i].id != s[j].id
    requires e !in s
    requires forall x :: x in r <==> x == e || x in s
    ensures |r| == |s| + 1
  {
    CardinalityOfDistinct(r);
    CardinalityOfDistinct(s);
    assert (set x | x in r) == (set x | x in s) + {e};
  }

  /** A sequence without repeated ids has as many distinct elements as positions. */
  lemma {:induction false} CardinalityOfDistinct(s: seq<Entry>)
    requires forall i, j :: 0 <= i < j < |s| ==> s[i].id != s[j].id
    ensures |set x | x in s| == |s|
  {
    if s != [] {
      var tail := s[1..];
      CardinalityOfDistinct(tail);
      assert (set x | x in s) == {s[0]} + (set x | x in tail);
      assert s[0] !in tail;
    }
  }

  /** Deleting one id removes that task from its owner's listing and keeps every other listed
      task with its fields, its order included: the remaining orders keep their gaps. */
  lemma DeleteKeepsOthersListed(tasks: map<Id, Task>, n: nat, owner: string, id: Id)
    ensures forall e :: e in ListByOwner(tasks - {id}, n, owner) <==>
                        e in ListByOwner(tasks, n, owner) && e.id != id
  {
  }
}
