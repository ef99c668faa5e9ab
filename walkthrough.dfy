/** A client of the handlers: two tasks created for one owner, listed, one moved to another
    column, then deleted, with what each step guarantees checked against the contracts. */
module Walkthrough {
  import opened JsValues
  import opened Schema
  import opened TaskQueries
  import opened Server

  /** A listing without repeated ids holding exactly a and b, sorted, with a before b in order. */
  lemma ListOfTwo(r: seq<Entry>, a: Entry, b: Entry)
    requires a.id != b.id && a.task.order < b.task.order
    requires forall x :: x in r <==> x == a || x == b
    requires SortedByOrder(r)
    requires forall i, j :: 0 <= i < j < |r| ==> r[i].id != r[j].id
    ensures r == [a, b]
  {
    CardinalityOfDistinct(r);
    assert (set x | x in r) == {a, b};
    assert r[0] in r && r[1] in r;
  }

  /** Two creations for an owner with no tasks get orders 1 and 2 (an `order` in the body is
      ignored), and the owner's listing is the two tasks in that order. */
  method CreateTwo(now: int) returns (server: TaskServer, a: Entry, b: Entry)
    ensures fresh(server) && server.Valid()
    ensures server.tasks == map[a.id := a.task, b.id := b.task] && a.id != b.id
    ensures a.task.order == 1 && b.task.order == 2 && a.task.userId == b.task.userId == "u1"
    ensures server.events == 2
  {
    server := new TaskServer();
    var body := EmptyBody.(title := Some("Write spec"), category := Some("todo"), userId := Some("u1"));

    var ra := server.AddTask(body, now);
    assert ra.Status() == 201;
    a := ra.value;

    var rb := server.AddTask(body.(order := Some(7)), now);
    assert rb.Ok?;
    b := rb.value;

    var listed := server.GetTasks("u1");
    ListOfTwo(listed.value, a, b);
    assert listed.value == [a, b];
  }

  /** Moving a task to another column keeps its order; a rejected create and an update of a
      deleted id emit nothing; deleting leaves the other task with its order, gap included. */
  method MoveAndDelete(now: int)
  {
    var server, a, b := CreateTwo(now);

    var moved := server.UpdateTask(a.id, EmptyBody.(category := Some("done")));
    assert moved.Ok? && moved.value.task.category == "done" && moved.value.task.order == 1;

    var body := EmptyBody.(title := Some(""), category := Some("todo"), userId := Some("u1"));
    var missing := server.AddTask(body, now);
    assert missing.Status() == 400 && server.events == 3;

    var deleted := server.DeleteTask(a.id);
    assert deleted.value == TaskDeleted && server.events == 4;
    assert server.tasks == map[b.id := b.task];

    var listed := server.GetTasks("u1");
    assert listed.value == [b] by {
      CardinalityOfDistinct(listed.value);
      assert (set x | x in listed.value) == {b};
    }
    assert listed.value[0].task.order == 2;

    var notFound := server.UpdateTask(a.id, EmptyBody.(order := Some(1)));
    assert notFound.Status() == 404 && server.events == 4;
  }
}
