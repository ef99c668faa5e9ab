/** The route handlers of the task server over an in-memory Task collection, an in-memory
    UserInfo collection and a counter of "taskUpdated" broadcasts. */
module Server {
  import opened JsValues
  import opened Schema
  import opened TaskQueries
  import opened Users

  /** Why a handler answered with an error. */
  datatype Failure =
    | MissingRequired    // create without a truthy title, category or userId
    | ValidationFailed   // the new task failed the schema's validators on save
    | TaskNotFound       // update of an id the collection does not hold
    | EmailExists        // registration with an email already registered
    | SaveFailed         // the new account failed the user schema's validators on save

  function StatusOf(f: Failure): int {
    match f
    case MissingRequired => 400
    case ValidationFailed => 400
    case TaskNotFound => 404
    case EmailExists => 400
    case SaveFailed => 500
  }

  /** A handler's answer: a success status with its body, or a failure. */
  datatype Reply<T> = Ok(status: int, value: T) | Err(failure: Failure) {
    function Status(): int {
      if Ok? then status else StatusOf(failure)
    }
  }

  const TaskDeleted := "Task deleted"

  class TaskServer {
    /** The Task collection, by document id. */
    var tasks: map<Id, Task>
    /** The id the next saved task receives. */
    var nextId: Id
    /** The UserInfo collection, in insertion order. */
    var users: seq<UserInfo>
    /** How many times `io.emit("taskUpdated")` has fired. */
    var events: nat

    ghost predicate Valid()
      reads this
    {
      && (forall id :: id in tasks ==> id < nextId)
      && EmailsUnique(users)
      && (forall u :: u in users ==> UserConforms(u))
    }

    /** The owner's stored tasks, in id order. */
    function OwnerTasks(owner: string): seq<Entry>
      reads this
    {
      OwnedBelow(tasks, owner, nextId)
    }

    constructor ()
      ensures Valid()
      ensures tasks == map[] && users == [] && events == 0
    {
      tasks := map[];
      nextId := 0;
      users := [];
      events := 0;
    }

    /** POST /addtasks */
    method AddTask(body: TaskBody, now: int) returns (reply: Reply<Entry>)
      requires Valid()
      modifies this
      ensures Valid() && users == old(users)
      ensures !HasRequired(body) ==> reply == Err(MissingRequired)
      ensures HasRequired(body) ==>
        var t := NewTask(body, NextOrder(old(OwnerTasks(body.userId.value))), now);
        reply == if Conforms(t) then Ok(201, Entry(old(nextId), t)) else Err(ValidationFailed)
      ensures reply.Ok? ==>
        && reply.value.id !in old(tasks)
        && tasks == old(tasks)[reply.value.id := reply.value.task]
        && nextId == old(nextId) + 1
        && events == old(events) + 1
      ensures reply.Err? ==> tasks == old(tasks) && nextId == old(nextId) && events == old(events)
      // what a stored task is guaranteed to satisfy
      ensures reply.Ok? ==>
        var t := reply.value.task;
        && Conforms(t)
        && (old(OwnerTasks(t.userId)) == [] ==> t.order == 1)
        && (forall e :: e in old(OwnerTasks(t.userId)) ==> e.task.order < t.order)
    {
      if !HasRequired(body) {
        return Err(MissingRequired);
      }
      var owner := body.userId.value;
      // findOne({ userId }).sort({ order: -1 }), then lastTask ? lastTask.order + 1 : 1
      var order := NextOrder(OwnedBelow(tasks, owner, nextId));
      var t := NewTask(body, order, now);
      if !Conforms(t) {
        // task.save() rejects the document
        return Err(ValidationFailed);
      }
      reply := Ok(201, Entry(nextId, t));
      tasks := tasks[nextId := t];
      nextId := nextId + 1;
      events := events + 1;
    }

    /** GET /tasksget?userId=owner */
    method GetTasks(owner: string) returns (reply: Reply<seq<Entry>>)
      requires Valid()
      ensures reply.Ok? && reply.status == 200
      ensures forall e :: e in reply.value <==> StoredIn(e, tasks) && e.task.userId == owner
      ensures SortedByOrder(reply.value)
      ensures forall i, j :: 0 <= i < j < |reply.value| ==> reply.value[i].id != reply.value[j].id
    {
      reply := Ok(200, ListByOwner(tasks, nextId, owner));
    }

    /** PUT /tasks/:id */
    method UpdateTask(id: Id, body: TaskBody) returns (reply: Reply<Entry>)
      requires Valid()
      modifies this
      ensures Valid() && users == old(users) && nextId == old(nextId)
      ensures id !in old(tasks) ==>
        reply == Err(TaskNotFound) && tasks == old(tasks) && events == old(events)
      ensures id in old(tasks) ==>
        var t := ApplyPatch(old(tasks)[id], body);
        && reply == Ok(200, Entry(id, t))
        && tasks == old(tasks)[id := t]
        && events == old(events) + 1
      // order moves only when the body supplies one, and then to exactly that value
      ensures reply.Ok? && body.order.None? ==> reply.value.task.order == old(tasks)[id].order
      ensures reply.Ok? && body.order.Some? ==> reply.value.task.order == body.order.value
    {
      // { ...req.body } without `order` when it is undefined: an absent field is not merged
      var updateData := body;
      if id !in tasks {
        return Err(TaskNotFound);
      }
      var t := ApplyPatch(tasks[id], updateData);
      tasks := tasks[id := t];
      events := events + 1;
      reply := Ok(200, Entry(id, t));
    }

    /** DELETE /tasks/:id */
    method DeleteTask(id: Id) returns (reply: Reply<string>)
      requires Valid()
      modifies this
      ensures Valid() && users == old(users) && nextId == old(nextId)
      ensures reply == Ok(200, TaskDeleted)
      ensures tasks == old(tasks) - {id}
      ensures events == old(events) + 1
    {
      tasks := tasks - {id};
      events := events + 1;
      reply := Ok(200, TaskDeleted);
    }

    /** POST /api/register */
    method Register(reg: Registration, generatedId: string, now: int) returns (reply: Reply<UserInfo>)
      requires Valid()
      modifies this
      ensures Valid()
      ensures tasks == old(tasks) && nextId == old(nextId) && events == old(events)
      ensures (exists u :: u in old(users) && u.email == reg.email) ==>
        reply == Err(EmailExists) && users == old(users)
      ensures (forall u :: u in old(users) ==> u.email != reg.email) ==>
        var u := NewUser(reg, generatedId, now);
        if UserConforms(u) then reply == Ok(200, u) && users == old(users) + [u]
        else reply == Err(SaveFailed) && users == old(users)
    {
      var existing := FindByEmail(users, reg.email);
      if existing.Some? {
        return Err(EmailExists);
      }
      var u := NewUser(reg, generatedId, now);
      if !UserConforms(u) {
        // newUser.save() rejects the document
        return Err(SaveFailed);
      }
      AppendKeepsEmailsUnique(users, u);
      users := users + [u];
      reply := Ok(200, u);
    }
  }
}
