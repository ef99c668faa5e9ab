/** The Task model: its schema, the documents a create builds, and the merge an update applies. */
module Schema {
  import opened JsValues

  /** A task document as the collection stores it. After an update the fields may hold
      values the schema would reject, since updates are not validated. */
  datatype Task = Task(
    title: string,
    description: Option<string>,
    timestamp: int,
    category: string,
    userId: string,
    order: int)

  const TitleMaxLength: nat := 50
  const DescriptionMaxLength: nat := 200
  const Categories: set<string> := {"todo", "InProgress", "done"}

  /** The validators of the task schema, run when a new document is saved: title required and
      at most 50 characters, description at most 200, category from the enum, userId required.
      `order` is a number, so it is always present here; a required string must be non-empty. */
  predicate Conforms(t: Task) {
    && 0 < |t.title| <= TitleMaxLength
    && (t.description.Some? ==> |t.description.value| <= DescriptionMaxLength)
    && t.category in Categories
    && t.userId != ""
  }

  /** The schema's fields of a request body; a field is None when its key is absent. */
  datatype TaskBody = TaskBody(
    title: Option<string>,
    description: Option<string>,
    timestamp: Option<int>,
    category: Option<string>,
    userId: Option<string>,
    order: Option<int>)

  /** A body that supplies no field at all. */
  const EmptyBody := TaskBody(None, None, None, None, None, None)

  /** The guard of the create handler: title, category and userId must all be truthy. */
  predicate HasRequired(b: TaskBody) {
    Truthy(b.title) && Truthy(b.category) && Truthy(b.userId)
  }

  /** The document `new Task({...body, order})` builds: the body's own `order` is replaced by
      the computed one, and `timestamp` falls back to the schema default (the current time). */
  function NewTask(b: TaskBody, order: int, now: int): Task
    requires HasRequired(b)
  {
    Task(
      title := b.title.value,
      description := b.description,
      timestamp := if b.timestamp.Some? then b.timestamp.value else now,
      category := b.category.value,
      userId := b.userId.value,
      order := order)
  }

  /** The new task conforms exactly when the supplied lengths and category are within the schema;
      whatever `order` the body carried plays no part. */
  lemma NewTaskConformsIff(b: TaskBody, order: int, now: int)
    requires HasRequired(b)
    ensures Conforms(NewTask(b, order, now)) <==>
      && |b.title.value| <= TitleMaxLength
      && (b.description.Some? ==> |b.description.value| <= DescriptionMaxLength)
      && b.category.value in Categories
    ensures NewTask(b, order, now) == NewTask(b.(order := None), order, now)
  {
  }

  /** The merge `findByIdAndUpdate(id, body)` applies: a supplied field overwrites, an absent one
      keeps the stored value. Nothing is re-validated and no field is protected. */
  function ApplyPatch(t: Task, p: TaskBody): Task {
    Task(
      title := if p.title.Some? then p.title.value else t.title,
      description := if p.description.Some? then p.description else t.description,
      timestamp := if p.timestamp.Some? then p.timestamp.value else t.timestamp,
      category := if p.category.Some? then p.category.value else t.category,
      userId := if p.userId.Some? then p.userId.value else t.userId,
      order := if p.order.Some? then p.order.value else t.order)
  }

  /** The body that has the fields of q where q supplies them and those of p elsewhere. */
  function Merge(p: TaskBody, q: TaskBody): TaskBody {
    TaskBody(
      title := if q.title.Some? then q.title else p.title,
      description := if q.description.Some? then q.description else p.description,
      timestamp := if q.timestamp.Some? then q.timestamp else p.timestamp,
      category := if q.category.Some? then q.category else p.category,
      userId := if q.userId.Some? then q.userId else p.userId,
      order := if q.order.Some? then q.order else p.order)
  }

  /** An update that supplies nothing leaves the task as it was. */
  lemma PatchEmptyIsIdentity(t: Task)
    ensures ApplyPatch(t, EmptyBody) == t
  {
  }

  /** Sending the same update twice has the effect of sending it once. */
  lemma PatchIdempotent(t: Task, p: TaskBody)
    ensures ApplyPatch(ApplyPatch(t, p), p) == ApplyPatch(t, p)
  {
  }

  /** Two successive updates equal one update with the later body's fields winning. */
  lemma PatchCompose(t: Task, p: TaskBody, q: TaskBody)
    ensures ApplyPatch(ApplyPatch(t, p), q) == ApplyPatch(t, Merge(p, q))
  {
  }

  /** Since updates skip the validators, an update can store a task the schema rejects:
      here a conforming task is moved to a category outside the enum and given an empty title. */
  lemma UpdateMayBreakSchema()
    ensures var t := Task("Write spec", None, 0, "todo", "u1", 1);
            var p := EmptyBody.(title := Some(""), category := Some("archived"));
            Conforms(t) && !Conforms(ApplyPatch(t, p))
  {
  }
}
