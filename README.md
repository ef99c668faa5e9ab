# Task board server: the task collection and its handlers

This project models the core of a Kanban-style task server written in JavaScript (Express,
Mongoose, socket.io). Each user owns a collection of tasks; each task has a title, an optional
description, a category (`todo`, `InProgress` or `done`, the board's columns), an owner id, a
timestamp and an integer `order` that places it among its owner's tasks. The server creates,
lists, updates and deletes tasks over HTTP. After every successful change it broadcasts a
payload-free `taskUpdated` event so that connected clients re-fetch. A small user registry
rejects a second account with the same email.

The model replaces the database with in-memory state and the broadcast with a counter:

- `JsValues` (`js_values.dfy`): request-body fields as `Option` values (absent or present), and
  JavaScript truthiness of a string field (`undefined` and `""` are falsy), used by `x || d`.
- `Schema` (`schema.dfy`): the `Task` document and `Conforms`, the task schema's validators.
  `NewTask` builds the document a create saves. `ApplyPatch` is the merge an update applies.
- `TaskQueries` (`task_queries.dfy`): the queries the handlers issue. `OwnedBelow` is
  `find({ userId })`. `MaxOrder` and `NextOrder` are the `findOne(...).sort({ order: -1 })` lookup
  and `lastTask ? lastTask.order + 1 : 1`. `ListByOwner` is `find({ userId }).sort({ order: 1 })`.
  The sort is an insertion sort proved sorted and a permutation.
- `Users` (`users.dfy`): the `UserInfo` document, `findOne({ email })`, and the account a
  registration builds, with its defaults.
- `Server` (`server.dfy`): class `TaskServer` holds the Task collection (`tasks: map<Id, Task>`),
  the next document id, the UserInfo collection (`users: seq<UserInfo>`) and `events`, the
  number of `taskUpdated` broadcasts so far. It has one method per route handler. Every method
  states its whole new state (tasks, next id, users and events). Failures return `Err` with the HTTP status of the source.
- `Walkthrough` (`walkthrough.dfy`): a client of the handlers. Two tasks are created for one
  owner and get orders 1 and 2 in that listing order. One is moved to `done` and keeps its order.
  A create with an empty title is refused without a broadcast. A delete leaves the other task at
  order 2. An update of the deleted id answers 404.

The current time and the random fallback user id are parameters (`now`, `generatedId`).

Behaviour of the code that the model keeps:

- Updates are not validated: `findByIdAndUpdate` runs without validators, so an update can give
  a task an empty title or a category outside the enum (`Schema.UpdateMayBreakSchema`).
- An update can overwrite `userId` and `timestamp`, because the whole body is merged.
- A delete always answers 200 `"Task deleted"` and broadcasts, also for an id that is absent.
- Tasks of one owner with equal `order` have no tie-breaker in the query. The model's sort keeps
  id order, but no contract promises any order among ties.

## Model

| member | source | states |
|---|---|---|
| `JsValues.OrElse` | index.js:98-101 | the or-expression on a string field yields one of its two operands, and its result is truthy exactly when the field or the fallback is truthy |
| `Schema.NewTaskConformsIff` | index.js:45-56 | the created document passes the schema's validators exactly when the title has at most 50 characters, the description (if any) at most 200 and the category is one of todo, InProgress, done; the body's own `order` plays no part in the document |
| `Schema.PatchEmptyIsIdentity` | index.js:190-196 | an update body that supplies no field leaves the task unchanged |
| `Schema.PatchIdempotent` | index.js:190-196 | applying the same update body twice equals applying it once |
| `Schema.PatchCompose` | index.js:190-196 | two successive updates equal one update whose body takes the later body's supplied fields over the earlier's |
| `Schema.UpdateMayBreakSchema` | index.js:194-196 | because updates are not validated, a conforming task can be updated into one that violates the schema |
| `TaskQueries.OwnedBelow` | index.js:181 | the owner's query returns exactly the stored documents whose userId is the owner, each once, in increasing id order |
| `TaskQueries.MaxOrder` | index.js:163 | the top-order lookup yields nothing exactly for an owner without tasks, and otherwise an order some task of the owner has and none exceeds |
| `TaskQueries.NextOrder` | index.js:166 | the assigned order is 1 for an owner without tasks, otherwise one more than an order the owner holds, and above every order the owner holds |
| `TaskQueries.Insert` | index.js:181 | inserting into a sequence sorted by order keeps it sorted and adds exactly that entry |
| `TaskQueries.SortByOrder` | index.js:181 | the ascending sort by order returns a permutation of its input that is sorted by order |
| `TaskQueries.ListByOwner` | index.js:181 | the listing holds an entry exactly when it is a stored task of that owner, each task once, ascending by order |
| `TaskQueries.GreatestIsLast` | index.js:181 | in a listing sorted by order, an entry with an order above every other entry's is the last one |
| `TaskQueries.CreatedTaskListsLast` | index.js:162-167 | a task stored with the computed order under a fresh id appears last in its owner's listing, which grows by exactly one |
| `TaskQueries.DeleteKeepsOthersListed` | index.js:211 | after deleting an id, a listing holds exactly the entries it held before except the deleted one, with their orders untouched (gaps stay) |
| `Users.FindByEmail` | index.js:91 | the email lookup finds nothing exactly when no account has that email, and otherwise an account with that email |
| `Users.NewUser` | index.js:97-103 | the new account carries the request's email and the current time; userId, displayName and photoURL fall back to the generated id, "Unknown User" and the randomuser portrait URL when the request's values are falsy |
| `Users.AppendKeepsEmailsUnique` | index.js:91-106 | adding an account whose email is not yet registered keeps every email registered at most once |
| `Server.TaskServer.AddTask` | index.js:152-174 | missing title, category or userId gives 400 and changes nothing; otherwise the order is the owner's maximum plus one (1 for a new owner), the body's order ignored; a document failing the schema gives 400 and changes nothing; on success the conforming task is stored under a fresh id, answered with 201 and one event is emitted |
| `Server.TaskServer.GetTasks` | index.js:176-186 | answers 200 with exactly the owner's stored tasks, each once, ascending by order |
| `Server.TaskServer.UpdateTask` | index.js:188-207 | an unknown id gives 404, changes nothing and emits nothing; otherwise supplied fields overwrite, absent ones (order included) keep their values, no other task changes, the updated task is answered with 200 and one event is emitted |
| `Server.TaskServer.DeleteTask` | index.js:209-217 | removes only the given id (none if absent), leaves every other task and its order as it was, always answers 200 "Task deleted" and emits one event |
| `Server.TaskServer.Register` | index.js:86-112 | an email already registered gives 400 and adds nothing; otherwise exactly one account built with the defaults is appended and returned, unless it fails the user schema (500); tasks and events never change |
| `Walkthrough.CreateTwo` | index.js:162-167 | two creations for an owner without tasks are given orders 1 and 2 even when the second body carries its own order |

## Left out

- HTTP plumbing: the Express app, the CORS origin check, the middleware and `server.listen`.
  Handlers are methods, and a reply is a status with a body value.
- The MongoDB connection and Mongoose internals. Collections are in-memory. Database failures
  (the catch branches that answer 500 or 400 with the driver's message) are not modelled, except
  the validators' rejection on save.
- The socket.io server and its connection handling. `io.emit("taskUpdated")` increments `events`.
- Token issuing and verification (`/api/jwt`, `verifyToken`): calls into a JWT library.
- `Math.random` and `Date.now` / `new Date()`: these are parameters.
- The read-then-write race of order assignment between concurrent creates, which can give two
  tasks one order, and the unique-index error a concurrent duplicate registration would hit.
  The model is sequential.
- `console` logging.
- Request bodies are typed: string fields are strings and `order` and `timestamp` are integers.
  Not modelled: `null` values, values of another JSON type and Mongoose's casting of them (a cast
  error answers 400 on create and update). Also not modelled: a malformed id in the path (400 on
  update, 500 on delete), an `_id` in the body, and fields outside the schema (dropped by it).
- An absent `userId` query parameter on the listing and an absent `email` on registration: how
  Mongoose treats an `undefined` filter value is not modelled; both are taken as strings.
- Lengths are counted in Unicode scalar values; JavaScript counts UTF-16 code units.
- `order` is a JavaScript number: fractional orders and floating-point rounding of
  `order + 1` are not modelled.
- Response messages: the JSON texts of the replies (the error messages, Mongoose's validation
  message, and the `"User registered successfully."` that accompanies a new account) are not
  modelled. A reply is a status with its failure kind or its value.
