/** The todos controller (todopalm-server/src/api/v1/controllers/todos.ts):
    one read or one write on the todo table per request. */
module TodosController {
  import opened Common
  import opened Store

  /** The filter getTodos applies as written: `where: { id: req.user.id }`
      selects the todo whose own id is the requester's id. */
  function TodosWhereIdIs(todos: map<Id, Todo>, requesterId: Id): (r: map<Id, Todo>)
    requires KeyedById(todos, (t: Todo) => t.id)
    ensures r.Keys <= {requesterId}
    ensures requesterId in todos ==> r == map[requesterId := todos[requesterId]]
    ensures requesterId !in todos ==> r == map[]
  {
    Where(todos, (t: Todo) => t.id == requesterId)
  }

  /** The filter getTodos is evidently meant to apply: the requester's todos. */
  function TodosOfUser(todos: map<Id, Todo>, uid: Id): (r: map<Id, Todo>)
    ensures forall k :: k in r ==> k in todos && r[k] == todos[k] && r[k].userId == uid
    ensures forall k :: k in todos && todos[k].userId == uid ==> k in r
  {
    Where(todos, (t: Todo) => t.userId == uid)
  }

  /** The filter as written answers with nothing for a user who owns a todo,
      as soon as no todo happens to carry the user's id as its own id. */
  lemma GetTodosAsWrittenMissesOwnedTodos()
    ensures
      var t := Todo("t1", "u1", "g1", None, "title", "content", false);
      var todos := map["t1" := t];
      TodosWhereIdIs(todos, "u1") == map[] && TodosOfUser(todos, "u1") == todos
  {
    var t := Todo("t1", "u1", "g1", None, "title", "content", false);
    var todos := map["t1" := t];
    assert "u1" !in todos;
    assert TodosOfUser(todos, "u1").Keys == {"t1"};
  }

  /** getTodos as written. */
  function GetTodosAsWritten(db: Db, requesterId: Id): (r: Reply<map<Id, Todo>>)
    reads db
    requires db.Valid()
    ensures r.Json? && r.status == 200 && r.value.Keys <= {requesterId}
    ensures r.value == TodosWhereIdIs(db.todos, requesterId)
  {
    Json(200, TodosWhereIdIs(db.todos, requesterId))
  }

  /** getTodos with the owner filter: exactly the requester's todos. */
  function GetTodos(db: Db, requesterId: Id): (r: Reply<map<Id, Todo>>)
    reads db
    ensures r.Json? && r.status == 200
    ensures forall k :: k in r.value ==> k in db.todos && r.value[k] == db.todos[k] && r.value[k].userId == requesterId
    ensures forall k :: k in db.todos && db.todos[k].userId == requesterId ==> k in r.value
  {
    Json(200, TodosOfUser(db.todos, requesterId))
  }

  /** getTodoById: `findUnique` answers `null` for an unknown id, and the handler
      still answers 200 with that `null`. */
  function GetTodoById(db: Db, id: Id): (r: Reply<Option<Todo>>)
    reads db
    ensures r.Json? && r.status == 200
    ensures id in db.todos <==> r.value.Some?
    ensures r.value.Some? ==> r.value.value == db.todos[id]
  {
    Json(200, if id in db.todos then Some(db.todos[id]) else None)
  }

  /** createTodo: the new todo belongs to the requester and to the requester's
      newest group, whatever that group's status or lock; its category is
      connected only when `categoryId` is truthy. A connect to a missing row
      (no user, no group, unknown category) makes the create throw. */
  method CreateTodo(
    db: Db, requesterId: Id, title: string, content: string, categoryId: Option<string>, freshId: Id)
    returns (r: Reply<Todo>)
    requires db.Valid()
    requires freshId !in db.todos
    modifies db
    ensures db.Valid()
    ensures db.users == old(db.users) && db.groups == old(db.groups) && db.categories == old(db.categories)
    ensures r.Json? <==>
      && requesterId in old(db.users)
      && !NoGroupOf(old(db.groups), requesterId)
      && (Truthy(categoryId) ==> categoryId.value in old(db.categories))
    ensures r.Json? ==>
      && r.status == 201
      && db.todos == old(db.todos)[freshId := r.value]
      && r.value.id == freshId && r.value.userId == requesterId
      && r.value.title == title && r.value.content == content && !r.value.isCompleted
      && r.value.todoGroupId in old(db.groups) && IsNewest(old(db.groups), requesterId, old(db.groups)[r.value.todoGroupId])
      && r.value.categoryId == (if Truthy(categoryId) then categoryId else None)
    ensures !r.Json? ==> db.todos == old(db.todos) && r == Message(500, SOMETHING_WENT_WRONG)
  {
    var todaysTodoGroup: Option<TodoGroup> := None;
    if requesterId in db.users {
      todaysTodoGroup := NewestGroup(db.groups, requesterId);
    }
    if requesterId !in db.users || todaysTodoGroup.None? {
      return Message(500, SOMETHING_WENT_WRONG);
    }
    var category: Option<Id> := None;
    if Truthy(categoryId) {
      if categoryId.value !in db.categories {
        return Message(500, SOMETHING_WENT_WRONG);
      }
      category := categoryId;
    }
    var todo := Todo(freshId, requesterId, todaysTodoGroup.value.id, category, title, content, false);
    db.todos := db.todos[freshId := todo];
    r := Json(201, todo);
  }

  /** The todo table with the completion flag of `id` set to `done`. */
  function SetCompleted(todos: map<Id, Todo>, id: Id, done: bool): (r: map<Id, Todo>)
    requires id in todos
    ensures r.Keys == todos.Keys && r[id].isCompleted == done
    ensures r[id] == todos[id].(isCompleted := done)
    ensures forall k :: k in todos && k != id ==> r[k] == todos[k]
    ensures todos[id].isCompleted == done ==> r == todos
  {
    todos[id := todos[id].(isCompleted := done)]
  }

  /** Setting the flag twice is setting it once, and setting it back restores the table. */
  lemma SetCompletedIdempotentAndReversible(todos: map<Id, Todo>, id: Id, done: bool)
    requires id in todos
    ensures SetCompleted(SetCompleted(todos, id, done), id, done) == SetCompleted(todos, id, done)
    ensures SetCompleted(SetCompleted(todos, id, done), id, todos[id].isCompleted) == todos
  {
    assert todos[id].(isCompleted := done).(isCompleted := todos[id].isCompleted) == todos[id];
  }

  /** completeTodo (`done` true) and unCompleteTodo (`done` false): an update of
      one row's flag; an unknown id makes `update` throw. */
  method SetTodoCompleted(db: Db, id: Id, done: bool) returns (r: Reply<Todo>)
    requires db.Valid()
    modifies db
    ensures db.Valid()
    ensures db.users == old(db.users) && db.groups == old(db.groups) && db.categories == old(db.categories)
    ensures id !in old(db.todos) ==> db.todos == old(db.todos) && r == Message(500, SOMETHING_WENT_WRONG)
    ensures id in old(db.todos) ==>
      db.todos == SetCompleted(old(db.todos), id, done) && r == Json(200, db.todos[id])
  {
    if id !in db.todos {
      return Message(500, SOMETHING_WENT_WRONG);
    }
    db.todos := SetCompleted(db.todos, id, done);
    r := Json(200, db.todos[id]);
  }

  /** completeTodo */
  method CompleteTodo(db: Db, id: Id) returns (r: Reply<Todo>)
    requires db.Valid()
    modifies db
    ensures db.Valid()
    ensures db.users == old(db.users) && db.groups == old(db.groups) && db.categories == old(db.categories)
    ensures id !in old(db.todos) ==> db.todos == old(db.todos) && r == Message(500, SOMETHING_WENT_WRONG)
    ensures id in old(db.todos) ==>
      db.todos == old(db.todos)[id := old(db.todos)[id].(isCompleted := true)] && r == Json(200, db.todos[id])
  {
    r := SetTodoCompleted(db, id, true);
  }

  /** unCompleteTodo */
  method UnCompleteTodo(db: Db, id: Id) returns (r: Reply<Todo>)
    requires db.Valid()
    modifies db
    ensures db.Valid()
    ensures db.users == old(db.users) && db.groups == old(db.groups) && db.categories == old(db.categories)
    ensures id !in old(db.todos) ==> db.todos == old(db.todos) && r == Message(500, SOMETHING_WENT_WRONG)
    ensures id in old(db.todos) ==>
      db.todos == old(db.todos)[id := old(db.todos)[id].(isCompleted := false)] && r == Json(200, db.todos[id])
  {
    r := SetTodoCompleted(db, id, false);
  }

  /** updateTodo: changes title and content of one row (an omitted field is left
      alone); an unknown id makes `update` throw. */
  method UpdateTodo(db: Db, id: Id, title: Option<string>, content: Option<string>) returns (r: Reply<Todo>)
    requires db.Valid()
    modifies db
    ensures db.Valid()
    ensures db.users == old(db.users) && db.groups == old(db.groups) && db.categories == old(db.categories)
    ensures id !in old(db.todos) ==> db.todos == old(db.todos) && r == Message(500, SOMETHING_WENT_WRONG)
    ensures id in old(db.todos) ==>
      && db.todos.Keys == old(db.todos).Keys
      && (forall k :: k in db.todos && k != id ==> db.todos[k] == old(db.todos)[k])
      && db.todos[id].title == (if title.Some? then title.value else old(db.todos)[id].title)
      && db.todos[id].content == (if content.Some? then content.value else old(db.todos)[id].content)
      && db.todos[id].(title := old(db.todos)[id].title, content := old(db.todos)[id].content) == old(db.todos)[id]
      && r == Json(200, db.todos[id])
  {
    if id !in db.todos {
      return Message(500, SOMETHING_WENT_WRONG);
    }
    var t := db.todos[id];
    var t' := t.(title := if title.Some? then title.value else t.title,
                 content := if content.Some? then content.value else t.content);
    db.todos := db.todos[id := t'];
    r := Json(200, t');
  }

  /** deleteTodo: removes exactly that row and answers 204 with no body; an
      unknown id makes `delete` throw. */
  method DeleteTodo(db: Db, id: Id) returns (r: Reply<()>)
    requires db.Valid()
    modifies db
    ensures db.Valid()
    ensures db.users == old(db.users) && db.groups == old(db.groups) && db.categories == old(db.categories)
    ensures id !in old(db.todos) ==> db.todos == old(db.todos) && r == Message(500, SOMETHING_WENT_WRONG)
    ensures id in old(db.todos) ==> db.todos == old(db.todos) - {id} && r == Empty(204)
  {
    if id !in db.todos {
      return Message(500, SOMETHING_WENT_WRONG);
    }
    db.todos := db.todos - {id};
    r := Empty(204);
  }
}
