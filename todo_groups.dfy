/** The todo-groups controller (todopalm-server/src/api/v1/controllers/todoGroups.ts). */
module TodoGroupsController {
  import opened Common
  import opened Store

  /** A group together with its todos: `include: { todos: true }`. */
  datatype GroupWithTodos = GroupWithTodos(group: TodoGroup, todos: map<Id, Todo>)

  /** The todos that belong to the group `gid`. */
  function TodosOfGroup(todos: map<Id, Todo>, gid: Id): (r: map<Id, Todo>)
    ensures forall k :: k in r <==> k in todos && todos[k].todoGroupId == gid
    ensures forall k :: k in r ==> r[k] == todos[k]
  {
    Where(todos, (t: Todo) => t.todoGroupId == gid)
  }

  /** getTodoGroups: the requester's groups, each with its todos, and no other group. */
  function GetTodoGroups(db: Db, uid: Id): (r: Reply<map<Id, GroupWithTodos>>)
    reads db
    ensures r.Json? && r.status == 200
    ensures forall k :: k in r.value <==> k in db.groups && db.groups[k].userId == uid
    ensures forall k :: k in r.value ==>
      r.value[k].group == db.groups[k] && r.value[k].todos == TodosOfGroup(db.todos, k)
  {
    Json(200, map k | k in db.groups && db.groups[k].userId == uid ::
      GroupWithTodos(db.groups[k], TodosOfGroup(db.todos, k)))
  }

  /** getTodoGroup: the group with its todos, or 404 when no group has that id.
      Any authenticated caller may read any group. */
  function GetTodoGroup(db: Db, id: Id): (r: Reply<GroupWithTodos>)
    reads db
    requires db.Valid()
    ensures id !in db.groups <==> r == ErrorBody(404, "Todo group not found")
    ensures id in db.groups ==>
      r.Json? && r.status == 200 && r.value.group == db.groups[id] && r.value.todos == TodosOfGroup(db.todos, id)
  {
    if id !in db.groups then ErrorBody(404, "Todo group not found")
    else Json(200, GroupWithTodos(db.groups[id], TodosOfGroup(db.todos, id)))
  }

  /** lockTodoGroup: sets the lock flag of the group `id` and nothing else. The
      handler is not given the requester, so it locks any user's group. Locking a
      locked group writes the same row again. */
  method LockTodoGroup(db: Db, id: Id) returns (r: Reply<TodoGroup>)
    requires db.Valid()
    modifies db
    ensures db.Valid()
    ensures db.users == old(db.users) && db.todos == old(db.todos) && db.categories == old(db.categories)
    ensures id !in old(db.groups) ==> db.groups == old(db.groups) && r == ErrorBody(500, SOMETHING_WENT_WRONG)
    ensures id in old(db.groups) ==>
      && db.groups == old(db.groups)[id := old(db.groups)[id].(isLocked := true)]
      && db.groups[id].status == old(db.groups)[id].status
      && r == Json(200, db.groups[id])
    ensures id in old(db.groups) && old(db.groups)[id].isLocked ==> db.groups == old(db.groups)
  {
    if id !in db.groups {
      return ErrorBody(500, SOMETHING_WENT_WRONG);
    }
    db.groups := db.groups[id := db.groups[id].(isLocked := true)];
    r := Json(200, db.groups[id]);
  }
}
