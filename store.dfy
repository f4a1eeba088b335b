/** The Prisma store the controllers share, as four in-memory tables keyed by id.
    Row shapes follow the fields the controllers read and write. */
module Store {
  import opened Common

  datatype GroupStatus = Active | Inactive

  datatype User = User(
    id: Id,
    email: string,            // unique: the controllers look users up with findUnique({ email })
    name: Option<string>,
    password: Option<string>, // a bcrypt hash; null for accounts created by Google sign-in
    occupation: Option<string>,
    additionalInfo: Option<string>,
    imageUrl: Option<string>,
    theme: string)

  /** A day's container of todos. */
  datatype TodoGroup = TodoGroup(id: Id, userId: Id, createdAt: int, status: GroupStatus, isLocked: bool)

  datatype Todo = Todo(
    id: Id,
    userId: Id,
    todoGroupId: Id,
    categoryId: Option<Id>,
    title: string,
    content: string,
    isCompleted: bool)

  datatype Category = Category(id: Id, userId: Id, name: string, icon: string)

  /** Every row is stored under its own id. */
  ghost predicate KeyedById<V>(m: map<Id, V>, idOf: V -> Id)
  {
    forall k :: k in m ==> idOf(m[k]) == k
  }

  /** The rows of `m` that satisfy `p`: a Prisma `findMany`/`deleteMany` filter. */
  function Where<V>(m: map<Id, V>, p: V -> bool): (r: map<Id, V>)
    ensures forall k :: k in r <==> k in m && p(m[k])
    ensures forall k :: k in r ==> r[k] == m[k]
  {
    map k | k in m && p(m[k]) :: m[k]
  }

  /** What a relation does to the rows that refer to a deleted row: Prisma's
      `onDelete` referential actions. */
  datatype OnDelete = Cascade | Restrict | SetNull

  /** The referential actions of the three relations a delete reaches: a todo's
      group, a todo's category and a category's user. The schema is not part of
      this model, so they are a parameter. */
  datatype Relations = Relations(todoToGroup: OnDelete, todoToCategory: OnDelete, categoryToUser: OnDelete)
  {
    /** Prisma accepts SetNull only on an optional relation; of the three, only
        a todo's category is optional. */
    predicate Accepted()
    {
      todoToGroup != SetNull && categoryToUser != SetNull
    }
  }

  /** The todo refers to one of the categories in `gone`. */
  predicate RefersToCategory(t: Todo, gone: set<Id>)
  {
    t.categoryId.Some? && t.categoryId.value in gone
  }

  /** The todo table once the categories in `gone` are deleted: None when the
      relation restricts the delete and a todo refers to one of them; otherwise
      those todos are deleted (Cascade) or lose their category (SetNull), and no
      other todo changes. */
  function TodosAfterCategoryDelete(todos: map<Id, Todo>, gone: set<Id>, action: OnDelete): (r: Option<map<Id, Todo>>)
    ensures r.None? <==> action == Restrict && exists k :: k in todos && RefersToCategory(todos[k], gone)
    ensures r.Some? ==> forall k :: k in r.value ==> !RefersToCategory(r.value[k], gone)
    ensures r.Some? ==> forall k :: k in todos && !RefersToCategory(todos[k], gone) ==> k in r.value && r.value[k] == todos[k]
    ensures r.Some? ==> forall k :: k in r.value ==>
      k in todos && (r.value[k] == todos[k] || (action == SetNull && r.value[k] == todos[k].(categoryId := None)))
    ensures action == Cascade ==> r.Some? && forall k :: k in r.value <==> k in todos && !RefersToCategory(todos[k], gone)
    ensures action == SetNull ==> r.Some? && r.value.Keys == todos.Keys
  {
    match action
    case Restrict =>
      if exists k :: k in todos && RefersToCategory(todos[k], gone) then None else Some(todos)
    case Cascade =>
      Some(Where(todos, (t: Todo) => !RefersToCategory(t, gone)))
    case SetNull =>
      Some(map k | k in todos :: if RefersToCategory(todos[k], gone) then todos[k].(categoryId := None) else todos[k])
  }

  /** The todo table once the groups in `gone` are deleted: None when the
      relation restricts the delete and a todo is in one of them; otherwise
      exactly the todos in them are deleted. */
  function TodosAfterGroupDelete(todos: map<Id, Todo>, gone: set<Id>, action: OnDelete): (r: Option<map<Id, Todo>>)
    requires action != SetNull
    ensures r.None? <==> action == Restrict && exists k :: k in todos && todos[k].todoGroupId in gone
    ensures r.Some? ==> forall k :: k in r.value <==> k in todos && todos[k].todoGroupId !in gone
    ensures r.Some? ==> forall k :: k in r.value ==> r.value[k] == todos[k]
  {
    if action == Restrict then
      if exists k :: k in todos && todos[k].todoGroupId in gone then None else Some(todos)
    else
      Some(Where(todos, (t: Todo) => t.todoGroupId !in gone))
  }

  /** The ids of the groups of `uid`. */
  function GroupIdsOf(groups: map<Id, TodoGroup>, uid: Id): (ids: set<Id>)
    ensures forall k :: k in ids <==> k in groups && groups[k].userId == uid
  {
    set k | k in groups && groups[k].userId == uid
  }

  /** The ids of the categories of `uid`. */
  function CategoryIdsOf(categories: map<Id, Category>, uid: Id): (ids: set<Id>)
    ensures forall k :: k in ids <==> k in categories && categories[k].userId == uid
  {
    set k | k in categories && categories[k].userId == uid
  }

  /** `g` is a group of `uid` with the latest creation time: what
      `todoGroups: { orderBy: { createdAt: "desc" }, take: 1 }` returns. Rows with
      equal creation times are ordered arbitrarily, so any of them qualifies. */
  ghost predicate IsNewest(groups: map<Id, TodoGroup>, uid: Id, g: TodoGroup)
  {
    g.id in groups && groups[g.id] == g && g.userId == uid &&
    forall k :: k in groups && groups[k].userId == uid ==> groups[k].createdAt <= g.createdAt
  }

  /** The user owns no group at all. */
  ghost predicate NoGroupOf(groups: map<Id, TodoGroup>, uid: Id)
  {
    forall k :: k in groups ==> groups[k].userId != uid
  }

  /** The newest group of `uid`, or None when the user has none. */
  method NewestGroup(groups: map<Id, TodoGroup>, uid: Id) returns (newest: Option<TodoGroup>)
    requires KeyedById(groups, (g: TodoGroup) => g.id)
    ensures newest.None? <==> NoGroupOf(groups, uid)
    ensures newest.Some? ==> IsNewest(groups, uid, newest.value)
  {
    newest := None;
    var rest := groups.Keys;
    while rest != {}
      invariant rest <= groups.Keys
      invariant newest.None? ==> forall k :: k in groups.Keys - rest ==> groups[k].userId != uid
      invariant newest.Some? ==>
        newest.value.id in groups && groups[newest.value.id] == newest.value && newest.value.userId == uid &&
        forall k :: k in groups.Keys - rest && groups[k].userId == uid ==> groups[k].createdAt <= newest.value.createdAt
      decreases rest
    {
      var k :| k in rest;
      var g := groups[k];
      if g.userId == uid && (newest.None? || g.createdAt > newest.value.createdAt) {
        newest := Some(g);
      }
      rest := rest - {k};
    }
  }

  /** `findUnique({ where: { email } })` on the user table. */
  method FindUserByEmail(users: map<Id, User>, email: string) returns (found: Option<User>)
    requires KeyedById(users, (u: User) => u.id)
    ensures found.None? <==> forall k :: k in users ==> users[k].email != email
    ensures found.Some? ==> found.value.id in users && users[found.value.id] == found.value && found.value.email == email
  {
    found := None;
    var rest := users.Keys;
    while rest != {}
      invariant rest <= users.Keys
      invariant found.None? ==> forall k :: k in users.Keys - rest ==> users[k].email != email
      invariant found.Some? ==> found.value.id in users && users[found.value.id] == found.value && found.value.email == email
      decreases rest
    {
      var k :| k in rest;
      if users[k].email == email {
        found := Some(users[k]);
      }
      rest := rest - {k};
    }
  }

  /** The Prisma client: one table per model. */
  class Db {
    var users: map<Id, User>
    var groups: map<Id, TodoGroup>
    var todos: map<Id, Todo>
    var categories: map<Id, Category>

    /** Rows are stored under their ids and no two users share an email. */
    ghost predicate Valid()
      reads this
    {
      KeyedById(users, (u: User) => u.id) &&
      KeyedById(groups, (g: TodoGroup) => g.id) &&
      KeyedById(todos, (t: Todo) => t.id) &&
      KeyedById(categories, (c: Category) => c.id) &&
      forall a, b :: a in users && b in users && users[a].email == users[b].email ==> a == b
    }

    constructor ()
      ensures Valid()
      ensures users == map[] && groups == map[] && todos == map[] && categories == map[]
    {
      users, groups, todos, categories := map[], map[], map[], map[];
    }
  }
}
