/** The users controller (todopalm-server/src/api/v1/controllers/users.ts):
    the daily todo-group rollover of GET /users/me, the profile updates, account
    deletion and the three authentication endpoints. */
module UsersController {
  import opened Common
  import opened Store
  import opened JwtMiddleware

  // ---------------------------------------------------------------------------
  // Daily todo-group rollover
  // ---------------------------------------------------------------------------

  /** The group the store creates for `create({ data: { userId } })`: the schema
      defaults give status "active" and an unlocked group, stamped with the
      current time. */
  function NewGroup(id: Id, uid: Id, nowMs: int): (g: TodoGroup)
    ensures g.id == id && g.userId == uid && g.createdAt == nowMs
    ensures g.status == Active && !g.isLocked
  {
    TodoGroup(id, uid, nowMs, Active, false)
  }

  /** `updateMany({ where: { userId: uid, createdAt: { lt: now } }, data: { status: "inactive" } })` */
  function Retire(groups: map<Id, TodoGroup>, uid: Id, nowMs: int): (r: map<Id, TodoGroup>)
    ensures r.Keys == groups.Keys
    ensures forall k :: k in groups ==>
      r[k] == if groups[k].userId == uid && groups[k].createdAt < nowMs then groups[k].(status := Inactive) else groups[k]
  {
    map k | k in groups :: if groups[k].userId == uid && groups[k].createdAt < nowMs then groups[k].(status := Inactive) else groups[k]
  }

  /** The group table after a rollover for `uid`: older groups retired, a fresh
      active group added. */
  function Rollover(groups: map<Id, TodoGroup>, uid: Id, nowMs: int, freshId: Id): map<Id, TodoGroup>
  {
    Retire(groups, uid, nowMs)[freshId := NewGroup(freshId, uid, nowMs)]
  }

  /** The newest group of `uid` was created on the calendar day of `nowMs`.
      Groups tied for newest share their creation time, so they agree on this. */
  ghost predicate NewestIsToday(groups: map<Id, TodoGroup>, uid: Id, nowMs: int, dayOf: int -> int)
  {
    exists k :: k in groups && IsNewest(groups, uid, groups[k]) && dayOf(groups[k].createdAt) == dayOf(nowMs)
  }

  /** No group of `uid` was created after `nowMs`: the clock has not gone back. */
  ghost predicate NoFutureGroup(groups: map<Id, TodoGroup>, uid: Id, nowMs: int)
  {
    forall k :: k in groups && groups[k].userId == uid ==> groups[k].createdAt <= nowMs
  }

  /** The groups of `uid` whose status is active. */
  ghost function ActiveGroupsOf(groups: map<Id, TodoGroup>, uid: Id): set<Id>
  {
    set k | k in groups && groups[k].userId == uid && groups[k].status == Active
  }

  /** What a rollover writes: the fresh group is active, unlocked and stamped
      `nowMs`; every older group of `uid` is inactive; nothing else about any
      group changes, and other users' groups do not change at all. */
  lemma RolloverEffect(groups: map<Id, TodoGroup>, uid: Id, nowMs: int, freshId: Id)
    requires freshId !in groups
    ensures var post := Rollover(groups, uid, nowMs, freshId);
      && post.Keys == groups.Keys + {freshId}
      && post[freshId] == TodoGroup(freshId, uid, nowMs, Active, false)
      && (forall k :: k in groups && groups[k].userId != uid ==> post[k] == groups[k])
      && (forall k :: k in groups && groups[k].userId == uid && groups[k].createdAt < nowMs ==>
            post[k] == groups[k].(status := Inactive))
      && (forall k :: k in groups && groups[k].createdAt >= nowMs ==> post[k] == groups[k])
  {
  }

  /** When the clock has not gone back and the newest group is not from today,
      every group of the user is older than now; after the rollover the fresh
      group is the user's only active group and the only newest one. */
  lemma {:induction false} RolloverLeavesOneActiveGroup(
    groups: map<Id, TodoGroup>, uid: Id, nowMs: int, dayOf: int -> int, freshId: Id)
    requires KeyedById(groups, (g: TodoGroup) => g.id)
    requires freshId !in groups
    requires NoFutureGroup(groups, uid, nowMs)
    requires !NewestIsToday(groups, uid, nowMs, dayOf)
    ensures var post := Rollover(groups, uid, nowMs, freshId);
      && ActiveGroupsOf(post, uid) == {freshId}
      && (forall g :: IsNewest(post, uid, g) ==> g == post[freshId])
      && IsNewest(post, uid, post[freshId])
  {
    var post := Rollover(groups, uid, nowMs, freshId);
    forall k | k in groups && groups[k].userId == uid
      ensures groups[k].createdAt < nowMs
    {
      if groups[k].createdAt == nowMs {
        assert IsNewest(groups, uid, groups[k]);
        assert false;
      }
    }
    assert ActiveGroupsOf(post, uid) == {freshId};
    forall g | IsNewest(post, uid, g)
      ensures g == post[freshId]
    {
      assert post[freshId].createdAt <= g.createdAt;
    }
  }

  /** A rollover makes the next call on the same calendar day a hit: the newest
      group is then from today, and it is the group just created. */
  lemma {:induction false} SameDayAfterRollover(
    groups: map<Id, TodoGroup>, uid: Id, nowMs: int, laterMs: int, dayOf: int -> int, freshId: Id)
    requires KeyedById(groups, (g: TodoGroup) => g.id)
    requires freshId !in groups
    requires NoFutureGroup(groups, uid, nowMs)
    requires !NewestIsToday(groups, uid, nowMs, dayOf)
    requires dayOf(laterMs) == dayOf(nowMs)
    ensures var post := Rollover(groups, uid, nowMs, freshId);
      NewestIsToday(post, uid, laterMs, dayOf) &&
      forall g :: IsNewest(post, uid, g) ==> g.id == freshId
  {
    RolloverLeavesOneActiveGroup(groups, uid, nowMs, dayOf, freshId);
    var post := Rollover(groups, uid, nowMs, freshId);
    assert IsNewest(post, uid, post[freshId]);
  }

  /** Whether the newest group is from today is decided by any one newest group. */
  lemma NewestDecidesToday(groups: map<Id, TodoGroup>, uid: Id, nowMs: int, dayOf: int -> int, g: TodoGroup)
    requires IsNewest(groups, uid, g)
    ensures NewestIsToday(groups, uid, nowMs, dayOf) <==> dayOf(g.createdAt) == dayOf(nowMs)
  {
    if NewestIsToday(groups, uid, nowMs, dayOf) {
      var k :| k in groups && IsNewest(groups, uid, groups[k]) && dayOf(groups[k].createdAt) == dayOf(nowMs);
      assert groups[k].createdAt == g.createdAt;
    }
    if dayOf(g.createdAt) == dayOf(nowMs) {
      assert IsNewest(groups, uid, groups[g.id]);
    }
  }

  /** A user without groups has no group from today. */
  lemma NoGroupIsNotToday(groups: map<Id, TodoGroup>, uid: Id, nowMs: int, dayOf: int -> int)
    requires NoGroupOf(groups, uid)
    ensures !NewestIsToday(groups, uid, nowMs, dayOf)
  {
  }

  /** The user fields getMe's `select` picks: every column but the password hash. */
  datatype MeProfile = MeProfile(
    id: Id, name: Option<string>, email: string, occupation: Option<string>,
    additionalInfo: Option<string>, imageUrl: Option<string>, theme: string)

  function Selected(u: User): MeProfile
  {
    MeProfile(u.id, u.name, u.email, u.occupation, u.additionalInfo, u.imageUrl, u.theme)
  }

  /** A group with its todos, as `include: { todos: true }` returns it. */
  datatype GroupWithTodos = GroupWithTodos(group: TodoGroup, todos: map<Id, Todo>)

  /** A todo with its category row, as `include: { category: true }` returns it. */
  datatype TodoWithCategory = TodoWithCategory(todo: Todo, category: Option<Category>)

  function WithCategory(t: Todo, categories: map<Id, Category>): TodoWithCategory
  {
    TodoWithCategory(t, if t.categoryId.Some? && t.categoryId.value in categories then Some(categories[t.categoryId.value]) else None)
  }

  /** The body of a successful GET /users/me: the selected profile, the newest
      group as it was read before any rollover (at most one, with its todos), the
      user's categories, today's group and its todos with their categories. */
  datatype Me = Me(
    profile: MeProfile, todoGroups: seq<GroupWithTodos>, categories: map<Id, Category>,
    todaysTodoGroup: TodoGroup, todaysTodos: map<Id, TodoWithCategory>)

  /** getMe for the authenticated user `uid` at time `nowMs`. The store assigns
      `freshGroupId` to a group it creates; `dayOf` gives the calendar day of an
      instant (`toDateString()` in the server's time zone). */
  method GetMe(db: Db, uid: Id, nowMs: int, dayOf: int -> int, freshGroupId: Id) returns (r: Reply<Me>)
    requires db.Valid()
    requires freshGroupId !in db.groups
    modifies db
    ensures db.Valid()
    ensures db.users == old(db.users) && db.todos == old(db.todos) && db.categories == old(db.categories)
    // The newest group is from today: nothing is written and that group is returned.
    ensures uid in old(db.users) && NewestIsToday(old(db.groups), uid, nowMs, dayOf) ==>
      && db.groups == old(db.groups)
      && r.Json? && r.status == 200
      && IsNewest(old(db.groups), uid, r.value.todaysTodoGroup)
      && dayOf(r.value.todaysTodoGroup.createdAt) == dayOf(nowMs)
    // Otherwise the user's older groups are retired and a fresh group is created and returned.
    ensures uid in old(db.users) && !NewestIsToday(old(db.groups), uid, nowMs, dayOf) ==>
      && db.groups == Rollover(old(db.groups), uid, nowMs, freshGroupId)
      && r.Json? && r.status == 200
      && r.value.todaysTodoGroup == NewGroup(freshGroupId, uid, nowMs)
    // An unknown user: the retirement runs, the create fails on its foreign key, 500.
    ensures uid !in old(db.users) ==>
      db.groups == Retire(old(db.groups), uid, nowMs) && r == Message(500, SOMETHING_WENT_WRONG)
    ensures r.Json? ==>
      && uid in db.users
      && r.value.profile == Selected(db.users[uid])
      && r.value.todaysTodoGroup.id in db.groups && db.groups[r.value.todaysTodoGroup.id] == r.value.todaysTodoGroup
      && r.value.categories == Where(db.categories, (c: Category) => c.userId == uid)
      && (forall k :: k in r.value.todaysTodos <==> k in db.todos && db.todos[k].todoGroupId == r.value.todaysTodoGroup.id)
      && (forall k :: k in r.value.todaysTodos ==> r.value.todaysTodos[k] == WithCategory(db.todos[k], db.categories))
    // `todoGroups` is the newest group as read before the rollover: none exactly
    // when the user had no group, and after a rollover not today's group.
    ensures r.Json? ==>
      && |r.value.todoGroups| <= 1
      && (r.value.todoGroups == [] <==> NoGroupOf(old(db.groups), uid))
      && (r.value.todoGroups != [] ==>
            && IsNewest(old(db.groups), uid, r.value.todoGroups[0].group)
            && r.value.todoGroups[0].todos == Where(db.todos, (t: Todo) => t.todoGroupId == r.value.todoGroups[0].group.id)
            && (NewestIsToday(old(db.groups), uid, nowMs, dayOf) <==> r.value.todoGroups[0].group == r.value.todaysTodoGroup))
  {
    var newest: Option<TodoGroup> := None;
    if uid in db.users {
      newest := NewestGroup(db.groups, uid);
    }
    var isSameDay := newest.Some? && dayOf(newest.value.createdAt) == dayOf(nowMs);
    if newest.Some? {
      NewestDecidesToday(db.groups, uid, nowMs, dayOf, newest.value);
    } else if uid in db.users {
      NoGroupIsNotToday(db.groups, uid, nowMs, dayOf);
    }
    assert uid in db.users ==> (isSameDay <==> NewestIsToday(db.groups, uid, nowMs, dayOf));
    var todaysTodoGroup: TodoGroup;
    if !isSameDay {
      db.groups := Retire(db.groups, uid, nowMs);
      if uid !in db.users {
        return Message(500, SOMETHING_WENT_WRONG);
      }
      todaysTodoGroup := NewGroup(freshGroupId, uid, nowMs);
      db.groups := db.groups[freshGroupId := todaysTodoGroup];
    } else {
      todaysTodoGroup := newest.value;
    }
    var todoGroups: seq<GroupWithTodos> := [];
    if newest.Some? {
      var ngid := newest.value.id;
      todoGroups := [GroupWithTodos(newest.value, Where(db.todos, (t: Todo) => t.todoGroupId == ngid))];
    }
    var gid := todaysTodoGroup.id;
    var cats := db.categories;
    var todaysTodos := map k | k in db.todos && db.todos[k].todoGroupId == gid :: WithCategory(db.todos[k], cats);
    var categories := Where(db.categories, (c: Category) => c.userId == uid);
    r := Json(200, Me(Selected(db.users[uid]), todoGroups, categories, todaysTodoGroup, todaysTodos));
  }

  /** Two calls of GET /users/me on the same calendar day: the second one writes
      nothing and returns the group the first one rolled over to. */
  method GetMeTwiceAfterRollover(
    db: Db, uid: Id, nowMs: int, laterMs: int, dayOf: int -> int, freshId: Id, otherFreshId: Id)
    returns (first: Reply<Me>, second: Reply<Me>)
    requires db.Valid()
    requires uid in db.users
    requires freshId !in db.groups && otherFreshId != freshId && otherFreshId !in db.groups
    requires NoFutureGroup(db.groups, uid, nowMs)
    requires !NewestIsToday(db.groups, uid, nowMs, dayOf)
    requires dayOf(laterMs) == dayOf(nowMs)
    modifies db
    ensures first.Json? && second.Json?
    ensures first.value.todaysTodoGroup.id == second.value.todaysTodoGroup.id == freshId
    ensures db.groups == Rollover(old(db.groups), uid, nowMs, freshId)
    ensures db.users == old(db.users) && db.todos == old(db.todos) && db.categories == old(db.categories)
    // The second call writes nothing: the table is the one the first call left.
    ensures second.value.todaysTodoGroup == first.value.todaysTodoGroup
  {
    ghost var before := db.groups;
    first := GetMe(db, uid, nowMs, dayOf, freshId);
    SameDayAfterRollover(before, uid, nowMs, laterMs, dayOf, freshId);
    ghost var after := db.groups;
    second := GetMe(db, uid, laterMs, dayOf, otherFreshId);
    assert db.groups == after;
  }

  // ---------------------------------------------------------------------------
  // Profile updates and account deletion
  // ---------------------------------------------------------------------------

  /** The fields the profile endpoints answer with. */
  datatype Profile = Profile(email: string, name: Option<string>, imageUrl: Option<string>, id: Id)
  datatype BasicInfo = BasicInfo(email: string, name: Option<string>, imageUrl: Option<string>, id: Id, occupation: Option<string>)

  /** Prisma's `update` leaves a field alone when its value is `undefined` (None). */
  function SetIfGiven<T>(old_: T, given: Option<T>): (v: T)
    ensures given.Some? ==> v == given.value
    ensures given.None? ==> v == old_
  {
    if given.Some? then given.value else old_
  }

  /** updateBasicInfo: sets the occupation of the requesting user. */
  method UpdateBasicInfo(db: Db, uid: Id, occupation: Option<Option<string>>) returns (r: Reply<BasicInfo>)
    requires db.Valid()
    modifies db
    ensures db.Valid()
    ensures db.groups == old(db.groups) && db.todos == old(db.todos) && db.categories == old(db.categories)
    ensures uid !in old(db.users) ==> db.users == old(db.users) && r == Message(500, SOMETHING_WENT_WRONG)
    ensures uid in old(db.users) ==>
      var u := old(db.users)[uid].(occupation := SetIfGiven(old(db.users)[uid].occupation, occupation));
      db.users == old(db.users)[uid := u] && r == Json(200, BasicInfo(u.email, u.name, u.imageUrl, u.id, u.occupation))
  {
    if uid !in db.users {
      return Message(500, SOMETHING_WENT_WRONG);
    }
    var u := db.users[uid].(occupation := SetIfGiven(db.users[uid].occupation, occupation));
    db.users := db.users[uid := u];
    r := Json(200, BasicInfo(u.email, u.name, u.imageUrl, u.id, u.occupation));
  }

  /** setTheme: sets the theme of the requesting user. */
  method SetTheme(db: Db, uid: Id, theme: Option<string>) returns (r: Reply<Profile>)
    requires db.Valid()
    modifies db
    ensures db.Valid()
    ensures db.groups == old(db.groups) && db.todos == old(db.todos) && db.categories == old(db.categories)
    ensures uid !in old(db.users) ==> db.users == old(db.users) && r == Message(500, SOMETHING_WENT_WRONG)
    ensures uid in old(db.users) ==>
      var u := old(db.users)[uid].(theme := SetIfGiven(old(db.users)[uid].theme, theme));
      db.users == old(db.users)[uid := u] && r == Json(200, Profile(u.email, u.name, u.imageUrl, u.id))
  {
    if uid !in db.users {
      return Message(500, SOMETHING_WENT_WRONG);
    }
    var u := db.users[uid].(theme := SetIfGiven(db.users[uid].theme, theme));
    db.users := db.users[uid := u];
    r := Json(200, Profile(u.email, u.name, u.imageUrl, u.id));
  }

  /** updateUser: sets name, email and image of the requesting user; an email
      already used by another account violates the unique constraint (500). */
  method UpdateUser(db: Db, uid: Id, name: Option<Option<string>>, email: Option<string>, imageUrl: Option<Option<string>>)
    returns (r: Reply<Profile>)
    requires db.Valid()
    modifies db
    ensures db.Valid()
    ensures db.groups == old(db.groups) && db.todos == old(db.todos) && db.categories == old(db.categories)
    ensures r.Json? <==>
      uid in old(db.users) &&
      (email.Some? ==> forall k :: k in old(db.users) && k != uid ==> old(db.users)[k].email != email.value)
    ensures !r.Json? ==> db.users == old(db.users) && r == Message(500, SOMETHING_WENT_WRONG)
    ensures r.Json? ==>
      var o := old(db.users)[uid];
      var u := o.(name := SetIfGiven(o.name, name), email := SetIfGiven(o.email, email), imageUrl := SetIfGiven(o.imageUrl, imageUrl));
      db.users == old(db.users)[uid := u] && r == Json(200, Profile(u.email, u.name, u.imageUrl, u.id))
  {
    if uid !in db.users {
      return Message(500, SOMETHING_WENT_WRONG);
    }
    if email.Some? {
      var holder := FindUserByEmail(db.users, email.value);
      if holder.Some? && holder.value.id != uid {
        return Message(500, SOMETHING_WENT_WRONG);
      }
    }
    var o := db.users[uid];
    var u := o.(name := SetIfGiven(o.name, name), email := SetIfGiven(o.email, email), imageUrl := SetIfGiven(o.imageUrl, imageUrl));
    db.users := db.users[uid := u];
    r := Json(200, Profile(u.email, u.name, u.imageUrl, u.id));
  }

  /** deleteAccount, three statements that are not a transaction:
      1. delete the user's groups; a restricting todo-to-group relation with a
         todo in one of them makes this throw before anything is written, a
         cascading one deletes the todos in them;
      2. delete the user's todos;
      3. delete the user; an unknown user throws, and so does a user who still
         owns categories when that relation restricts; a cascading one deletes
         those categories, taking the todo-to-category action on the todos that
         refer to them (which may restrict and throw in turn).
      A throw answers 500 and leaves what the earlier statements wrote. */
  method DeleteAccount(db: Db, uid: Id, rel: Relations) returns (r: Reply<()>)
    requires db.Valid() && rel.Accepted()
    modifies db
    ensures db.Valid()
    // Statement 1 refused: nothing is written.
    ensures TodosAfterGroupDelete(old(db.todos), GroupIdsOf(old(db.groups), uid), rel.todoToGroup).None? ==>
      && db.users == old(db.users) && db.groups == old(db.groups)
      && db.todos == old(db.todos) && db.categories == old(db.categories)
      && r == Message(500, SOMETHING_WENT_WRONG)
    // Statements 1 and 2 done: the user's groups, the todos in them and the user's todos are gone.
    ensures TodosAfterGroupDelete(old(db.todos), GroupIdsOf(old(db.groups), uid), rel.todoToGroup).Some? ==>
      var afterTodos := Where(TodosAfterGroupDelete(old(db.todos), GroupIdsOf(old(db.groups), uid), rel.todoToGroup).value,
                              (t: Todo) => t.userId != uid);
      && db.groups == Where(old(db.groups), (g: TodoGroup) => g.userId != uid)
      && (uid !in old(db.users) ==>
            db.users == old(db.users) && db.todos == afterTodos && db.categories == old(db.categories) &&
            r == Message(500, SOMETHING_WENT_WRONG))
      && (uid in old(db.users) && rel.categoryToUser == Restrict && CategoryIdsOf(old(db.categories), uid) != {} ==>
            db.users == old(db.users) && db.todos == afterTodos && db.categories == old(db.categories) &&
            r == Message(500, SOMETHING_WENT_WRONG))
      && (uid in old(db.users) && !(rel.categoryToUser == Restrict && CategoryIdsOf(old(db.categories), uid) != {}) ==>
            var cut := TodosAfterCategoryDelete(afterTodos, CategoryIdsOf(old(db.categories), uid), rel.todoToCategory);
            && (cut.None? ==>
                  db.users == old(db.users) && db.todos == afterTodos && db.categories == old(db.categories) &&
                  r == Message(500, SOMETHING_WENT_WRONG))
            && (cut.Some? ==>
                  db.users == old(db.users) - {uid} && db.todos == cut.value &&
                  db.categories == Where(old(db.categories), (c: Category) => c.userId != uid) &&
                  r == Message(200, "Account deleted")))
    // A deleted account leaves no row that refers to it.
    ensures r == Message(200, "Account deleted") ==>
      && uid in old(db.users) && uid !in db.users
      && (forall k :: k in db.groups ==> db.groups[k].userId != uid)
      && (forall k :: k in db.todos ==> db.todos[k].userId != uid && db.todos[k].todoGroupId !in GroupIdsOf(old(db.groups), uid))
      && (forall k :: k in db.categories ==> db.categories[k].userId != uid)
      && (forall k :: k in db.todos ==> !RefersToCategory(db.todos[k], CategoryIdsOf(old(db.categories), uid)))
  {
    var goneGroups := GroupIdsOf(db.groups, uid);
    var step1 := TodosAfterGroupDelete(db.todos, goneGroups, rel.todoToGroup);
    if step1.None? {
      return Message(500, SOMETHING_WENT_WRONG);
    }
    db.groups := Where(db.groups, (g: TodoGroup) => g.userId != uid);
    db.todos := Where(step1.value, (t: Todo) => t.userId != uid);
    r := DeleteUserRow(db, uid, rel);
  }

  /** The third statement of deleteAccount: `user.delete({ where: { id } })`
      under the referential actions of the user's categories and of the todos
      that refer to them. */
  method DeleteUserRow(db: Db, uid: Id, rel: Relations) returns (r: Reply<()>)
    requires db.Valid() && rel.Accepted()
    modifies db
    ensures db.Valid()
    ensures db.groups == old(db.groups)
    ensures uid !in old(db.users) || (rel.categoryToUser == Restrict && CategoryIdsOf(old(db.categories), uid) != {}) ==>
      db.users == old(db.users) && db.todos == old(db.todos) && db.categories == old(db.categories) &&
      r == Message(500, SOMETHING_WENT_WRONG)
    ensures uid in old(db.users) && !(rel.categoryToUser == Restrict && CategoryIdsOf(old(db.categories), uid) != {}) ==>
      var cut := TodosAfterCategoryDelete(old(db.todos), CategoryIdsOf(old(db.categories), uid), rel.todoToCategory);
      && (cut.None? ==>
            db.users == old(db.users) && db.todos == old(db.todos) && db.categories == old(db.categories) &&
            r == Message(500, SOMETHING_WENT_WRONG))
      && (cut.Some? ==>
            db.users == old(db.users) - {uid} && db.todos == cut.value &&
            db.categories == Where(old(db.categories), (c: Category) => c.userId != uid) &&
            r == Message(200, "Account deleted"))
  {
    if uid !in db.users {
      return Message(500, SOMETHING_WENT_WRONG);
    }
    var goneCategories := CategoryIdsOf(db.categories, uid);
    if rel.categoryToUser == Restrict && goneCategories != {} {
      return Message(500, SOMETHING_WENT_WRONG);
    }
    var cut := TodosAfterCategoryDelete(db.todos, goneCategories, rel.todoToCategory);
    if cut.None? {
      return Message(500, SOMETHING_WENT_WRONG);
    }
    assert forall k :: k in cut.value ==> cut.value[k].id == db.todos[k].id;
    db.todos := cut.value;
    db.categories := Where(db.categories, (c: Category) => c.userId != uid);
    db.users := db.users - {uid};
    r := Message(200, "Account deleted");
  }

  // ---------------------------------------------------------------------------
  // Authentication endpoints
  // ---------------------------------------------------------------------------

  /** The body of a successful login: a token pair for the user and the user's id. */
  datatype Session = Session(accessToken: Token, expiresAt: int, refreshToken: Token, id: Id)

  /** The token pair and id issued for `userId` at `nowMs`. */
  function Issue(secrets: Secrets, userId: Id, nowMs: int): (s: Session)
    ensures s.id == s.accessToken.sub == s.refreshToken.sub == userId
    ensures s.accessToken.kind == Access && s.refreshToken.kind == Refresh
    ensures s.expiresAt == s.accessToken.exp
  {
    var g := GenerateAccessToken(secrets, userId, nowMs);
    Session(g.token, g.expiresAt, GenerateRefreshToken(secrets, userId, nowMs), userId)
  }

  /** login: registers an unknown email (storing `hashed`, the bcrypt hash of
      `password`) and issues tokens; otherwise checks the password with
      `compare` (bcrypt.compare). */
  method Login(
    db: Db, secrets: Secrets, email: string, password: string, name: Option<string>,
    hashed: string, compare: (string, string) -> bool, nowMs: int, freshUserId: Id)
    returns (r: Reply<Session>)
    requires db.Valid()
    requires freshUserId !in db.users
    modifies db
    ensures db.Valid()
    ensures db.groups == old(db.groups) && db.todos == old(db.todos) && db.categories == old(db.categories)
    // Unknown email: the account is created, then tokens are issued for it.
    ensures (forall k :: k in old(db.users) ==> old(db.users)[k].email != email) ==>
      && db.users == old(db.users)[freshUserId := User(freshUserId, email, name, Some(hashed), None, None, None, "default")]
      && r == Json(200, Issue(secrets, freshUserId, nowMs))
    // Known email: nothing is written, and the answer depends on the stored password.
    ensures (exists k :: k in old(db.users) && old(db.users)[k].email == email) ==>
      && db.users == old(db.users)
      && exists k :: k in old(db.users) && old(db.users)[k].email == email && (
           var u := old(db.users)[k];
           r == if !Truthy(u.password) then Message(404, "User not found")
                else if !compare(password, u.password.value) then Message(401, "Invalid password")
                else Json(200, Issue(secrets, u.id, nowMs)))
  {
    var user := FindUserByEmail(db.users, email);
    if user.None? {
      var newUser := User(freshUserId, email, name, Some(hashed), None, None, None, "default");
      db.users := db.users[freshUserId := newUser];
      return Json(200, Issue(secrets, newUser.id, nowMs));
    }
    var u := user.value;
    if !Truthy(u.password) {
      return Message(404, "User not found");
    }
    if !compare(password, u.password.value) {
      return Message(401, "Invalid password");
    }
    r := Json(200, Issue(secrets, u.id, nowMs));
  }

  /** googleLogin: finds the account by email or creates it without a password,
      then issues tokens for it. */
  method GoogleLogin(
    db: Db, secrets: Secrets, email: string, name: Option<string>, imageUrl: Option<string>, nowMs: int, freshUserId: Id)
    returns (r: Reply<Session>)
    requires db.Valid()
    requires freshUserId !in db.users
    modifies db
    ensures db.Valid()
    ensures db.groups == old(db.groups) && db.todos == old(db.todos) && db.categories == old(db.categories)
    ensures (forall k :: k in old(db.users) ==> old(db.users)[k].email != email) ==>
      && db.users == old(db.users)[freshUserId := User(freshUserId, email, name, None, None, None, imageUrl, "default")]
      && r == Json(200, Issue(secrets, freshUserId, nowMs))
    ensures (exists k :: k in old(db.users) && old(db.users)[k].email == email) ==>
      && db.users == old(db.users)
      && exists k :: k in old(db.users) && old(db.users)[k].email == email && r == Json(200, Issue(secrets, k, nowMs))
  {
    var user := FindUserByEmail(db.users, email);
    if user.None? {
      var newUser := User(freshUserId, email, name, None, None, None, imageUrl, "default");
      db.users := db.users[freshUserId := newUser];
      return Json(200, Issue(secrets, newUser.id, nowMs));
    }
    r := Json(200, Issue(secrets, user.value.id, nowMs));
  }

  /** The body of a successful refresh: a new token pair. */
  datatype Rotation = Rotation(accessToken: Token, expiresAt: int, refreshToken: Token)

  /** refreshToken: `body` is `req.body.token`. A falsy token is refused with
      400; one that does not verify under the refresh secret with 403; otherwise
      a new access token and a new refresh token are issued for its subject. */
  function RefreshToken(codec: Codec, secrets: Secrets, body: Option<string>, nowMs: int): (r: Reply<Rotation>)
    ensures !Truthy(body) ==> r == Message(400, "No token provided")
    ensures Truthy(body) && Verify(codec, body.value, secrets.refresh, EpochSeconds(nowMs)).None? ==>
      r == Message(403, "Invalid refresh token")
    ensures Truthy(body) && Verify(codec, body.value, secrets.refresh, EpochSeconds(nowMs)).Some? ==>
      var sub := Verify(codec, body.value, secrets.refresh, EpochSeconds(nowMs)).value;
      && r.Json? && r.status == 200
      && r.value.accessToken.sub == sub && r.value.refreshToken.sub == sub
      && r.value.accessToken.secret == secrets.access && r.value.refreshToken.secret == secrets.refresh
      && r.value.expiresAt == r.value.accessToken.exp
  {
    if !Truthy(body) then Message(400, "No token provided")
    else
      match Verify(codec, body.value, secrets.refresh, EpochSeconds(nowMs))
      case None => Message(403, "Invalid refresh token")
      case Some(sub) =>
        var g := GenerateAccessToken(secrets, sub, nowMs);
        Json(200, Rotation(g.token, g.expiresAt, GenerateRefreshToken(secrets, sub, nowMs)))
  }

  /** A refresh token issued at `issuedMs` and presented before it expires is
      exchanged for a pair whose access token passes the gate as the same user. */
  lemma RotateIssuedRefreshToken(codec: Codec, secrets: Secrets, uid: Id, issuedMs: int, nowMs: int, path: string)
    requires WellFormed(codec)
    requires EpochSeconds(nowMs) < EpochSeconds(issuedMs) + REFRESH_LIFETIME
    requires path !in EXCLUDED_PATHS
    ensures var r := RefreshToken(codec, secrets, Some(codec.encode(GenerateRefreshToken(secrets, uid, issuedMs))), nowMs);
      && r.Json?
      && r.value.refreshToken == GenerateRefreshToken(secrets, uid, nowMs)
      && Authenticate(codec, secrets, path, Some("Bearer " + codec.encode(r.value.accessToken)), EpochSeconds(nowMs))
           == Next(Some(Principal(uid)))
  {
    var t := GenerateRefreshToken(secrets, uid, issuedMs);
    assert codec.decode(codec.encode(t)) == Some(t);
    assert codec.encode(t) != "";
    GateOnIssuedTokens(codec, secrets, path, uid, nowMs);
  }

  /** Rotation does not always give a different refresh token: within the second
      in which a refresh token was issued, the token issued in exchange for it
      carries the same claims and secret, so it is the same token. */
  lemma RotationWithinSameSecondRepeatsToken(codec: Codec, secrets: Secrets, uid: Id, issuedMs: int, nowMs: int)
    requires WellFormed(codec)
    requires EpochSeconds(nowMs) == EpochSeconds(issuedMs)
    ensures var old_ := GenerateRefreshToken(secrets, uid, issuedMs);
      RefreshToken(codec, secrets, Some(codec.encode(old_)), nowMs).value.refreshToken == old_
  {
    var t := GenerateRefreshToken(secrets, uid, issuedMs);
    assert codec.decode(codec.encode(t)) == Some(t);
    assert codec.encode(t) != "";
  }

  /** An access token is not accepted by the refresh endpoint while the two
      secrets differ. */
  lemma RefreshRejectsAccessToken(codec: Codec, secrets: Secrets, uid: Id, issuedMs: int, nowMs: int)
    requires WellFormed(codec)
    requires secrets.access != secrets.refresh
    ensures var a := GenerateAccessToken(secrets, uid, issuedMs).token;
      RefreshToken(codec, secrets, Some(codec.encode(a)), nowMs) == Message(403, "Invalid refresh token")
  {
    var a := GenerateAccessToken(secrets, uid, issuedMs).token;
    assert codec.decode(codec.encode(a)) == Some(a);
    assert codec.encode(a) != "";
  }
}
