/** The categories controller (todopalm-server/src/api/v1/controllers/categories.ts). */
module CategoriesController {
  import opened Common
  import opened Store

  /** One element of the request's `categories` array. The handler spreads it
      into the row, so an `id` it carries becomes the row's id; a `userId` it
      carries is overwritten. */
  datatype CategoryInput = CategoryInput(id: Option<Id>, name: string, icon: string, userId: Option<Id>)

  /** `createMany`'s answer: how many rows were inserted. */
  datatype BatchPayload = BatchPayload(count: nat)

  /** getCategories: the requester's categories and no other. */
  function GetCategories(db: Db, uid: Id): (r: Reply<map<Id, Category>>)
    reads db
    ensures r.Json? && r.status == 200
    ensures forall k :: k in r.value ==> k in db.categories && r.value[k] == db.categories[k] && r.value[k].userId == uid
    ensures forall k :: k in db.categories && db.categories[k].userId == uid ==> k in r.value
  {
    Json(200, Where(db.categories, (c: Category) => c.userId == uid))
  }

  /** getCategory: the row, or 404 when no category has that id. */
  function GetCategory(db: Db, id: Id): (r: Reply<Category>)
    reads db
    ensures id !in db.categories <==> r == ErrorBody(404, "Category not found")
    ensures id in db.categories ==> r == Json(200, db.categories[id])
  {
    if id !in db.categories then ErrorBody(404, "Category not found") else Json(200, db.categories[id])
  }

  /** The rows `categories.map(c => ({ ...c, userId: id }))` describes, with the
      ids the store assigns: because `userId` is written after the spread, every
      row belongs to the requester whatever the input said. */
  function CategoryRows(inputs: seq<CategoryInput>, uid: Id, ids: seq<Id>): (rows: seq<Category>)
    requires |ids| == |inputs|
    ensures |rows| == |inputs|
    ensures forall i :: 0 <= i < |rows| ==>
      rows[i].id == ids[i] && rows[i].userId == uid && rows[i].name == inputs[i].name && rows[i].icon == inputs[i].icon
  {
    seq(|inputs|, i requires 0 <= i < |inputs| => Category(ids[i], uid, inputs[i].name, inputs[i].icon))
  }

  /** `table` with `rows` inserted in order. */
  function InsertAll(table: map<Id, Category>, rows: seq<Category>): map<Id, Category>
  {
    if rows == [] then table else InsertAll(table, rows[..|rows| - 1])[rows[|rows| - 1].id := rows[|rows| - 1]]
  }

  /** The ids of `rows`, in order. */
  function Ids(rows: seq<Category>): (ids: seq<Id>)
    ensures |ids| == |rows| && forall i :: 0 <= i < |rows| ==> ids[i] == rows[i].id
  {
    seq(|rows|, i requires 0 <= i < |rows| => rows[i].id)
  }

  /** After the inserts the table holds the old keys and the ids of the rows. */
  lemma {:induction false} InsertAllKeys(table: map<Id, Category>, rows: seq<Category>)
    ensures forall k :: k in InsertAll(table, rows) <==> k in table || k in Ids(rows)
  {
    if rows != [] {
      var init := rows[..|rows| - 1];
      InsertAllKeys(table, init);
      assert Ids(rows) == Ids(init) + [rows[|rows| - 1].id];
    }
  }

  /** Inserting rows with distinct ids that are not yet in the table keeps every
      existing row and stores each new row under its id. */
  lemma {:induction false} InsertAllValues(table: map<Id, Category>, rows: seq<Category>)
    requires forall i, j :: 0 <= i < j < |rows| ==> rows[i].id != rows[j].id
    requires forall i :: 0 <= i < |rows| ==> rows[i].id !in table
    ensures forall k :: k in table ==> k in InsertAll(table, rows) && InsertAll(table, rows)[k] == table[k]
    ensures forall i :: 0 <= i < |rows| ==> rows[i].id in InsertAll(table, rows) && InsertAll(table, rows)[rows[i].id] == rows[i]
  {
    if rows != [] {
      var init := rows[..|rows| - 1];
      InsertAllValues(table, init);
      forall i | 0 <= i < |rows|
        ensures rows[i].id in InsertAll(table, rows) && InsertAll(table, rows)[rows[i].id] == rows[i]
      {
        if i < |init| { assert init[i] == rows[i]; }
      }
    }
  }

  /** The id each row gets: the one the input element carries, else the one the
      store assigns. */
  function RowIds(inputs: seq<CategoryInput>, freshIds: seq<Id>): (ids: seq<Id>)
    requires |freshIds| == |inputs|
    ensures |ids| == |inputs|
    ensures forall i :: 0 <= i < |ids| ==> ids[i] == if inputs[i].id.Some? then inputs[i].id.value else freshIds[i]
  {
    seq(|inputs|, i requires 0 <= i < |inputs| => if inputs[i].id.Some? then inputs[i].id.value else freshIds[i])
  }

  /** No two of the ids are equal and none is already a key of the table: the
      unique constraint on the primary key lets the batch through. */
  predicate Insertable(table: map<Id, Category>, ids: seq<Id>)
  {
    (forall i, j :: 0 <= i < j < |ids| ==> ids[i] != ids[j]) &&
    forall i :: 0 <= i < |ids| ==> ids[i] !in table
  }

  /** createCategories: inserts one row per input element, all owned by the
      requester, and answers 201 with the count. A body without a `categories`
      array makes `map` throw; a non-empty batch for a requester without a user
      row fails the foreign key (an empty one writes no row, so nothing is
      checked and the answer is 201 with count 0); an id given twice or already
      taken fails the primary key. `createMany`
      is a single statement, so a failure inserts nothing. `freshIds` are the ids
      the store would generate: new, distinct, and unlike any id a client sent. */
  method CreateCategories(db: Db, uid: Id, body: Option<seq<CategoryInput>>, freshIds: seq<Id>)
    returns (r: Reply<BatchPayload>)
    requires db.Valid()
    requires body.Some? ==> |freshIds| == |body.value|
    requires body.Some? ==> forall i, j :: 0 <= i < |freshIds| && 0 <= j < |body.value| ==> body.value[j].id != Some(freshIds[i])
    requires Insertable(db.categories, freshIds)
    modifies db
    ensures db.Valid()
    ensures db.users == old(db.users) && db.groups == old(db.groups) && db.todos == old(db.todos)
    ensures body.None? || (|body.value| > 0 && uid !in old(db.users)) ||
            !Insertable(old(db.categories), RowIds(body.value, freshIds)) ==>
      db.categories == old(db.categories) && r == ErrorBody(500, SOMETHING_WENT_WRONG)
    ensures body == Some([]) ==> db.categories == old(db.categories) && r == Json(201, BatchPayload(0))
    ensures body.Some? && (|body.value| == 0 || uid in old(db.users)) &&
            Insertable(old(db.categories), RowIds(body.value, freshIds)) ==>
      var ids := RowIds(body.value, freshIds);
      && db.categories == InsertAll(old(db.categories), CategoryRows(body.value, uid, ids))
      && r == Json(201, BatchPayload(|body.value|))
      && (forall k :: k in db.categories <==> k in old(db.categories) || k in ids)
      && (forall k :: k in old(db.categories) ==> db.categories[k] == old(db.categories)[k])
      && (forall i :: 0 <= i < |ids| ==>
            db.categories[ids[i]] == Category(ids[i], uid, body.value[i].name, body.value[i].icon))
  {
    if body.None? || (|body.value| > 0 && uid !in db.users) {
      return ErrorBody(500, SOMETHING_WENT_WRONG);
    }
    var ids := RowIds(body.value, freshIds);
    var distinct := forall i, j :: 0 <= i < j < |ids| ==> ids[i] != ids[j];
    var unused := forall i :: 0 <= i < |ids| ==> ids[i] !in db.categories;
    if !(distinct && unused) {
      return ErrorBody(500, SOMETHING_WENT_WRONG);
    }
    var rows := CategoryRows(body.value, uid, ids);
    assert Ids(rows) == ids;
    InsertAllKeys(db.categories, rows);
    InsertAllValues(db.categories, rows);
    InsertRows(db, rows);
    r := Json(201, BatchPayload(|body.value|));
  }

  /** The rows of one `createMany`, inserted one after the other. */
  method InsertRows(db: Db, rows: seq<Category>)
    requires db.Valid()
    requires forall i, j :: 0 <= i < j < |rows| ==> rows[i].id != rows[j].id
    requires forall i :: 0 <= i < |rows| ==> rows[i].id !in db.categories
    modifies db
    ensures db.Valid()
    ensures db.users == old(db.users) && db.groups == old(db.groups) && db.todos == old(db.todos)
    ensures db.categories == InsertAll(old(db.categories), rows)
  {
    InsertAllValues(db.categories, rows);
    InsertAllKeys(db.categories, rows);
    var table := db.categories;
    var i := 0;
    while i < |rows|
      invariant 0 <= i <= |rows|
      invariant table == InsertAll(db.categories, rows[..i])
    {
      assert rows[..i + 1][..i] == rows[..i];
      table := table[rows[i].id := rows[i]];
      i := i + 1;
    }
    assert rows[..|rows|] == rows;
    forall k | k in table ensures table[k].id == k {
      if k !in db.categories {
        assert k in Ids(rows);
        var i :| 0 <= i < |rows| && Ids(rows)[i] == k;
      }
    }
    db.categories := table;
  }

  /** updateCategory: changes the name of one row (an omitted name leaves it);
      an unknown id makes `update` throw. */
  method UpdateCategory(db: Db, id: Id, name: Option<string>) returns (r: Reply<Category>)
    requires db.Valid()
    modifies db
    ensures db.Valid()
    ensures db.users == old(db.users) && db.groups == old(db.groups) && db.todos == old(db.todos)
    ensures id !in old(db.categories) ==> db.categories == old(db.categories) && r == ErrorBody(500, SOMETHING_WENT_WRONG)
    ensures id in old(db.categories) ==>
      var c := old(db.categories)[id];
      db.categories == old(db.categories)[id := c.(name := if name.Some? then name.value else c.name)] &&
      r == Json(200, db.categories[id])
  {
    if id !in db.categories {
      return ErrorBody(500, SOMETHING_WENT_WRONG);
    }
    var c := db.categories[id];
    db.categories := db.categories[id := c.(name := if name.Some? then name.value else c.name)];
    r := Json(200, db.categories[id]);
  }

  /** deleteCategory: removes that row and answers with it. The todos that refer
      to it get the todo-to-category referential action: deleted, left without a
      category, or, when the relation restricts, the delete throws. */
  method DeleteCategory(db: Db, id: Id, onTodos: OnDelete) returns (r: Reply<Category>)
    requires db.Valid()
    modifies db
    ensures db.Valid()
    ensures db.users == old(db.users) && db.groups == old(db.groups)
    ensures id !in old(db.categories) || TodosAfterCategoryDelete(old(db.todos), {id}, onTodos).None? ==>
      db.categories == old(db.categories) && db.todos == old(db.todos) && r == ErrorBody(500, SOMETHING_WENT_WRONG)
    ensures id in old(db.categories) && TodosAfterCategoryDelete(old(db.todos), {id}, onTodos).Some? ==>
      && db.categories == old(db.categories) - {id}
      && db.todos == TodosAfterCategoryDelete(old(db.todos), {id}, onTodos).value
      && r == Json(200, old(db.categories)[id])
    // Once the delete succeeds, no todo refers to the deleted category.
    ensures r.Json? ==> forall k :: k in db.todos ==> db.todos[k].categoryId != Some(id)
  {
    if id !in db.categories {
      return ErrorBody(500, SOMETHING_WENT_WRONG);
    }
    var cut := TodosAfterCategoryDelete(db.todos, {id}, onTodos);
    if cut.None? {
      return ErrorBody(500, SOMETHING_WENT_WRONG);
    }
    assert forall k :: k in cut.value ==> cut.value[k].id == db.todos[k].id;
    assert forall k :: k in cut.value ==> !RefersToCategory(cut.value[k], {id});
    r := Json(200, db.categories[id]);
    db.todos := cut.value;
    db.categories := db.categories - {id};
  }
}
