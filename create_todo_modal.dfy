/** The dialog that creates a todo from the web client
    (todopalm-web/src/components/Todos/CreateTodoModal.tsx). The user's categories
    are an input; the request it sends is the handler's result. */
module CreateTodoModal {
  import opened Common

  /** A category of the signed-in user, as the dialog reads it. */
  datatype UserCategory = UserCategory(id: string, name: string)

  /** The body of the create request. */
  datatype TodoData = TodoData(title: string, content: string, categoryId: string)

  /** The category preselected on the first render: the first category's name, or
      "" when the user has none. */
  function InitialCategory(categories: seq<UserCategory>): (name: string)
    ensures |categories| > 0 ==> name == categories[0].name
    ensures |categories| == 0 ==> name == ""
  {
    if |categories| > 0 then categories[0].name else ""
  }

  /** isDisabled: an empty title or an empty content; a field holding only white
      space counts as filled. */
  predicate IsDisabled(title: string, content: string)
  {
    |title| == 0 || |content| == 0
  }

  /** `user.categories.find(c => c.name === category)?.id`: the id of the first
      category with that name, or None when no category has it. */
  function FindCategoryId(categories: seq<UserCategory>, name: string): (r: Option<string>)
    ensures r.None? <==> forall i :: 0 <= i < |categories| ==> categories[i].name != name
    ensures r.Some? ==> exists i :: (0 <= i < |categories| && categories[i].name == name && categories[i].id == r.value &&
                                     forall j :: 0 <= j < i ==> categories[j].name != name)
  {
    if |categories| == 0 then None
    else if categories[0].name == name then Some(categories[0].id)
    else
      var r := FindCategoryId(categories[1..], name);
      if r.Some? then
        var i :| 0 <= i < |categories[1..]| && categories[1..][i].name == name && categories[1..][i].id == r.value &&
          forall j :: 0 <= j < i ==> categories[1..][j].name != name;
        assert categories[i + 1] == categories[1..][i];
        r
      else r
  }

  /** A name the dialog preselected from a non-empty list is always found. */
  lemma InitialCategoryIsFound(categories: seq<UserCategory>)
    requires |categories| > 0
    ensures FindCategoryId(categories, InitialCategory(categories)) == Some(categories[0].id)
  {
  }

  /** The dialog component. */
  class CreateTodoModal {
    var title: string
    var content: string
    var category: string
    var loading: bool

    /** The first render. */
    constructor (categories: seq<UserCategory>)
      ensures title == "" && content == "" && category == InitialCategory(categories) && !loading
      ensures IsDisabled(title, content)
    {
      title := "";
      content := "";
      category := InitialCategory(categories);
      loading := false;
    }

    /** Typing in the fields or picking a category. */
    method Edit(newTitle: string, newContent: string, newCategory: string)
      modifies this
      ensures title == newTitle && content == newContent && category == newCategory && loading == old(loading)
    {
      title := newTitle;
      content := newContent;
      category := newCategory;
    }

    /** handleAddTodo. A disabled dialog does nothing. Otherwise `loading` is set
        and the category is looked up: when no category has the selected name the
        lookup throws, nothing is sent and the dialog stays loading; when it is
        found the request carries the title, the content and the first matching
        id, and afterwards the three fields are cleared and `loading` is reset (the
        service swallows a failed request, so this happens whatever the backend
        answers). */
    method HandleAddTodo(categories: seq<UserCategory>) returns (sent: Option<TodoData>)
      modifies this
      ensures IsDisabled(old(title), old(content)) ==>
        sent.None? && title == old(title) && content == old(content) && category == old(category) && loading == old(loading)
      ensures !IsDisabled(old(title), old(content)) && FindCategoryId(categories, old(category)).None? ==>
        sent.None? && title == old(title) && content == old(content) && category == old(category) && loading
      ensures !IsDisabled(old(title), old(content)) && FindCategoryId(categories, old(category)).Some? ==>
        sent == Some(TodoData(old(title), old(content), FindCategoryId(categories, old(category)).value)) &&
        title == "" && content == "" && category == "" && !loading
    {
      if |title| == 0 || |content| == 0 {
        return None;
      }
      loading := true;
      var id := FindCategoryId(categories, category);
      if id.None? {
        return None;
      }
      sent := Some(TodoData(title, content, id.value));
      loading := false;
      category := "";
      title := "";
      content := "";
    }
  }
}
