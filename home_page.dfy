/** The standalone page that edits today's local todos (src/pages/HomePage.tsx).
    `today` is the date key the page computes when it renders, and `freshId` the
    identifier a new todo receives; both are inputs of the handlers. */
module HomePage {
  import opened Common
  import opened Strings
  import opened LocalTodos

  /** The component's four pieces of state. */
  datatype PageState = PageState(todos: History, newTodo: string, editingTodo: Option<string>, editingText: string)

  /** `todos[today] || []` */
  function TodayList(todos: History, today: string): seq<LocalTodo>
  {
    if today in todos then todos[today] else []
  }

  /** handleAddTodo: a non-blank input is trimmed and appended to today's list as
      an open todo, and the input is cleared. */
  function AddTodo(s: PageState, today: string, freshId: string): PageState
  {
    if Trim(s.newTodo) == "" then s
    else
      s.(todos := s.todos[today := TodayList(s.todos, today) + [LocalTodo(freshId, Trim(s.newTodo), false, None, None)]],
         newTodo := "")
  }

  /** handleEditTodo: enters edit mode with the todo's text when today's list has that id. */
  function EditTodo(s: PageState, today: string, id: string): PageState
  {
    match FindById(TodayList(s.todos, today), id)
    case None => s
    case Some(t) => s.(editingTodo := Some(id), editingText := t.text)
  }

  /** handleSaveEdit: writes the untrimmed text into the edited todo and leaves
      edit mode. Reading today's list when the record has no entry for today
      throws before any state is set. */
  function SaveEdit(s: PageState, today: string): PageState
  {
    if Trim(s.editingText) == "" || !Truthy(s.editingTodo) || today !in s.todos then s
    else
      s.(todos := s.todos[today := Renamed(s.todos[today], s.editingTodo.value, s.editingText)],
         editingTodo := None, editingText := "")
  }

  /** toggleTodo: flips the flag of the todos with that id in today's list. */
  function Toggle(s: PageState, today: string, id: string): PageState
  {
    if today !in s.todos then s else s.(todos := s.todos[today := Toggled(s.todos[today], id)])
  }

  /** removeTodo: drops the todos with that id from today's list. */
  function Remove(s: PageState, today: string, id: string): PageState
  {
    if today !in s.todos then s else s.(todos := s.todos[today := Without(s.todos[today], id)])
  }

  /** handleKeyDown: Enter saves while editing and adds otherwise; any other key does nothing. */
  function KeyDown(s: PageState, key: string, today: string, freshId: string): PageState
  {
    if key != "Enter" then s
    else if Truthy(s.editingTodo) then SaveEdit(s, today)
    else AddTodo(s, today, freshId)
  }

  /** Adding with a blank input changes nothing; otherwise exactly one open todo
      carrying the trimmed text is appended at the end of today's list, other
      dates keep their lists, and the input is cleared. */
  lemma AddTodoEffect(s: PageState, today: string, freshId: string)
    ensures IsBlank(s.newTodo) ==> AddTodo(s, today, freshId) == s
    ensures !IsBlank(s.newTodo) ==>
      var r := AddTodo(s, today, freshId);
      && today in r.todos
      && r.todos[today] == TodayList(s.todos, today) + [LocalTodo(freshId, Trim(s.newTodo), false, None, None)]
      && Trim(s.newTodo) != "" && !IsWhitespace(Trim(s.newTodo)[0])
      && OtherDatesUnchanged(s.todos, r.todos, today)
      && r.newTodo == "" && r.editingTodo == s.editingTodo && r.editingText == s.editingText
  {
    TrimEmptyIffBlank(s.newTodo);
    TrimIsInfix(s.newTodo);
  }

  /** Edit mode is entered, with the text of the first todo carrying the id, when
      today's list holds the id; otherwise nothing changes. */
  lemma EditTodoEffect(s: PageState, today: string, id: string, i: nat)
    requires i < |TodayList(s.todos, today)| && TodayList(s.todos, today)[i].id == id
    requires forall j :: 0 <= j < i ==> TodayList(s.todos, today)[j].id != id
    ensures var r := EditTodo(s, today, id);
      r.todos == s.todos && r.newTodo == s.newTodo &&
      r.editingTodo == Some(id) && r.editingText == TodayList(s.todos, today)[i].text
  {
    var list := TodayList(s.todos, today);
    var k :| 0 <= k < |list| && list[k] == FindById(list, id).value && FindById(list, id).value.id == id &&
      forall j :: 0 <= j < k ==> list[j].id != id;
    assert k == i;
  }

  /** When today's list does not hold the id, editing changes nothing. */
  lemma EditTodoAbsent(s: PageState, today: string, id: string)
    requires forall j :: 0 <= j < |TodayList(s.todos, today)| ==> TodayList(s.todos, today)[j].id != id
    ensures EditTodo(s, today, id) == s
  {
  }

  /** Saving with blank text or outside edit mode changes nothing; otherwise the
      edited todo gets the text exactly as typed, the list keeps its length and
      ids, and edit mode is left. */
  lemma SaveEditEffect(s: PageState, today: string)
    ensures IsBlank(s.editingText) || !Truthy(s.editingTodo) ==> SaveEdit(s, today) == s
    ensures !IsBlank(s.editingText) && Truthy(s.editingTodo) && today in s.todos ==>
      var r := SaveEdit(s, today);
      && |r.todos[today]| == |s.todos[today]|
      && (forall i :: 0 <= i < |s.todos[today]| ==>
            r.todos[today][i].id == s.todos[today][i].id &&
            r.todos[today][i].text == (if s.todos[today][i].id == s.editingTodo.value then s.editingText else s.todos[today][i].text))
      && FindById(r.todos[today], s.editingTodo.value) ==
         (match FindById(s.todos[today], s.editingTodo.value) case None => None case Some(t) => Some(t.(text := s.editingText)))
      && OtherDatesUnchanged(s.todos, r.todos, today)
      && r.editingTodo == None && r.editingText == "" && r.newTodo == s.newTodo
  {
    TrimEmptyIffBlank(s.editingText);
    if !IsBlank(s.editingText) && Truthy(s.editingTodo) && today in s.todos {
      RenamedFind(s.todos[today], s.editingTodo.value, s.editingText);
    }
  }

  /** Toggling changes only completion flags of today's list, and toggling the
      same id twice restores the state. */
  lemma ToggleEffect(s: PageState, today: string, id: string)
    ensures var r := Toggle(s, today, id);
      && OtherDatesUnchanged(s.todos, r.todos, today)
      && |TodayList(r.todos, today)| == |TodayList(s.todos, today)|
      && (forall i :: 0 <= i < |TodayList(s.todos, today)| ==>
            TodayList(r.todos, today)[i].(completed := true) == TodayList(s.todos, today)[i].(completed := true))
      && r.newTodo == s.newTodo && r.editingTodo == s.editingTodo && r.editingText == s.editingText
    ensures Toggle(Toggle(s, today, id), today, id) == s
  {
    if today in s.todos {
      ToggledTwice(s.todos[today], id);
      assert s.todos[today := s.todos[today]] == s.todos;
    }
  }

  /** Removing deletes exactly the todos with that id from today's list, keeps the
      others in their order, and touches no other date. */
  lemma RemoveEffect(s: PageState, today: string, id: string, before: seq<LocalTodo>, after: seq<LocalTodo>)
    requires today in s.todos && s.todos[today] == before + after
    ensures var r := Remove(s, today, id);
      && OtherDatesUnchanged(s.todos, r.todos, today)
      && |r.todos[today]| <= |s.todos[today]|
      && (forall t :: t in r.todos[today] <==> t in s.todos[today] && t.id != id)
      && r.todos[today] == Without(before, id) + Without(after, id)
      && r.newTodo == s.newTodo && r.editingTodo == s.editingTodo && r.editingText == s.editingText
  {
    WithoutMembers(s.todos[today], id);
    WithoutDistributes(before, after, id);
  }

  /** Enter while editing saves; Enter otherwise adds; in both cases and for any
      other key the list of today changes length only by an add. */
  lemma KeyDownEffect(s: PageState, key: string, today: string, freshId: string)
    ensures var r := KeyDown(s, key, today, freshId);
      |TodayList(r.todos, today)| ==
        if key == "Enter" && !Truthy(s.editingTodo) && !IsBlank(s.newTodo)
        then |TodayList(s.todos, today)| + 1
        else |TodayList(s.todos, today)|
    ensures key == "Enter" && Truthy(s.editingTodo) ==> KeyDown(s, key, today, freshId).newTodo == s.newTodo
  {
    AddTodoEffect(s, today, freshId);
    TrimEmptyIffBlank(s.newTodo);
  }

  /** The page component. */
  class HomePage {
    var todos: History
    var newTodo: string
    var editingTodo: Option<string>
    var editingText: string

    function State(): PageState
      reads this
    {
      PageState(todos, newTodo, editingTodo, editingText)
    }

    /** The first render: the record saved under "todos", or an empty record. */
    constructor (saved: Option<History>)
      ensures State() == PageState(if saved.Some? then saved.value else map[], "", None, "")
    {
      todos := if saved.Some? then saved.value else map[];
      newTodo := "";
      editingTodo := None;
      editingText := "";
    }

    /** Typing in the input. */
    method SetNewTodo(text: string)
      modifies this
      ensures State() == old(State()).(newTodo := text)
    {
      newTodo := text;
    }

    /** Typing in the edit field. */
    method SetEditingText(text: string)
      modifies this
      ensures State() == old(State()).(editingText := text)
    {
      editingText := text;
    }

    method HandleAddTodo(today: string, freshId: string)
      modifies this
      ensures State() == AddTodo(old(State()), today, freshId)
    {
      var trimmed := Trim(newTodo);
      if trimmed == "" {
        return;
      }
      todos := todos[today := TodayList(todos, today) + [LocalTodo(freshId, trimmed, false, None, None)]];
      newTodo := "";
    }

    method HandleEditTodo(today: string, id: string)
      modifies this
      ensures State() == EditTodo(old(State()), today, id)
    {
      var todo := FindById(TodayList(todos, today), id);
      if todo.Some? {
        editingTodo := Some(id);
        editingText := todo.value.text;
      }
    }

    method HandleSaveEdit(today: string)
      modifies this
      ensures State() == SaveEdit(old(State()), today)
    {
      if Trim(editingText) == "" || !Truthy(editingTodo) {
        return;
      }
      if today !in todos {
        return;
      }
      todos := todos[today := Renamed(todos[today], editingTodo.value, editingText)];
      editingTodo := None;
      editingText := "";
    }

    method ToggleTodo(today: string, id: string)
      modifies this
      ensures State() == Toggle(old(State()), today, id)
    {
      if today !in todos {
        return;
      }
      todos := todos[today := Toggled(todos[today], id)];
    }

    method RemoveTodo(today: string, id: string)
      modifies this
      ensures State() == Remove(old(State()), today, id)
    {
      if today !in todos {
        return;
      }
      todos := todos[today := Without(todos[today], id)];
    }

    method HandleKeyDown(key: string, today: string, freshId: string)
      modifies this
      ensures State() == KeyDown(old(State()), key, today, freshId)
    {
      if key == "Enter" {
        if Truthy(editingTodo) {
          HandleSaveEdit(today);
        } else {
          HandleAddTodo(today, freshId);
        }
      }
    }
  }
}
