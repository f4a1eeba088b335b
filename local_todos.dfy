/** The todos the standalone web page keeps in the browser, keyed by date
    (src/types/index.ts and the lists of src/pages/HomePage.tsx and
    src/components/HistoryDialog.tsx). */
module LocalTodos {
  import opened Common

  /** A locally stored todo. The optional due time ("HH:mm") and priority are
      carried along unchanged by every operation. */
  datatype LocalTodo = LocalTodo(id: string, text: string, completed: bool, dueTime: Option<string>, priority: Option<string>)

  /** The stored record: one list of todos per date key ("YYYY-MM-DD"). */
  type History = map<string, seq<LocalTodo>>

  /** The record is unchanged at every date other than `date`. */
  ghost predicate OtherDatesUnchanged(before: History, after: History, date: string)
  {
    forall d :: d != date ==> (d in after <==> d in before) && (d in after ==> after[d] == before[d])
  }

  /** `list.find(t => t.id === id)`: the first todo with that id. */
  function FindById(list: seq<LocalTodo>, id: string): (r: Option<LocalTodo>)
    ensures r.None? <==> forall i :: 0 <= i < |list| ==> list[i].id != id
    ensures r.Some? ==>
      exists i :: (0 <= i < |list| && list[i] == r.value && r.value.id == id && forall j :: 0 <= j < i ==> list[j].id != id)
  {
    if list == [] then None
    else if list[0].id == id then Some(list[0])
    else
      var r := FindById(list[1..], id);
      if r.Some? then
        assert exists i :: (0 <= i < |list| && list[i] == r.value && r.value.id == id && forall j :: 0 <= j < i ==> list[j].id != id)
        by {
          var i :| 0 <= i < |list[1..]| && list[1..][i] == r.value && r.value.id == id &&
            forall j :: 0 <= j < i ==> list[1..][j].id != id;
          assert list[i + 1] == r.value;
          forall j | 0 <= j < i + 1 ensures list[j].id != id {
            if j > 0 { assert list[j] == list[1..][j - 1]; }
          }
        }
        r
      else
        assert forall i :: 1 <= i < |list| ==> list[i] == list[1..][i - 1];
        r
  }

  /** `list.map(t => t.id === id ? { ...t, completed: !t.completed } : t)` */
  function Toggled(list: seq<LocalTodo>, id: string): (r: seq<LocalTodo>)
    ensures |r| == |list|
    ensures forall i :: 0 <= i < |list| ==>
      r[i] == if list[i].id == id then list[i].(completed := !list[i].completed) else list[i]
  {
    seq(|list|, i requires 0 <= i < |list| =>
      if list[i].id == id then list[i].(completed := !list[i].completed) else list[i])
  }

  /** Toggling the same id twice gives the list back. */
  lemma ToggledTwice(list: seq<LocalTodo>, id: string)
    ensures Toggled(Toggled(list, id), id) == list
  {
    var r := Toggled(Toggled(list, id), id);
    forall i | 0 <= i < |list| ensures r[i] == list[i] {
      if list[i].id == id {
        assert list[i].(completed := !list[i].completed).(completed := list[i].completed) == list[i];
      }
    }
  }

  /** `list.map(t => t.id === id ? { ...t, text } : t)` */
  function Renamed(list: seq<LocalTodo>, id: string, text: string): (r: seq<LocalTodo>)
    ensures |r| == |list|
    ensures forall i :: 0 <= i < |list| ==> r[i] == if list[i].id == id then list[i].(text := text) else list[i]
  {
    seq(|list|, i requires 0 <= i < |list| => if list[i].id == id then list[i].(text := text) else list[i])
  }

  /** After renaming, looking the id up finds the same todo with the new text. */
  lemma {:induction false} RenamedFind(list: seq<LocalTodo>, id: string, text: string)
    ensures FindById(Renamed(list, id, text), id) ==
      match FindById(list, id) case None => None case Some(t) => Some(t.(text := text))
  {
    if list != [] {
      RenamedFind(list[1..], id, text);
      assert Renamed(list, id, text)[1..] == Renamed(list[1..], id, text);
    }
  }

  /** `list.filter(t => t.id !== id)` */
  function Without(list: seq<LocalTodo>, id: string): (r: seq<LocalTodo>)
    ensures |r| <= |list|
  {
    if list == [] then []
    else (if list[0].id == id then [] else [list[0]]) + Without(list[1..], id)
  }

  /** The filtered list holds exactly the todos of `list` whose id differs. */
  lemma {:induction false} WithoutMembers(list: seq<LocalTodo>, id: string)
    ensures forall t :: t in Without(list, id) <==> t in list && t.id != id
  {
    if list != [] {
      WithoutMembers(list[1..], id);
      assert forall t :: t in list <==> t == list[0] || t in list[1..];
    }
  }

  /** Filtering distributes over concatenation, so the kept todos stay in their order. */
  lemma {:induction false} WithoutDistributes(a: seq<LocalTodo>, b: seq<LocalTodo>, id: string)
    ensures Without(a + b, id) == Without(a, id) + Without(b, id)
  {
    if a == [] {
      assert a + b == b;
    } else {
      var head := if a[0].id == id then [] else [a[0]];
      calc {
        Without(a + b, id);
        { assert (a + b)[0] == a[0]; assert (a + b)[1..] == a[1..] + b; }
        head + Without(a[1..] + b, id);
        { WithoutDistributes(a[1..], b, id); }
        head + (Without(a[1..], id) + Without(b, id));
        (head + Without(a[1..], id)) + Without(b, id);
      }
    }
  }

  /** Removing an id that no todo carries gives the list back. */
  lemma {:induction false} WithoutAbsent(list: seq<LocalTodo>, id: string)
    requires forall i :: 0 <= i < |list| ==> list[i].id != id
    ensures Without(list, id) == list
  {
    if list != [] {
      WithoutAbsent(list[1..], id);
    }
  }
}
