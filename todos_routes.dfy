/** The paths the web client calls for todos (todopalm-web/src/api/todos/routes.ts). */
module TodosRoutes {

  const CREATE_TODO: string := "/todos/"
  const GET_TODOS: string := "/todos"

  /** `/todos/${id}`, shared by GET_TODO, UPDATE_TODO and DELETE_TODO. */
  function TodoPath(id: string): (p: string)
    ensures |p| == |id| + 7 && p[..7] == CREATE_TODO && p[7..] == id
  {
    "/todos/" + id
  }

  function GetTodo(id: string): string { TodoPath(id) }
  function UpdateTodo(id: string): string { TodoPath(id) }
  function DeleteTodo(id: string): string { TodoPath(id) }

  /** `/todos/${id}/complete` */
  function CompleteTodo(id: string): (p: string)
    ensures p == GetTodo(id) + "/complete"
  {
    "/todos/" + id + "/complete"
  }

  /** `/todos/${id}/uncomplete` */
  function UnCompleteTodo(id: string): (p: string)
    ensures p == GetTodo(id) + "/uncomplete"
  {
    "/todos/" + id + "/uncomplete"
  }

  /** The three single-todo builders give one path, and the create path is the
      list path with a trailing slash. */
  lemma SharedPaths(id: string)
    ensures GetTodo(id) == UpdateTodo(id) == DeleteTodo(id) == CREATE_TODO + id
    ensures CREATE_TODO == GET_TODOS + "/"
  {
  }

  /** Each builder tells ids apart. */
  lemma BuildersInjective(a: string, b: string)
    requires a != b
    ensures TodoPath(a) != TodoPath(b)
    ensures CompleteTodo(a) != CompleteTodo(b)
    ensures UnCompleteTodo(a) != UnCompleteTodo(b)
  {
    assert TodoPath(a)[7..] == a && TodoPath(b)[7..] == b;
    if |a| == |b| {
      var i :| 0 <= i < |a| && a[i] != b[i];
      assert CompleteTodo(a)[7 + i] == a[i] && CompleteTodo(b)[7 + i] == b[i];
      assert UnCompleteTodo(a)[7 + i] == a[i] && UnCompleteTodo(b)[7 + i] == b[i];
    } else {
      assert |CompleteTodo(a)| != |CompleteTodo(b)|;
      assert |UnCompleteTodo(a)| != |UnCompleteTodo(b)|;
    }
  }

  /** A complete path is never an uncomplete path, whatever the two ids: nine
      characters from the end one has '/' where the other has 'n'. */
  lemma CompleteNeverUncomplete(a: string, b: string)
    ensures CompleteTodo(a) != UnCompleteTodo(b)
  {
    var p := CompleteTodo(a);
    var q := UnCompleteTodo(b);
    if |p| == |q| {
      assert p[|p| - 9] == '/';
      assert q[|q| - 9] == 'n';
    }
  }
}
