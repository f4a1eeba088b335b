/** The signed-in todo list of the web client
    (todopalm-web/src/components/Todos/TodoList.tsx): its date heading, the row
    numbers and the check button. The clock's calendar fields are inputs. */
module TodoList {
  import opened Strings
  import Store
  import TodosController
  import TodosRoutes
  import TodosService
  import JwtMiddleware
  import Common

  const DAY_NAMES: seq<string> := ["Sun", "Mon", "Tue", "Wed", "Thu", "Fri", "Sat"]
  const MONTH_NAMES: seq<string> :=
    ["Jan", "Feb", "Mar", "Apr", "May", "Jun", "Jul", "Aug", "Sep", "Oct", "Nov", "Dec"]

  /** A three-letter English abbreviation. */
  predicate IsAbbreviation(s: string)
  {
    |s| == 3 && 'A' <= s[0] <= 'Z' && 'a' <= s[1] <= 'z' && 'a' <= s[2] <= 'z'
  }

  /** Every day and month name is a three-letter abbreviation, and index 0 is
      Sunday and January. */
  lemma NamesAreAbbreviations()
    ensures |DAY_NAMES| == 7 && |MONTH_NAMES| == 12
    ensures DAY_NAMES[0] == "Sun" && MONTH_NAMES[0] == "Jan"
    ensures forall i :: 0 <= i < 7 ==> IsAbbreviation(DAY_NAMES[i])
    ensures forall i :: 0 <= i < 12 ==> IsAbbreviation(MONTH_NAMES[i])
  {
  }

  /** getFormattedDate for the day of the week `dow` (0 is Sunday), the day of the
      month, the month index (0 is January) and the year. */
  function FormattedDate(dow: nat, date: nat, month: nat, year: nat): (r: string)
    requires dow < 7 && month < 12
    ensures |r| == 3 + 1 + |NatToString(date)| + 1 + 3 + 1 + |NatToString(year)|
  {
    DAY_NAMES[dow] + " " + NatToString(date) + " " + MONTH_NAMES[month] + " " + NatToString(year)
  }

  /** An abbreviation holds no space. */
  lemma AbbreviationHasNoSpace(s: string)
    requires IsAbbreviation(s)
    ensures !Contains(s, ' ')
  {
  }

  /** The heading always splits on ' ' into exactly four fields: the day name, the
      day of the month, the month name and the year. */
  lemma FormattedDateFields(dow: nat, date: nat, month: nat, year: nat)
    requires dow < 7 && month < 12
    ensures Split(FormattedDate(dow, date, month, year), ' ') ==
      [DAY_NAMES[dow], NatToString(date), MONTH_NAMES[month], NatToString(year)]
  {
    var d, n, m, y := DAY_NAMES[dow], NatToString(date), MONTH_NAMES[month], NatToString(year);
    NamesAreAbbreviations();
    AbbreviationHasNoSpace(d);
    AbbreviationHasNoSpace(m);
    DigitsHaveNo(n, ' ');
    DigitsHaveNo(y, ' ');
    assert FormattedDate(dow, date, month, year) == d + [' '] + (n + [' '] + (m + [' '] + y));
    SplitWhole(y, ' ');
    SplitPrefix(m, ' ', y);
    SplitPrefix(n, ' ', m + [' '] + y);
    SplitPrefix(d, ' ', n + [' '] + (m + [' '] + y));
  }

  /** The number shown before the row at index `i`: rows are numbered 1..n in list order. */
  function RowLabels(n: nat): (labels: seq<nat>)
    ensures |labels| == n
    ensures forall i :: 0 <= i < n ==> labels[i] == i + 1
  {
    seq(n, i => i + 1)
  }

  /** The two calls the check button can make. */
  datatype CheckAction = Complete | UnComplete
  {
    /** The path the action requests for the todo `id`. */
    function Path(id: string): string
    {
      match this
      case Complete => TodosRoutes.CompleteTodo(id)
      case UnComplete => TodosRoutes.UnCompleteTodo(id)
    }

    /** The flag the backend handler the action reaches writes. */
    predicate Sets()
    {
      this == Complete
    }
  }

  /** The check button's choice: uncomplete a completed todo, complete an open one. */
  function CheckButton(isCompleted: bool): (a: CheckAction)
    ensures a == UnComplete <==> isCompleted
  {
    if isCompleted then UnComplete else Complete
  }

  /** A click on the check button, with the token sent as a header: the request
      passes the gate as the signed-in user, the handler flips the todo's flag
      and leaves every other todo as it was; and the two paths the button may
      request never coincide. */
  lemma CheckButtonFlips(
    codec: JwtMiddleware.Codec, secrets: JwtMiddleware.Secrets, userId: string, nowMs: int,
    todos: map<string, Store.Todo>, id: string)
    requires JwtMiddleware.WellFormed(codec)
    requires id in todos
    ensures
      var token := codec.encode(JwtMiddleware.GenerateAccessToken(secrets, userId, nowMs).token);
      var req := TodosService.PutWithHeader(token, CheckButton(todos[id].isCompleted).Path(id));
      JwtMiddleware.Authenticate(codec, secrets, req.path, req.authorization, JwtMiddleware.EpochSeconds(nowMs)) ==
        JwtMiddleware.Next(Common.Some(JwtMiddleware.Principal(userId)))
    ensures var r := TodosController.SetCompleted(todos, id, CheckButton(todos[id].isCompleted).Sets());
      r[id].isCompleted == !todos[id].isCompleted && r.Keys == todos.Keys &&
      forall k :: k in todos && k != id ==> r[k] == todos[k]
    ensures Complete.Path(id) != UnComplete.Path(id)
  {
    TodosService.PutWithHeaderPasses(codec, secrets, userId, nowMs, id);
    TodosRoutes.CompleteNeverUncomplete(id, id);
  }

  /** The same click as the service sends it: the gate answers 401 "No token
      provided" and no flag changes. */
  lemma CheckButtonAsWrittenIsRejected(
    codec: JwtMiddleware.Codec, secrets: JwtMiddleware.Secrets, accessToken: string, nowSec: int, isCompleted: bool, id: string)
    ensures
      var req := TodosService.PutAsWritten(accessToken, CheckButton(isCompleted).Path(id));
      JwtMiddleware.Authenticate(codec, secrets, req.path, req.authorization, nowSec) ==
        JwtMiddleware.Unauthorized("No token provided")
  {
    TodosService.PutAsWrittenIsRejected(codec, secrets, accessToken, id, nowSec);
  }
}
