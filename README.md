# TodoPalm in Dafny

TodoPalm is a daily todo tracker. It has three parts:

- an Express API over a Prisma store;
- a Next.js web client that signs in through next-auth and talks to that API;
- a standalone React page that keeps its todos in the browser, keyed by date.

This project models the parts of the three that carry logic and proves properties about them.

**The API** (`todopalm-server`):
- The store is a class `Store.Db` holding four tables (users, todo groups, todos, categories) as maps from id to row. Every handler is a method that changes those tables in place and answers with a `Common.Reply`: a status plus a JSON value, a message or an error body.
- `GET /users/me` runs the daily rollover. When the user's newest group is not from today, older groups are retired and a fresh active group is created. This is proved to leave exactly one active group, and to make the next call on the same day a hit.
- Deletes follow the schema's referential actions, which are a parameter: a delete either cascades, clears the reference or is refused.
- The JWT gate, the token issuers and the refresh endpoint work on an abstract token datatype. Signing and parsing are a codec that round-trips.

**The web client** (`todopalm-web`) is modelled in these pieces:
- the next-auth callbacks;
- the sign-in form's validators, including a proof that the description of `isValidEmail` agrees with its regular expression;
- the first-run category chooser;
- the create-todo dialog;
- the todo list's date heading and check button;
- the todo service's PUT requests, and what the server's gate makes of them;
- the colour rule of the backgrounds;
- the route builders.

**The standalone page** (`src/`):
- The home page and the history dialog are classes whose methods are proved equal to specification functions on the component state. Lemmas about those functions state what each handler does.
- The month grid is built by a loop proved to list each day of the month once.
- The theme provider and its menu are modelled as well.

Inputs that the code takes from its environment are parameters. These are the clock (`nowMs`, the calendar-day function `dayOf`), the ids the store or `uuid` would assign, bcrypt's hash and compare, the media query, `localStorage` (a map) and each backend answer.

Some behaviours of the code a reader may not expect, all modelled as written:
- A locked group still accepts new todos: `createTodo` puts the todo in the newest group without reading its lock flag (todopalm-server/src/api/v1/controllers/todos.ts:37-92).
- Completing a todo sets only its flag, and no completion time is recorded (todopalm-server/src/api/v1/controllers/todos.ts:102-109).
- A rollover for an unknown user runs the retirement, then fails on creating the group, and the retirement stays done (todopalm-server/src/api/v1/controllers/users.ts:44-53).
- A refresh token issued in the same second as the one it replaces is the same token, because its claims and expiry are the same (todopalm-server/src/api/v1/controllers/users.ts:330-340, todopalm-server/src/api/v1/middleware/jwt.ts:59-76).
- The gate never reads the token's `type` claim, so a refresh token signed with the access secret would pass (todopalm-server/src/api/v1/middleware/jwt.ts:21-30).

## Model

| member | source | states |
|---|---|---|
| Store.NewestGroup | todopalm-server/src/api/v1/controllers/users.ts:22-24 | the loop finds a newest group of the user exactly when the user has a group; any group tied for newest may be returned |
| Store.FindUserByEmail | todopalm-server/src/api/v1/controllers/users.ts:218-222 | the lookup by email finds a stored user with that email exactly when one exists |
| Store.TodosAfterCategoryDelete | todopalm-server/src/api/v1/controllers/categories.ts:85-100 | deleting categories under a todo-to-category action: refused exactly when the action restricts and some todo refers to one; otherwise no remaining todo refers to one, every other todo is kept unchanged, and the referring todos are deleted (cascade) or only lose their category (set null) |
| Store.TodosAfterGroupDelete | todopalm-server/src/api/v1/controllers/users.ts:187-191 | deleting groups under a todo-to-group action: refused exactly when the action restricts and some todo is in one of them; otherwise exactly the todos outside them remain, unchanged |
| JwtMiddleware.Verify | todopalm-server/src/api/v1/middleware/jwt.ts:24-30 | a token verifies exactly when it parses, was signed with the given secret and has not expired; the result is its subject |
| JwtMiddleware.GenerateAccessToken | todopalm-server/src/api/v1/middleware/jwt.ts:39-57 | an access token for the user, signed with the access secret, expiring 3600 s after the current second; expiresAt is that expiry |
| JwtMiddleware.GenerateRefreshToken | todopalm-server/src/api/v1/middleware/jwt.ts:59-76 | a refresh token for the user, signed with the refresh secret, valid thirty days |
| JwtMiddleware.AccessTokenRoundTrip | todopalm-server/src/api/v1/middleware/jwt.ts:39-57 | an issued access token verifies as its user exactly until its expiry second |
| JwtMiddleware.Authenticate | todopalm-server/src/api/v1/middleware/jwt.ts:9-36 | allow-listed paths pass; without a "Bearer " header the answer is 401 "No token provided"; otherwise the token after the 7-character prefix must verify under the access secret, else 401 "Invalid token" |
| JwtMiddleware.ExcludedPathsIgnoreHeader | todopalm-server/src/api/v1/middleware/jwt.ts:12-20 | the three auth paths pass whatever the header holds |
| JwtMiddleware.GateIgnoresTokenKind | todopalm-server/src/api/v1/middleware/jwt.ts:21-30 | two tokens that differ only in their type claim get the same answer from the gate |
| JwtMiddleware.GateOnIssuedTokens | todopalm-server/src/api/v1/middleware/jwt.ts:21-30 | a fresh access token passes as its user; a refresh token is rejected exactly when the two secrets differ |
| UsersController.NewGroup | todopalm-server/src/api/v1/controllers/users.ts:50-52 | the created group is the user's, stamped now, active and unlocked |
| UsersController.Retire | todopalm-server/src/api/v1/controllers/users.ts:45-48 | exactly the user's groups created before now become inactive; nothing else changes |
| UsersController.RolloverEffect | todopalm-server/src/api/v1/controllers/users.ts:44-53 | after a rollover the table is the old one plus the fresh group; other users' groups and groups not older than now are untouched |
| UsersController.RolloverLeavesOneActiveGroup | todopalm-server/src/api/v1/controllers/users.ts:33-53 | with a clock that has not gone back, the fresh group becomes the user's only active group and the only newest one |
| UsersController.SameDayAfterRollover | todopalm-server/src/api/v1/controllers/users.ts:33-53 | after a rollover, a later instant on the same day finds the newest group to be from today, and it is the fresh group |
| UsersController.NewestDecidesToday | todopalm-server/src/api/v1/controllers/users.ts:39-42 | whether the newest group is from today is decided by any one newest group |
| UsersController.NoGroupIsNotToday | todopalm-server/src/api/v1/controllers/users.ts:34-37 | a user with no group has no group from today |
| UsersController.GetMe | todopalm-server/src/api/v1/controllers/users.ts:8-73 | same day: nothing written and the newest group is today's group; otherwise a rollover and the fresh group is today's group; unknown user: retirement done, then 500. The body holds the selected profile (every column but the password hash, additionalInfo included), `todoGroups` as read before the rollover (the newest group with its todos, empty exactly when the user had none, equal to today's group exactly on a same-day call), the user's categories, and exactly the todos of today's group, each with its category |
| UsersController.GetMeTwiceAfterRollover | todopalm-server/src/api/v1/controllers/users.ts:33-53 | two calls on the same day after a stale group return the same fresh group; afterwards the groups are the first call's rollover and users, todos and categories are untouched, so the second call wrote nothing |
| UsersController.SetIfGiven | todopalm-server/src/api/v1/controllers/users.ts:164-168 | an undefined field leaves the stored value, a given one replaces it |
| UsersController.UpdateBasicInfo | todopalm-server/src/api/v1/controllers/users.ts:102-126 | the user's occupation is set and the five profile fields are answered; unknown user: 500, nothing written |
| UsersController.SetTheme | todopalm-server/src/api/v1/controllers/users.ts:129-152 | the user's theme is set and four fields are answered; unknown user: 500 |
| UsersController.UpdateUser | todopalm-server/src/api/v1/controllers/users.ts:155-180 | success exactly when the user exists and the email is not another account's; then name, email and image are set |
| UsersController.DeleteAccount | todopalm-server/src/api/v1/controllers/users.ts:183-209 | three statements with no transaction, under the schema's referential actions: a restricted group delete writes nothing and answers 500; otherwise the user's groups and todos are gone, and then an unknown user, a restricted category delete or a restricted todo-to-category action stops with 500 keeping what was written; a 200 "Account deleted" leaves no group, todo or category that refers to the user or to their deleted groups and categories |
| UsersController.DeleteUserRow | todopalm-server/src/api/v1/controllers/users.ts:199-203 | the user row is deleted exactly when it exists and neither the category-to-user nor the todo-to-category action refuses; then the user's categories go and the referring todos are cut; otherwise 500 and nothing written |
| UsersController.Issue | todopalm-server/src/api/v1/controllers/users.ts:233-241 | the issued pair and id all name the user; the access token is of type access, the refresh token of type refresh, and expiresAt is the access token's expiry |
| UsersController.Login | todopalm-server/src/api/v1/controllers/users.ts:214-266 | unknown email: the account is created with the hash and theme "default", and tokens are issued; known email: nothing written, and the answer is 404 without a password, 401 on a wrong password, tokens otherwise |
| UsersController.GoogleLogin | todopalm-server/src/api/v1/controllers/users.ts:269-311 | the account found by email, or created without a password, gets tokens |
| UsersController.RefreshToken | todopalm-server/src/api/v1/controllers/users.ts:314-346 | falsy token: 400; one that fails verification under the refresh secret: 403; otherwise a new pair for its subject |
| UsersController.RotateIssuedRefreshToken | todopalm-server/src/api/v1/controllers/users.ts:322-341 | an unexpired issued refresh token is exchanged for a pair whose access token passes the gate as the same user |
| UsersController.RotationWithinSameSecondRepeatsToken | todopalm-server/src/api/v1/controllers/users.ts:330-340 | within the second of issue, rotation returns the very same refresh token |
| UsersController.RefreshRejectsAccessToken | todopalm-server/src/api/v1/controllers/users.ts:322-328 | with distinct secrets an access token sent to the refresh endpoint gets 403 |
| TodosController.TodosWhereIdIs | todopalm-server/src/api/v1/controllers/todos.ts:7-11 | the filter as written keeps at most the todo whose own id equals the requester's id |
| TodosController.TodosOfUser | todopalm-server/src/api/v1/controllers/todos.ts:5-17 | the intended filter keeps exactly the requester's todos |
| TodosController.GetTodosAsWrittenMissesOwnedTodos | todopalm-server/src/api/v1/controllers/todos.ts:7-11 | a user owning todo "t1" gets nothing from the filter as written and that todo from the owner filter |
| TodosController.GetTodosAsWritten | todopalm-server/src/api/v1/controllers/todos.ts:5-17 | getTodos as written answers 200 with at most one todo, the one keyed by the requester's id |
| TodosController.GetTodos | todopalm-server/src/api/v1/controllers/todos.ts:5-17 | corrected getTodos answers 200 with exactly the requester's todos |
| TodosController.GetTodoById | todopalm-server/src/api/v1/controllers/todos.ts:20-34 | 200 always; the row when the id exists, null otherwise |
| TodosController.CreateTodo | todopalm-server/src/api/v1/controllers/todos.ts:37-92 | 201 exactly when the user exists and has a group and a truthy categoryId names an existing category; the todo is open, the requester's, in the newest group; otherwise 500 and nothing written |
| TodosController.SetCompleted | todopalm-server/src/api/v1/controllers/todos.ts:102-109 | only the flag of that todo changes; setting it to its current value changes nothing |
| TodosController.SetCompletedIdempotentAndReversible | todopalm-server/src/api/v1/controllers/todos.ts:95-138 | completing twice is completing once, and setting the flag back restores the table |
| TodosController.SetTodoCompleted | todopalm-server/src/api/v1/controllers/todos.ts:95-138 | the shared body of the two flag handlers: one row's flag set and the row answered, or 500 for an unknown id |
| TodosController.CompleteTodo | todopalm-server/src/api/v1/controllers/todos.ts:95-115 | the row's flag becomes true and the row is answered; unknown id: 500 |
| TodosController.UnCompleteTodo | todopalm-server/src/api/v1/controllers/todos.ts:118-138 | the row's flag becomes false and the row is answered; unknown id: 500 |
| TodosController.UpdateTodo | todopalm-server/src/api/v1/controllers/todos.ts:141-163 | only the given title and content of that row change; unknown id: 500 |
| TodosController.DeleteTodo | todopalm-server/src/api/v1/controllers/todos.ts:166-183 | exactly that row is removed, 204 with no body; unknown id: 500 |
| TodoGroupsController.TodosOfGroup | todopalm-server/src/api/v1/controllers/todoGroups.ts:11-13 | exactly the todos of the group |
| TodoGroupsController.GetTodoGroups | todopalm-server/src/api/v1/controllers/todoGroups.ts:5-21 | exactly the requester's groups, each with exactly its own todos |
| TodoGroupsController.GetTodoGroup | todopalm-server/src/api/v1/controllers/todoGroups.ts:24-46 | 404 "Todo group not found" exactly for an unknown id; otherwise the group with its todos |
| TodoGroupsController.LockTodoGroup | todopalm-server/src/api/v1/controllers/todoGroups.ts:49-67 | only the lock flag of that group is set, its status untouched; unknown id: 500 and nothing written |
| CategoriesController.GetCategories | todopalm-server/src/api/v1/controllers/categories.ts:5-18 | exactly the requester's categories |
| CategoriesController.GetCategory | todopalm-server/src/api/v1/controllers/categories.ts:21-40 | 404 "Category not found" exactly for an unknown id, else the row |
| CategoriesController.CategoryRows | todopalm-server/src/api/v1/controllers/categories.ts:49-52 | one row per input, name and icon copied, owned by the requester whatever userId the input carried |
| CategoriesController.Ids | todopalm-server/src/api/v1/controllers/categories.ts:48-53 | the ids of the inserted rows, in order |
| CategoriesController.InsertAllKeys | todopalm-server/src/api/v1/controllers/categories.ts:48-53 | after the inserts the keys are the old keys plus the new ids |
| CategoriesController.InsertAllValues | todopalm-server/src/api/v1/controllers/categories.ts:48-53 | inserting fresh distinct ids keeps every old row and stores each new row under its id |
| CategoriesController.CreateCategories | todopalm-server/src/api/v1/controllers/categories.ts:43-60 | each row takes the id the client sent or a store-assigned one, and the requester as owner; no array, a non-empty batch for an unknown user, or an id repeated or already taken gives 500 with nothing inserted; an empty batch gives 201 with count 0 and nothing written, whoever asks; otherwise 201 with the count, every old row kept and each new row stored under its id |
| CategoriesController.RowIds | todopalm-server/src/api/v1/controllers/categories.ts:49-52 | a row's id is the one its input carries, else the store-assigned one |
| CategoriesController.InsertRows | todopalm-server/src/api/v1/controllers/categories.ts:48-53 | the loop inserts the rows in order, leaving the table InsertAll of the old one |
| CategoriesController.UpdateCategory | todopalm-server/src/api/v1/controllers/categories.ts:63-82 | only the name of that row changes; unknown id: 500 |
| CategoriesController.DeleteCategory | todopalm-server/src/api/v1/controllers/categories.ts:85-100 | unknown id, or todos referring to it under a restricting action: 500 and nothing changed; otherwise the row is removed and answered, the todos become TodosAfterCategoryDelete, and no remaining todo refers to the category |
| Strings.TrimStart | src/pages/HomePage.tsx:30 | removes the leading white space, leaving a suffix that starts with a non-space |
| Strings.TrimEnd | src/pages/HomePage.tsx:30 | removes the trailing white space, leaving a prefix that ends with a non-space |
| Strings.TrimEmptyIffBlank | src/pages/HomePage.tsx:30 | `trim()` is empty exactly when the string is all white space |
| Strings.TrimIsInfix | src/pages/HomePage.tsx:35 | the trimmed text is a slice of the input with no white space at either end |
| Strings.IndexOf | todopalm-web/src/components/Auth/AuthBackground.tsx:19-21 | a specification helper for the e-mail description and for splitting the heading: the first position of the character |
| Strings.SplitPrefix | todopalm-web/src/components/Todos/TodoList.tsx:57 | a specification helper for the heading's fields: a field without the separator, then the separator, splits off as the first field |
| Strings.NatToString | todopalm-web/src/components/Todos/TodoList.tsx:57 | `${date}` and `${year}` print as decimal digits: one digit exactly below ten, a leading zero exactly for zero |
| Strings.NatToStringValue | todopalm-web/src/components/Todos/TodoList.tsx:57 | the printed digits denote the number printed |
| Strings.NatToStringInjective | todopalm-web/src/components/Todos/TodoList.tsx:57 | two numbers print alike only when they are equal |
| Strings.LeadingZerosValue | src/components/HistoryDialog.tsx:167 | zeros added on the left do not change the number the digits denote |
| Strings.PadZero | src/components/HistoryDialog.tsx:167 | only digits, and exactly as long as the larger of the width and the number's digit count |
| Strings.PadZeroValue | src/components/HistoryDialog.tsx:167 | the padded string is zeros followed by the number's own digits, and still denotes the number |
| Strings.ToUpperAscii | src/components/ThemeSelector.tsx:42 | lower-case ASCII letters map to their capitals; other characters are kept |
| LocalTodos.FindById | src/pages/HomePage.tsx:43 | the first todo with that id, or none exactly when no todo has it |
| LocalTodos.Toggled | src/pages/HomePage.tsx:66-68 | the todos with that id have their flag flipped; the rest are kept; length kept |
| LocalTodos.ToggledTwice | src/pages/HomePage.tsx:63-71 | toggling twice gives the list back |
| LocalTodos.Renamed | src/pages/HomePage.tsx:54-56 | the todos with that id get the text; the rest are kept |
| LocalTodos.RenamedFind | src/pages/HomePage.tsx:50-61 | after renaming, looking the id up finds the same todo with the new text |
| LocalTodos.WithoutMembers | src/pages/HomePage.tsx:76 | the filtered list holds exactly the todos whose id differs |
| LocalTodos.WithoutDistributes | src/pages/HomePage.tsx:76 | filtering distributes over concatenation, so order is kept |
| LocalTodos.WithoutAbsent | src/pages/HomePage.tsx:73-79 | removing an id no todo carries gives the list back |
| HomePage.AddTodoEffect | src/pages/HomePage.tsx:29-40 | blank input: no change; otherwise exactly one open todo with the trimmed text is appended to today's list, other dates are kept and the input is cleared |
| HomePage.EditTodoEffect | src/pages/HomePage.tsx:42-48 | edit mode starts with the text of the first todo with that id |
| HomePage.EditTodoAbsent | src/pages/HomePage.tsx:42-48 | an id not in today's list changes nothing |
| HomePage.SaveEditEffect | src/pages/HomePage.tsx:50-61 | blank text or no edited todo: no change; otherwise the edited todo gets the untrimmed text, ids and length kept, edit mode left |
| HomePage.ToggleEffect | src/pages/HomePage.tsx:63-71 | only flags of today's list change, and toggling twice restores the state |
| HomePage.RemoveEffect | src/pages/HomePage.tsx:73-79 | exactly the todos with that id leave today's list, the rest keep their order, other dates are untouched |
| HomePage.KeyDownEffect | src/pages/HomePage.tsx:81-89 | today's list grows by one only on Enter outside edit mode with a non-blank input |
| HomePage.HomePage.constructor | src/pages/HomePage.tsx:17-23 | the saved record or an empty one, with no input and no edit |
| HomePage.HomePage.SetNewTodo | src/pages/HomePage.tsx:102 | only the input changes |
| HomePage.HomePage.SetEditingText | src/pages/HomePage.tsx:134 | only the edit text changes |
| HomePage.HomePage.HandleAddTodo | src/pages/HomePage.tsx:29-40 | the new state is AddTodo of the old |
| HomePage.HomePage.HandleEditTodo | src/pages/HomePage.tsx:42-48 | the new state is EditTodo of the old |
| HomePage.HomePage.HandleSaveEdit | src/pages/HomePage.tsx:50-61 | the new state is SaveEdit of the old |
| HomePage.HomePage.ToggleTodo | src/pages/HomePage.tsx:63-71 | the new state is Toggle of the old |
| HomePage.HomePage.RemoveTodo | src/pages/HomePage.tsx:73-79 | the new state is Remove of the old |
| HomePage.HomePage.HandleKeyDown | src/pages/HomePage.tsx:81-89 | the new state is KeyDown of the old |
| HistoryDialog.DaysInMonth | src/components/HistoryDialog.tsx:16-29 | 28 days exactly for February, 30 exactly for April, June, September and November, otherwise 31 |
| HistoryDialog.DaysInMonthAgainstCalendar | src/components/HistoryDialog.tsx:16-29 | the table matches the Gregorian calendar except February of a leap year, which it shortens by one |
| HistoryDialog.AddMonths | src/components/HistoryDialog.tsx:155-158 | the month k months later, as a valid month |
| HistoryDialog.PrevThenNext | src/components/HistoryDialog.tsx:153-160 | one month back then forward (or forward then back) is the starting month |
| HistoryDialog.PadTwo | src/components/HistoryDialog.tsx:167 | a day below 100 prints as its two decimal digits |
| HistoryDialog.DateKeyInjective | src/components/HistoryDialog.tsx:165-168 | different days of a month get different keys |
| HistoryDialog.CalendarDays | src/components/HistoryDialog.tsx:162-168 | the loop lists the table's number of days, day d at index d-1, all keys distinct |
| HistoryDialog.StepPreservesValid | src/components/HistoryDialog.tsx:183-244 | every action keeps the shown month from six months before to seven months after the opening month, and the selected day one with an entry |
| HistoryDialog.OpenIsValid | src/components/HistoryDialog.tsx:32-44 | the dialog opens valid, on its own month |
| HistoryDialog.ArrowMovesOneMonth | src/components/HistoryDialog.tsx:186-203 | an enabled arrow moves exactly one month in its direction; a disabled one changes nothing |
| HistoryDialog.ArrowBounds | src/components/HistoryDialog.tsx:186-203 | with the whole-month `diff` truncated toward zero: Prev is enabled exactly above six months back; Next exactly below six months ahead, or at six when the clock has moved on, which reaches the seventh month; never beyond |
| HistoryDialog.SelectedDayEdits | src/components/HistoryDialog.tsx:46-64 | toggle and remove touch only the selected day; toggling twice restores; remove keeps exactly the other ids |
| HistoryDialog.HistoryDialog.constructor | src/components/HistoryDialog.tsx:32-44 | the opened state, valid |
| HistoryDialog.HistoryDialog.HandleArrow | src/components/HistoryDialog.tsx:186-203 | computes the truncated month difference and the new state is ClickArrow of the old, still valid |
| HistoryDialog.HistoryDialog.HandleSelectDay | src/components/HistoryDialog.tsx:244 | the new state is SelectDay of the old and stays valid |
| HistoryDialog.HistoryDialog.HandleBack | src/components/HistoryDialog.tsx:279-281 | back to the grid, valid |
| HistoryDialog.HistoryDialog.ToggleTodo | src/components/HistoryDialog.tsx:46-54 | the new state is ToggleSelected of the old |
| HistoryDialog.HistoryDialog.RemoveTodo | src/components/HistoryDialog.tsx:56-64 | the new state is RemoveSelected of the old |
| HistoryDialog.HistoryDialog.ShownDays | src/components/HistoryDialog.tsx:162-168 | the grid keys of the shown month |
| AuthOptions.Authorize | todopalm-web/src/lib/util/authOptions.tsx:20-49 | a user exactly when credentials exist and the login answer is ok; that user is the answer's body; a 401 gives none |
| AuthOptions.SignIn | todopalm-web/src/lib/util/authOptions.tsx:53-95 | credentials: accepted unchanged; Google: accepted exactly on an ok answer, which writes the four fields onto the user; other providers: accepted |
| AuthOptions.SessionCallback | todopalm-web/src/lib/util/authOptions.tsx:96-102 | the session gets exactly the token's four fields and keeps the rest |
| AuthOptions.NoRefreshBeforeExpiry | todopalm-web/src/lib/util/authOptions.tsx:111 | before the expiry second has passed, or without an expiry, the token is returned as it is |
| AuthOptions.RefreshOutcomes | todopalm-web/src/lib/util/authOptions.tsx:111-136 | a refresh keeps the id; a failed or incomplete answer keeps the token; a complete one replaces the three fields |
| AuthOptions.SignInCopiesUser | todopalm-web/src/lib/util/authOptions.tsx:104-109 | at sign-in the token takes the user's four fields |
| AuthOptions.FreshExpiryDefersRefresh | todopalm-web/src/lib/util/authOptions.tsx:111 | a token with a just-issued expiry asks for a refresh exactly once more than an hour has passed |
| AuthOptions.SessionToken.Jwt | todopalm-web/src/lib/util/authOptions.tsx:103-140 | the token becomes JwtCallback of the old one; a refresh is requested, with the current refresh token, exactly when the expiry has passed |
| AuthBackground.ValidEmailMatches | todopalm-web/src/components/Auth/AuthBackground.tsx:19-21 | a valid address matches the e-mail pattern |
| AuthBackground.MatchingEmailIsValid | todopalm-web/src/components/Auth/AuthBackground.tsx:19-21 | a string cut by the pattern is a valid address |
| AuthBackground.IsValidEmailMatchesPattern | todopalm-web/src/components/Auth/AuthBackground.tsx:19-21 | the description (no white space, one '@' with text before it, an inner '.' in the domain) agrees with the regular expression on every string |
| AuthBackground.Utf16Length | todopalm-web/src/components/Auth/AuthBackground.tsx:23-25 | `length` counts UTF-16 code units: between one and two per character, one per character exactly when all lie in the Basic Multilingual Plane |
| AuthBackground.PasswordLengthBounds | todopalm-web/src/components/Auth/AuthBackground.tsx:23-25 | six characters always pass and two never do; for BMP text, passing is six characters or more; "abcd" with an emoji passes |
| AuthBackground.IsValidSignup | todopalm-web/src/components/Auth/AuthBackground.tsx:27-38 | a valid sign-up is exactly a valid login with a confirmed password and a non-empty name |
| AuthBackground.EmptyFormIsInvalid | todopalm-web/src/components/Auth/AuthBackground.tsx:212-232 | the cleared form passes neither check |
| AuthBackground.AuthModal.constructor | todopalm-web/src/components/Auth/AuthBackground.tsx:10-17 | register mode with an empty form and a disabled button |
| AuthBackground.AuthModal.Edit | todopalm-web/src/components/Auth/AuthBackground.tsx:84-155 | typing changes only the form |
| AuthBackground.AuthModal.SwitchMode | todopalm-web/src/components/Auth/AuthBackground.tsx:212-218 | the mode flips, the four fields are cleared and the new mode's button is disabled |
| AuthBackground.AuthModal.Submit | todopalm-web/src/components/Auth/AuthBackground.tsx:40-46 | a request is sent exactly when the current mode's button is enabled; it carries the typed e-mail, password and name and the callback "/categories", with a valid e-mail and a password of six UTF-16 units |
| ChooseCategoriesModal.IconFor | todopalm-web/src/components/Categories/ChooseCategoriesModal.tsx:139 | a name with an icon keeps it; any other name falls back to "Other" |
| ChooseCategoriesModal.IconOfOfferedIsName | todopalm-web/src/components/Categories/ChooseCategoriesModal.tsx:139 | every offered category is its own icon |
| ChooseCategoriesModal.InitialSelection | todopalm-web/src/components/Categories/ChooseCategoriesModal.tsx:53-60 | all ten categories, in order, each its own icon |
| ChooseCategoriesModal.Unchecked | todopalm-web/src/components/Categories/ChooseCategoriesModal.tsx:144 | keeps exactly the entries with another name |
| ChooseCategoriesModal.UncheckedDistinct | todopalm-web/src/components/Categories/ChooseCategoriesModal.tsx:143-145 | removal keeps names pairwise distinct |
| ChooseCategoriesModal.InitialSelectionConsistent | todopalm-web/src/components/Categories/ChooseCategoriesModal.tsx:53-60 | the first selection is consistent: known names, own icons, no repeats |
| ChooseCategoriesModal.ChooseCategoriesModal.constructor | todopalm-web/src/components/Categories/ChooseCategoriesModal.tsx:51-64 | everything selected, occupation "Student", not loading |
| ChooseCategoriesModal.ChooseCategoriesModal.ChooseOccupation | todopalm-web/src/components/Categories/ChooseCategoriesModal.tsx:99-101 | only the occupation changes |
| ChooseCategoriesModal.ChooseCategoriesModal.Click | todopalm-web/src/components/Categories/ChooseCategoriesModal.tsx:133-147 | the box's checked state flips (append at the end, or remove every entry of the name), other boxes keep theirs, the selection stays consistent |
| ChooseCategoriesModal.ChooseCategoriesModal.Submit | todopalm-web/src/components/Categories/ChooseCategoriesModal.tsx:152-157 | occupation and selection are sent, with loading set, exactly when the form is valid |
| CreateTodoModal.InitialCategory | todopalm-web/src/components/Todos/CreateTodoModal.tsx:20-22 | the first category's name, or "" without categories |
| CreateTodoModal.FindCategoryId | todopalm-web/src/components/Todos/CreateTodoModal.tsx:40-41 | the id of the first category with that name; none exactly when no category has it |
| CreateTodoModal.InitialCategoryIsFound | todopalm-web/src/components/Todos/CreateTodoModal.tsx:20-41 | the preselected name is always found, as the first category |
| CreateTodoModal.CreateTodoModal.constructor | todopalm-web/src/components/Todos/CreateTodoModal.tsx:18-27 | empty fields, the first category, not loading, disabled |
| CreateTodoModal.CreateTodoModal.Edit | todopalm-web/src/components/Todos/CreateTodoModal.tsx:105-152 | typing changes only the three fields |
| CreateTodoModal.CreateTodoModal.HandleAddTodo | todopalm-web/src/components/Todos/CreateTodoModal.tsx:31-54 | disabled: nothing; unknown category: nothing sent and stuck loading; otherwise title, content and the first matching id are sent, and the fields are cleared with loading reset |
| TodoList.NamesAreAbbreviations | todopalm-web/src/components/Todos/TodoList.tsx:35-49 | seven day names and twelve month names, starting Sun and Jan, each a three-letter abbreviation |
| TodoList.FormattedDate | todopalm-web/src/components/Todos/TodoList.tsx:34-58 | the heading's length is the two names, the two numbers and three spaces |
| TodoList.AbbreviationHasNoSpace | todopalm-web/src/components/Todos/TodoList.tsx:35-49 | a name holds no space |
| TodoList.FormattedDateFields | todopalm-web/src/components/Todos/TodoList.tsx:57 | the heading splits on spaces into exactly the day name, day, month name and year |
| TodoList.RowLabels | todopalm-web/src/components/Todos/TodoList.tsx:224 | rows are numbered 1..n in order |
| TodoList.CheckButton | todopalm-web/src/components/Todos/TodoList.tsx:264-269 | uncomplete exactly for a completed todo |
| TodoList.CheckButtonFlips | todopalm-web/src/components/Todos/TodoList.tsx:264-269 | with the token sent as a header, the click passes the gate as the signed-in user, the handler flips the flag and no other todo changes; the two paths never coincide |
| TodoList.CheckButtonAsWrittenIsRejected | todopalm-web/src/api/todos/index.ts:71-97 | the click as the service sends it gets 401 "No token provided" whatever the token |
| TodosRoutes.TodoPath | todopalm-web/src/api/todos/routes.ts:3-5 | "/todos/" followed by the id |
| TodosRoutes.CompleteTodo | todopalm-web/src/api/todos/routes.ts:7 | the todo's path followed by "/complete" |
| TodosRoutes.UnCompleteTodo | todopalm-web/src/api/todos/routes.ts:8 | the todo's path followed by "/uncomplete" |
| TodosRoutes.SharedPaths | todopalm-web/src/api/todos/routes.ts:2-6 | get, update and delete share one path; CREATE_TODO is GET_TODOS with a trailing slash |
| TodosRoutes.BuildersInjective | todopalm-web/src/api/todos/routes.ts:3-8 | each builder tells ids apart |
| TodosRoutes.CompleteNeverUncomplete | todopalm-web/src/api/todos/routes.ts:7-8 | a complete path is never an uncomplete path, whatever the ids |
| TodosService.PutAsWritten | todopalm-web/src/api/todos/index.ts:56-97 | `put(route, { headers })` sends to "/api/v1" plus the route with no Authorization header, the headers object as its body |
| TodosService.PutWithHeader | todopalm-web/src/api/api.ts:3-8 | the same request with the token as a "Bearer " Authorization header and no body |
| TodosService.TodoRoutesAreGuarded | todopalm-web/src/api/todos/index.ts:56-97 | the update, complete and uncomplete paths are not allow-listed by the gate |
| TodosService.PutAsWrittenIsRejected | todopalm-web/src/api/todos/index.ts:56-97 | each of the three PUTs as written gets 401 "No token provided", whatever the token and the clock |
| TodosService.PutWithHeaderPasses | todopalm-web/src/api/todos/index.ts:56-97 | each of the three PUTs with a fresh access token in the header passes the gate as the token's user |
| CategoriesRoutes.CategoryPath | todopalm-web/src/api/categories/routes.ts:3-6 | "/categories/" followed by the id |
| CategoriesRoutes.SharedPaths | todopalm-web/src/api/categories/routes.ts:2-6 | list and create share a path; get, update and delete share one |
| CategoriesRoutes.PathsUnderCategories | todopalm-web/src/api/categories/routes.ts:1-7 | every path starts with "/categories" |
| CategoriesRoutes.CategoryPathInjective | todopalm-web/src/api/categories/routes.ts:3-6 | the builders tell ids apart |
| ThemeContext.Stored | src/context/ThemeContext.tsx:32 | the stored value exactly when the key is present |
| ThemeContext.InitialTheme | src/context/ThemeContext.tsx:31-34 | a non-empty stored value, unchecked, else "system" |
| ThemeContext.Resolve | src/context/ThemeContext.tsx:43-57 | the applied theme is never "system": the chosen theme itself, or dark exactly when dark is preferred |
| ThemeContext.OfferedThemesResolve | src/context/ThemeContext.tsx:37-57 | an offered theme is applied as light or dark |
| ThemeContext.ChosenThemeIsRestored | src/context/ThemeContext.tsx:78-81 | the stored choice is the theme the next load starts with |
| ThemeContext.ThemeProvider.constructor | src/context/ThemeContext.tsx:31-59 | the stored theme, applied at once |
| ThemeContext.ThemeProvider.ApplyTheme | src/context/ThemeContext.tsx:43-57 | the applied theme and both classes are the resolved theme |
| ThemeContext.ThemeProvider.SystemChange | src/context/ThemeContext.tsx:61-68 | a preference change moves the applied theme only while the theme is "system" |
| ThemeContext.ThemeProvider.ChangeTheme | src/context/ThemeContext.tsx:78-81 | the theme is set, stored under "theme" and applied |
| ThemeUtil.ShouldBeBlackText | todopalm-web/src/lib/util/theme.tsx:1-12 | true exactly for "polar-bg", "vintage-bg" and "sakura-bg" |
| ThemeUtil.OtherThemesGetWhiteText | todopalm-web/src/lib/util/theme.tsx:11 | "default", other spellings and other strings give false |
| ThemeSelector.CapitalizeFirstLetter | src/components/ThemeSelector.tsx:41-43 | length kept, "" kept, the tail kept, the first character not lower-case afterwards |
| ThemeSelector.CapitalizeIdempotent | src/components/ThemeSelector.tsx:41-43 | capitalising twice is capitalising once |
| ThemeSelector.MenuItems | src/components/ThemeSelector.tsx:31-35 | one item per theme, in order, labelled with the capitalised name |
| ThemeSelector.OfferedMenu | src/components/ThemeSelector.tsx:31-35 | the menu reads Light, Dark, System |
| ThemeSelector.IconFor | src/components/ThemeSelector.tsx:16-21 | a sun exactly for light, a moon exactly for dark |
| ThemeSelector.OfferedThemesHaveIcon | src/components/ThemeSelector.tsx:16-21 | an offered theme always has an icon; any other stored theme has none |
| ThemeSelector.Choose | src/components/ThemeSelector.tsx:32 | choosing an item sets, stores and applies its theme |

## Left out

- Signing and parsing of JSON Web Tokens and bcrypt are abstract. The codec is only assumed to round-trip and never to produce "".
- Prisma is a set of in-memory maps. Store failures are modelled where they are deterministic: a missing row on update or delete; a foreign key to a missing row on create or connect; the unique e-mail in `updateUser`; an id collision in `createMany`; and a delete refused by a restricting referential action. Connection errors and other exceptions are not modelled.
- The Prisma schema is not part of this model, so the referential actions of a todo's group, a todo's category and a category's user are a parameter (`Store.Relations`). Every combination Prisma accepts is covered.
- The "active" and "unlocked" defaults of a new group come from a schema that is not part of this model. They are taken from the mocks of the users tests.
- Requests run one after another. The race between two concurrent `getMe` calls at rollover is not modelled.
- `toDateString()` in the server's time zone is the `dayOf` parameter, and the clock is `nowMs`.
- Store.NewestGroup: Prisma's order among groups with equal creation times is left open, so any of them may be returned.
- GET /users/:id (`getUser`) is a plain read that the other handlers already cover; it is not modelled.
- A completion timestamp is not modelled, because no handler sets one.
- The HTTP wiring is not modelled beyond the three PUT wrappers of the todo service. `BASE_URL` is taken to be unset, so the default base URL applies. The GET and POST wrappers pass their headers correctly and are not modelled.
- HistoryDialog.DialogState.MonthsDiff: the clock is taken to lag the shown month's instant by less than one month, counting the days moment's month arithmetic clamps away. A dialog kept open for more than a month is not modelled.
- HistoryDialog.HistoryDialog.ToggleTodo: it requires a selected day, which the dialog's only caller guarantees.
- The overdue highlighting of the history dialog compares due times against the wall clock, and is not modelled.
- `localStorage` writes of the home page and history dialog are I/O and are not modelled. The document class writes of the theme provider are fields.
- Rendering, styling, router refreshes, modal open and close, and `console` output are not modelled.
- ThemeSelector.CapitalizeFirstLetter: upper-cases ASCII letters only. JavaScript's `toUpperCase` also maps other letters and can lengthen a string ("ß" becomes "SS").
- AuthOptions.SessionToken.Jwt: a network exception while refreshing is not modelled. It would reject the callback.
- TodoList.FormattedDate: the day, month and year come from `Date` as parameters. The year is taken as non-negative.
- The copies of `getFormattedDate` in the web client's home and categories pages are the same function and are covered by `TodoList.FormattedDate`.
- AuthBackground.Utf16Length: a JavaScript string can hold a lone surrogate, which a Dafny string cannot. Such passwords are not modelled.
- The Google button of the sign-in form always calls `signIn("google")` with the same callback page. It has no condition and is not modelled.
- `useKeyboardShortcut`, the headers, menus, overlays and list components are not modelled, because they are rendering and DOM events.

## Findings

| source | as written | input that shows it | evidently intended | confidence | as-written member | corrected member |
|---|---|---|---|---|---|---|
| todopalm-server/src/api/v1/controllers/todos.ts:7-11 | getTodos filters `where: { id: req.user.id }`, on the todo's own id | user "u1" owning only todo "t1": the answer is empty | `where: { userId: req.user.id }`, the requester's todos | high (not executed) | TodosController.GetTodosAsWrittenMissesOwnedTodos | TodosController.GetTodos |
| todopalm-web/src/api/todos/index.ts:56-97 | `updateTodo`, `completeTodo` and `unCompletetodo` pass `{ headers }` as axios' data argument, so the token travels in the body | any click on the check button, for any todo and any token: the gate answers 401 "No token provided" | the headers as the config argument, `put(route, undefined, { headers })` | high (not executed) | TodoList.CheckButtonAsWrittenIsRejected | TodoList.CheckButtonFlips |
