# A verified model of a to-do list service and its client

The system is a to-do list. A small HTTP service keeps each user's tasks in a hosted `tasks` table.
A browser client caches those tasks, tracks who is signed in, and guards its pages. This project
models the decision and state-update logic of both halves in Dafny, and proves what that logic
promises:

- **Task service** (`task_model.dfy`, `api.dfy`, `task_controller.dfy`). The table is a class
  holding the rows in id order and the next id the store will hand out. The four handlers are
  methods on it. Every query is scoped to the authenticated user's id. Create validates the
  title and applies defaults. Update applies a partial patch in which "absent" differs from
  "null", and rejects ids that are NaN or zero. Every way a store call can fail maps to a status
  code. The list's four-key order is a verified insertion sort, together with a proof that any
  sorted rearrangement of the same rows is that sort's result.
- **Auth guard and dispatch** (`auth_guard.dfy`, `task_routes.dfy`). The Authorization header is
  checked, the `Bearer ` prefix is stripped as `String.prototype.replace` strips it, and the
  provider's answer decides between 401, 500 and attaching the user. The route table sends
  every request through the guard before any handler runs.
- **Client task cache** (`tasks_store.dfy`). The list is replaced, appended to, changed at the
  first matching index, or filtered, and only after an ok reply.
- **Client auth store and navigation** (`auth_store.dfy`, `navigation.dfy`, `router.dfy`). The
  auth store's session and user, the register-once listener, the route table, the redirect
  rule and the `beforeEach` hook that may first load the session.
- **Theme** (`ui_store.dfy`). A single flag that is flipped.
- Shared pieces: JavaScript truthiness, `String(v)`, `trim()` over the ECMAScript whitespace
  set, first-occurrence `replace`, and decimal numerals (`js.dfy`); an order-preserving filter
  (`seqs.dfy`); `Option` (`common.dfy`).

Every external call is an input to the operation that makes it:

- a store call's outcome is `StoreOutcome`;
- the identity provider is a function from token to `ProviderReply`;
- `Number(req.params.id)` is a function from string to `Number`;
- the server's reply to the client is `Reply`;
- `getSession()` is `SessionReply`;
- a sign-in or sign-out refusal is an optional message.

Navigations the client starts come back as results rather than being performed.

The Swagger document declares the path `id` of update and delete as an integer
(`backend/swagger.js:169` and `:217`). The code only refuses NaN and zero
(`backend/controllers/taskController.js:108` and `:168`), so negative, fractional and infinite ids
reach the store. The model follows the code, and `TaskController.IdCheck` states it.

## Model

| member | source | states |
|---|---|---|
| Js.Trim | backend/controllers/taskController.js:57 | the trimmed string starts and ends with a non-space, and is empty exactly when the input is all whitespace |
| Js.TrimSlice | backend/controllers/taskController.js:64 | what trim keeps is a contiguous slice of the input, and what it drops at both ends is whitespace |
| Js.TrimIdempotent | backend/controllers/taskController.js:64 | trimming a stored title again changes nothing |
| Js.TrimOfTrimmed | backend/controllers/taskController.js:64 | a string with no whitespace at either end is its own trim |
| Js.TruthyNonStringNotBlank | backend/controllers/taskController.js:57 | a truthy non-string title never turns blank under `String(title).trim()` |
| Js.NatToString | frontend/src/stores/tasks.js:29 | `String(n)` for a natural number is a non-empty run of digits with no leading zero |
| Js.NatToStringValue | frontend/src/stores/tasks.js:29 | reading back the numeral of a status gives the status |
| Js.IntToString | frontend/src/stores/tasks.js:29 | `String(n)` has no whitespace, and starts with a minus sign exactly when n is negative |
| Js.ReplaceFirstAt | backend/middleware/auth.js:7 | `replace` splices the replacement in at the first occurrence of the pattern and keeps everything else |
| Js.ReplaceFirstAbsent | backend/middleware/auth.js:7 | `replace` leaves a string without the pattern unchanged |
| Seqs.Filter | frontend/src/stores/tasks.js:118 | the filtered list holds accepted elements of the input, and every accepted element is in it |
| Seqs.FilterAppend | frontend/src/stores/tasks.js:118 | filtering distributes over concatenation, so kept elements keep their relative order |
| Seqs.FilterIdempotent | backend/controllers/taskController.js:174-178 | filtering twice by one test is filtering once |
| Seqs.FilterKeepsPairwise | backend/controllers/taskController.js:16-19 | an ordering between earlier and later elements survives filtering |
| TaskModel.TitleAccepted | backend/controllers/taskController.js:57-60 | a string title passes exactly when not all whitespace, true and non-zero numbers pass, and false, 0, null and a missing title are rejected |
| TaskModel.NewRow | backend/controllers/taskController.js:62-75 | the inserted row carries the store-assigned id and timestamp and the authenticated owner |
| TaskModel.NewRowFields | backend/controllers/taskController.js:62-69 | the owner is the authenticated id whatever the body says, the title is trimmed, each optional column holds the value the body sends (`dueDate` landing in `due_date`) and is null when the body sends null or nothing, and completed is the truthiness of the field |
| TaskModel.NewRowDefaults | backend/controllers/taskController.js:65-68 | a title-only body gives a null description, due date and priority, and completed false |
| TaskModel.ApplyPatch | backend/controllers/taskController.js:124-128 | an update never changes a row's id, owner or creation time |
| TaskModel.PatchSemantics | backend/controllers/taskController.js:116-122 | each column is kept when its key is absent, cleared by an explicit null, and replaced by a value; a present title is stored trimmed |
| TaskModel.EmptyPatchIsIdentity | backend/controllers/taskController.js:116-122 | a body without any of the five keys leaves the row as it was |
| TaskModel.PatchIdempotent | backend/controllers/taskController.js:124-126 | applying the same update twice is applying it once |
| TaskModel.UpdateBlankTitle | backend/controllers/taskController.js:118 | update does not check blankness: every all-whitespace title is stored as the empty string |
| TaskModel.UpdateNullTitle | backend/controllers/taskController.js:118 | an explicit null title is stored as the text "null", not as a clear |
| TaskModel.NullTitleText | backend/controllers/taskController.js:118 | `String(null).trim()` is "null" |
| TaskModel.NullsLastTotal | backend/controllers/taskController.js:21-22 | nulls-last order is irreflexive, and decides every pair of distinct values one way |
| TaskModel.NullsLastTransitive | backend/controllers/taskController.js:21-22 | nulls-last order is transitive |
| TaskModel.CompletedRankInjective | backend/controllers/taskController.js:20 | the completed key separates false, true and null |
| TaskModel.BeforeKeys | backend/controllers/taskController.js:20-23 | open before done; then earlier due dates before later ones and dated before undated; then, with equal due dates, lower priorities before higher ones and prioritised before unprioritised; then by ascending id |
| TaskModel.BeforeIrreflexive | backend/controllers/taskController.js:20-23 | no row precedes itself |
| TaskModel.BeforeAsymmetric | backend/controllers/taskController.js:20-23 | the list order never puts two rows both ways round |
| TaskModel.BeforeTransitive | backend/controllers/taskController.js:20-23 | the list order is transitive |
| TaskModel.BeforeTotal | backend/controllers/taskController.js:20-23 | the list order ranks every two rows with distinct ids |
| TaskModel.Insert | backend/controllers/taskController.js:20-23 | inserting into a sorted list gives a sorted list holding exactly the old rows and the new one |
| TaskModel.SortByKeys | backend/controllers/taskController.js:16-23 | the listed rows are sorted by the four keys and are a permutation of the selected rows |
| TaskModel.SortedUnique | backend/controllers/taskController.js:20-23 | two sorted lists of the same rows are equal, so the order fixes the answer |
| TaskModel.DeleteScope | backend/controllers/taskController.js:174-178 | delete removes exactly the rows matching both id and owner, and keeps every row of any other owner |
| TaskModel.DeleteIdempotent | backend/controllers/taskController.js:174-190 | repeating a delete leaves the table as the first delete left it |
| TaskModel.FindRow | backend/controllers/taskController.js:124-130 | the row the update finds matches both id and owner and is the first such row, and none is found exactly when no row matches |
| TaskModel.MatchIsUnique | backend/controllers/taskController.js:126-128 | in a table with increasing ids at most one row matches an id and owner |
| TaskModel.OwnedDistinct | backend/controllers/taskController.js:16-19 | one owner's rows have distinct ids |
| TaskModel.WellFormedAppend | backend/controllers/taskController.js:71-75 | an insert with the next id keeps ids increasing and in range |
| TaskModel.WellFormedReplace | backend/controllers/taskController.js:124-126 | an update that keeps the id keeps the table well formed |
| TaskModel.WellFormedDelete | backend/controllers/taskController.js:174-178 | a delete keeps the table well formed |
| TaskController.IdCheck | backend/controllers/taskController.js:107-110 | NaN and zero are refused, and every other number, negative, fractional and infinite ones included, passes |
| TaskController.TaskTable.GetAllTasks | backend/controllers/taskController.js:7-40 | 401 without an id; 500 on a store failure; otherwise 200 with exactly the caller's rows as a permutation, sorted by the four keys; the table is only read |
| TaskController.TaskTable.CreateTask | backend/controllers/taskController.js:46-94 | 401, 400 for a rejected title and 500 on failure each leave the table unchanged; otherwise 201 with one row appended, owned by the caller |
| TaskController.TaskTable.Insert | backend/controllers/taskController.js:71-75 | the store's insert appends the row with the next id and consumes that id |
| TaskController.TaskTable.UpdateTask | backend/controllers/taskController.js:100-154 | 401, 400 for NaN or zero, 500 and 404 leave the table unchanged, and a completed query for an infinite id finds no row; otherwise only the one row matching id and owner is patched and returned |
| TaskController.TaskTable.DeleteTask | backend/controllers/taskController.js:160-197 | 401, 400 and 500 leave the table unchanged; otherwise the matching rows (none for an infinite id) are removed and the answer is 200 Deleted whether or not one existed |
| AuthGuard.BearerToken | backend/middleware/auth.js:7 | a `Bearer <t>` header yields token `t` |
| AuthGuard.BearerStrippedOnce | backend/middleware/auth.js:7 | only the first `Bearer ` is removed |
| AuthGuard.BareToken | backend/middleware/auth.js:7 | a header without `Bearer ` is sent to the provider as it is |
| AuthGuard.Decide | backend/middleware/auth.js:3-17 | a missing or empty header gives 401 "No token provided"; a provider error or no user gives 401 "Invalid token"; an exception gives 500 "Auth failure"; only the provider's user for the stripped token is accepted |
| AuthGuard.NoHeaderIgnoresProvider | backend/middleware/auth.js:5-6 | without a header the provider is never consulted |
| AuthGuard.BearerHeaderAsksForToken | backend/middleware/auth.js:7-13 | with a `Bearer <t>` header the request is accepted exactly when the provider knows `t`, and with that user |
| AuthGuard.CheckAuth | backend/middleware/auth.js:3-17 | exactly one of answering and calling next happens; on acceptance `req.user` is the provider's user, and on rejection the request is untouched |
| TaskRoutes.Dispatch | backend/routes/taskRoutes.js:9-12 | GET and HEAD reach list and POST reaches create only on `/`; PUT and DELETE reach update and delete only on a single non-empty segment, which is passed as the id; every other request reaches no handler |
| TaskRoutes.DispatchRoundTrip | backend/routes/taskRoutes.js:9-12 | every handler is reached by its own method and path, with its id |
| TaskRoutes.DispatchInverse | backend/routes/taskRoutes.js:9-12 | a matched request was made with its route's path and its method, or with HEAD for the GET route |
| TaskRoutes.Pipeline | backend/routes/taskRoutes.js:7-12 | the guard decides first on every request; a handler is invoked only for an accepted request, with the guard's user |
| TaskRoutes.NoHandlerWithoutGuard | backend/routes/taskRoutes.js:7 | a request the guard refuses reaches no handler on any path or method |
| TaskRoutes.MissingHeaderRefused | backend/routes/taskRoutes.js:7 | a request without a header is refused with 401 whatever it asks for |
| TaskRoutes.Serve | backend/routes/taskRoutes.js:7-12 | a refused request gets the guard's answer and an unmatched one none, both leaving the table unchanged; a matched one attaches the user, and its answer and the new rows and next id are exactly what that route's handler gives for the attached user (list, create, update or delete with the parsed id) |
| TasksStore.FailureText | frontend/src/stores/tasks.js:28-38 | a network failure records its own message, and a non-ok reply records the action's text followed by the status |
| TasksStore.StatusInText | frontend/src/stores/tasks.js:29 | the status of a rejected reply can be read back from the recorded error |
| TasksStore.FindIndex | frontend/src/stores/tasks.js:91 | -1 exactly when no cached task has the id, otherwise the first position that has it |
| TasksStore.WithoutIdScope | frontend/src/stores/tasks.js:118 | removal keeps every task with another id, keeps none with the id, and keeps the order |
| TasksStore.WithoutIdIdempotent | frontend/src/stores/tasks.js:118 | removing an id twice is removing it once |
| TasksStore.ReplaceScope | frontend/src/stores/tasks.js:91-97 | a toggle keeps the length and every index but the first match, which gets the server's row; with no match the list is unchanged |
| TasksStore.OnlyFirstReplaced | frontend/src/stores/tasks.js:91-93 | a later task with the same id is never the one replaced |
| TasksStore.Store.constructor | frontend/src/stores/tasks.js:13-17 | the cache starts empty, not loading and without error |
| TasksStore.Store.Fetch | frontend/src/stores/tasks.js:20-42 | an ok reply replaces the list with the server's in order, with the alias added; a failure keeps the list and sets the error; loading is false afterwards |
| TasksStore.Store.Create | frontend/src/stores/tasks.js:44-70 | an ok reply appends exactly one task after all others; a failure keeps the list and sets the error |
| TasksStore.Store.Toggle | frontend/src/stores/tasks.js:72-102 | an ok reply replaces only the first task with the id; a failure keeps the list and sets the error |
| TasksStore.Store.Remove | frontend/src/stores/tasks.js:104-123 | an ok reply drops every task with the id; a failure keeps the list and sets the error |
| Navigation.Resolve | frontend/src/router/index.js:7-22 | `/`, `/dashboard` and `/tasks` resolve to Login, Dashboard and Tasks, and every other path to NotFound |
| Navigation.ResolveRoundTrip | frontend/src/router/index.js:7-20 | each declared route's path resolves back to it |
| Navigation.UndeclaredIsNotFound | frontend/src/router/index.js:21 | an undeclared path is NotFound, which needs no sign-in |
| Navigation.Guard | frontend/src/router/index.js:37-46 | a protected route without a user redirects to Login, Login with a user redirects to Dashboard, and every other case proceeds |
| Navigation.NotFoundProceeds | frontend/src/router/index.js:42-46 | the catch-all page never redirects |
| Navigation.RedirectSettles | frontend/src/router/index.js:37-46 | a redirect's target is accepted under the same sign-in state and differs from the route asked for, so the guard cannot loop |
| AuthStore.Store.constructor | frontend/src/stores/auth.js:6-12 | the store starts signed out, not loading, without error and with no listener |
| AuthStore.Store.Init | frontend/src/stores/auth.js:21-61 | a found session replaces the store's, its user becomes the store's user, the listener is registered once, and a signed-in user on Login is sent to Dashboard; an error clears session and user and records the message; loading ends false |
| AuthStore.Store.OnAuthStateChange | frontend/src/stores/auth.js:40-51 | the event's session and its user are copied in, and only sign-in and sign-out navigate |
| AuthStore.Store.SignInWithGoogle | frontend/src/stores/auth.js:63-84 | user and session are never touched, a refusal is recorded, and loading ends false |
| AuthStore.Store.SignOut | frontend/src/stores/auth.js:86-102 | success clears session and user; a refusal keeps them and records the error; loading ends false |
| AuthStore.InitTwice | frontend/src/stores/auth.js:38-40 | two successful inits leave one registered listener |
| Router.BeforeEach | frontend/src/router/index.js:29-47 | init runs exactly when there is no user and nothing is loading, and otherwise the store is untouched; when it runs it leaves the session found (or none, with the error message), the matching user, the listener registered once on success, and a dashboard navigation exactly when a user is found while leaving the login page; the redirect rule then sees the user init left |
| UiStore.Store.constructor | frontend/src/stores/ui.js:4-6 | the dark theme starts off |
| UiStore.Store.ToggleTheme | frontend/src/stores/ui.js:8 | the flag becomes its negation, and nothing else can change |
| UiStore.ToggleTwice | frontend/src/stores/ui.js:8 | two toggles restore the original theme |

`AuthStore.Store.IsAuthenticated` is `user.Some?`, so `isAuthenticated` holds exactly when there
is a user. `AuthStore.Store.Valid` keeps the user equal to the session's user, and keeps one
listener registered once the listener flag is set. `TaskController.TaskTable.Valid` keeps the
table's ids increasing and below the next id.

## Left out

- The hosted database and identity provider are not modelled. Each call's outcome is an input.
  Whether `.single()` reports "no matching row" as an error or as null data is library
  behaviour. The model follows the code's branch: no row means 404.
- TaskModel.TaskBody: titles are modelled as JSON strings, booleans, integers, null or missing.
  Fractional numbers, arrays and objects as titles are not modelled. A number's `String` form is
  that of an integer.
- TaskModel.TaskBody: the optional fields are typed. A description is a string, a due date an
  integer date, a priority an integer and `completed` a boolean, each also null or missing.
  A body whose field has another JSON type (a string priority, `completed: 1` or
  `completed: "false"`) cannot be expressed. In particular the truthiness `!!completed` takes of
  a non-boolean `completed` on create is not modelled, and neither is the store's coercion of
  such values on update.
- TaskModel.NewRow: due dates are integers ordered as dates; their text format and a malformed
  date are not modelled.
- TaskModel.CompletedRank: a null `completed` sorts after false and true. This follows the
  store's ascending default. The code gives no nulls option for that key.
- TaskController.TaskTable.GetAllTasks: the store always returns a list here, so the `data ?? []`
  fallback has no case to cover.
- TaskController.IdAccepted: `Number` gives an infinity for the segments `Infinity`, `-Infinity`
  or `1e400`, and such an id passes the check. What the store answers for it is not modelled
  beyond the outcome input. A store error on it is the `StoreError` outcome, answered 500. A
  query that completes is modelled as finding no row, since row ids are integers.
- TaskController.CreateEffect: ids are assumed gap-free. A failed insert leaves the next id as it
  was, while a store identity column may use up an id on a failed insert.
- HTTP transport, JSON encoding, CORS, logging, the Swagger document and the application setup
  are not modelled. In particular, the delete 404 that the Swagger document lists is never
  produced by the code.
- The two mount points of the task router are treated as one, as they are mounted the same way.
- TaskRoutes.Serve: Express drops the body of an answer to HEAD. The model returns the list
  handler's full answer for HEAD `/`.
- TaskRoutes.Dispatch: paths arrive already split into segments. Express's case-insensitive
  matching, trailing slashes and percent-decoding are not modelled.
- Navigation.Resolve: vue-router's case-insensitive matching and optional trailing slash are not
  modelled; paths are compared exactly.
- Asynchrony is not modelled. Each action is atomic, so promise interleavings and a second
  action starting while one is loading are out of scope. The loading flag is visible as true
  only inside an action.
- Router.BeforeEach: `from` is one of the four named routes. The router's start location, the
  `from` of the first navigation, has no name and is not modelled. The login test of init is
  false on it, as it is on NotFound, so passing NotFound in its place gives the same results.
- Navigation is returned, not performed. Failures of `router.push`, OAuth redirects, the browser
  location and the app bootstrap are not modelled.
- TasksStore.Store: `tasks` is a value sequence that each action reassigns. The in-place `push`
  of create and the index assignment of toggle are modelled by their resulting contents. A
  caller holding the reactive array and seeing it change in place is not modelled.
- TasksStore.Store.Fetch: a reply body that is not valid JSON is not modelled. Neither is an
  error whose `message` is missing, for which `String(err)` would be used. Failures carry their
  message directly.
- AuthStore.AuthEvent: the provider's event names are an enumeration rather than strings.
