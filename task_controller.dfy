/**
 * The four task handlers over the `tasks` table. The table is held in memory as the rows in
 * id order together with the next id the store will assign; every query is scoped to the
 * authenticated user's id. Whether a store call fails is an input (`StoreOutcome`).
 */
module TaskController {
  import opened Common
  import opened Js
  import opened TaskModel
  import opened Api

  /** `req.user?.id`, when it is truthy: a missing user or an empty id is no id. */
  function AuthenticatedId(user: Option<User>): Option<UserId> {
    if user.Some? && user.value.id != "" then Some(user.value.id) else None
  }

  /** `!id || Number.isNaN(id)` rejects: NaN and zero are refused, every other number passes. */
  predicate IdAccepted(n: Number) {
    match n
    case NaN => false
    case Finite(r) => r != 0.0
    case Infinite(_) => true
  }

  /** The id check refuses only NaN and zero; negative, fractional and infinite ids get through. */
  lemma IdCheck(r: real, negative: bool)
    ensures !IdAccepted(NaN) && !IdAccepted(Finite(0.0))
    ensures r != 0.0 ==> IdAccepted(Finite(r))
    ensures IdAccepted(Infinite(negative))
  {
  }

  // ---------------------------------------------------------------------------
  // What each handler answers and what it leaves in the table, as relations between
  // the table before, the request, the answer and the table after.
  // ---------------------------------------------------------------------------

  /**
   * GET `/`: 401 without an authenticated id, 500 when the store call fails; otherwise 200
   * with the caller's rows, all of them and no other, in list order.
   */
  ghost predicate ListAnswer(rows: seq<Task>, user: Option<User>, outcome: StoreOutcome, resp: Response) {
    if AuthenticatedId(user).None? then resp == UNAUTHENTICATED
    else if !outcome.Completed? then resp == StoreFailure(outcome, LIST_TEXTS)
    else
      var owner := AuthenticatedId(user).value;
      && resp.status == 200 && resp.body.TaskList?
      && Sorted(resp.body.tasks)
      && multiset(resp.body.tasks) == multiset(OwnedRows(rows, owner))
      && (forall t :: t in resp.body.tasks <==> t in rows && t.userId == owner)
  }

  /**
   * POST `/`: 401 without an authenticated id, 400 for a rejected title and 500 when the
   * store fails, each leaving the table as it was; otherwise 201 with exactly one new row
   * appended, carrying the next id and owned by the caller whatever the body says.
   */
  ghost predicate CreateEffect(rows: seq<Task>, nextId: int, user: Option<User>, body: TaskBody,
                               outcome: StoreOutcome, createdAt: int,
                               resp: Response, rows': seq<Task>, nextId': int) {
    if AuthenticatedId(user).None? then resp == UNAUTHENTICATED && rows' == rows && nextId' == nextId
    else if !TitleAccepted(body.title) then resp == TITLE_REQUIRED && rows' == rows && nextId' == nextId
    else if !outcome.Completed? then
      resp == StoreFailure(outcome, CREATE_TEXTS) && rows' == rows && nextId' == nextId
    else
      var t := NewRow(nextId, AuthenticatedId(user).value, body, createdAt);
      && resp == Response(201, OneTask(t))
      && rows' == rows + [t]
      && nextId' == nextId + 1
  }

  /**
   * PUT `/:id`: 401 without an authenticated id, 400 for a NaN or zero id, 500 when the store
   * fails and 404 when no row matches both id and owner, each leaving the rows as they were;
   * otherwise only the matching row changes, by the patch the body describes, and is returned.
   * No row id is infinite, so a store call that completes for an infinite id finds no row.
   */
  ghost predicate UpdateEffect(rows: seq<Task>, user: Option<User>, id: Number, body: TaskBody,
                               outcome: StoreOutcome, resp: Response, rows': seq<Task>) {
    if AuthenticatedId(user).None? then resp == UNAUTHENTICATED && rows' == rows
    else if !IdAccepted(id) then resp == INVALID_ID && rows' == rows
    else if !outcome.Completed? then resp == StoreFailure(outcome, UPDATE_TEXTS) && rows' == rows
    else if id.Infinite? then resp == TASK_NOT_FOUND && rows' == rows
    else
      match FindRow(rows, id.value, AuthenticatedId(user).value)
      case None => resp == TASK_NOT_FOUND && rows' == rows
      case Some(k) =>
        var t := ApplyPatch(rows[k], BuildPatch(body));
        && rows' == rows[k := t]
        && resp == Response(200, OneTask(t))
  }

  /**
   * DELETE `/:id`: 401 without an authenticated id, 400 for a NaN or zero id and 500 when the
   * store fails, each leaving the rows as they were; otherwise the rows matching both id and
   * owner are removed and the answer is 200 `Deleted`, whether or not such a row existed.
   * An infinite id matches no row, so a completed delete for it removes nothing.
   */
  ghost predicate DeleteEffect(rows: seq<Task>, user: Option<User>, id: Number, outcome: StoreOutcome,
                               resp: Response, rows': seq<Task>) {
    if AuthenticatedId(user).None? then resp == UNAUTHENTICATED && rows' == rows
    else if !IdAccepted(id) then resp == INVALID_ID && rows' == rows
    else if !outcome.Completed? then resp == StoreFailure(outcome, DELETE_TEXTS) && rows' == rows
    else if id.Infinite? then resp == DELETED && rows' == rows
    else resp == DELETED && rows' == DeleteMatching(rows, id.value, AuthenticatedId(user).value)
  }

  class TaskTable {
    var rows: seq<Task>
    var nextId: int

    ghost predicate Valid()
      reads this
    {
      WellFormed(rows, nextId)
    }

    constructor ()
      ensures Valid() && rows == [] && nextId == 1
    {
      rows := [];
      nextId := 1;
    }

    /** `getAllTasks`: answers as `ListAnswer` says and only reads the table. */
    method GetAllTasks(user: Option<User>, outcome: StoreOutcome) returns (resp: Response)
      requires Valid()
      ensures ListAnswer(rows, user, outcome, resp)
    {
      var userId := AuthenticatedId(user);
      if userId.None? {
        return UNAUTHENTICATED;
      }
      if !outcome.Completed? {
        return StoreFailure(outcome, LIST_TEXTS);
      }
      var owned := OwnedRows(rows, userId.value);
      OwnedDistinct(rows, nextId, userId.value);
      var data := SortByKeys(owned);
      forall t ensures t in data <==> t in rows && t.userId == userId.value {
        assert t in data <==> t in multiset(owned);
        if t in rows && t.userId == userId.value {
          var k :| 0 <= k < |rows| && rows[k] == t;
        }
      }
      resp := Response(200, TaskList(data));
    }

    /** `createTask`: answers and changes the table as `CreateEffect` says. */
    method CreateTask(user: Option<User>, body: TaskBody, outcome: StoreOutcome, createdAt: int)
      returns (resp: Response)
      requires Valid()
      modifies this
      ensures Valid()
      ensures CreateEffect(old(rows), old(nextId), user, body, outcome, createdAt, resp, rows, nextId)
    {
      var userId := AuthenticatedId(user);
      if userId.None? {
        return UNAUTHENTICATED;
      }
      if !TitleAccepted(body.title) {
        return TITLE_REQUIRED;
      }
      var payload := NewRow(nextId, userId.value, body, createdAt);
      if !outcome.Completed? {
        return StoreFailure(outcome, CREATE_TEXTS);
      }
      Insert(payload);
      resp := Response(201, OneTask(payload));
    }

    /** The store's insert: the row, carrying the next id, goes at the end and the id is consumed. */
    method Insert(t: Task)
      requires Valid() && t.id == nextId
      modifies this
      ensures Valid()
      ensures rows == old(rows) + [t] && nextId == old(nextId) + 1
    {
      WellFormedAppend(rows, nextId, t);
      rows := rows + [t];
      nextId := nextId + 1;
    }

    /**
     * `updateTask`: answers and changes the rows as `UpdateEffect` says; the row it patches is
     * the only one matching id and owner.
     */
    method UpdateTask(user: Option<User>, id: Number, body: TaskBody, outcome: StoreOutcome)
      returns (resp: Response)
      requires Valid()
      modifies this
      ensures Valid() && nextId == old(nextId)
      ensures UpdateEffect(old(rows), user, id, body, outcome, resp, rows)
      ensures AuthenticatedId(user).Some? && IdAccepted(id) && outcome.Completed? &&
              id.Finite? && FindRow(old(rows), id.value, AuthenticatedId(user).value).Some? ==>
        var k := FindRow(old(rows), id.value, AuthenticatedId(user).value).value;
        forall i | 0 <= i < |rows| && i != k :: !Matches(rows[i], id.value, AuthenticatedId(user).value)
    {
      var userId := AuthenticatedId(user);
      if userId.None? {
        return UNAUTHENTICATED;
      }
      if !IdAccepted(id) {
        return INVALID_ID;
      }
      var payload := BuildPatch(body);
      if !outcome.Completed? {
        return StoreFailure(outcome, UPDATE_TEXTS);
      }
      if id.Infinite? {
        return TASK_NOT_FOUND;
      }
      var found := FindRow(rows, id.value, userId.value);
      if found.None? {
        return TASK_NOT_FOUND;
      }
      var k := found.value;
      MatchIsUnique(rows, nextId, id.value, userId.value, k);
      var updated := ApplyPatch(rows[k], payload);
      WellFormedReplace(rows, nextId, k, updated);
      rows := rows[k := updated];
      resp := Response(200, OneTask(updated));
    }

    /** `deleteTask`: answers and changes the rows as `DeleteEffect` says. */
    method DeleteTask(user: Option<User>, id: Number, outcome: StoreOutcome) returns (resp: Response)
      requires Valid()
      modifies this
      ensures Valid() && nextId == old(nextId)
      ensures DeleteEffect(old(rows), user, id, outcome, resp, rows)
    {
      var userId := AuthenticatedId(user);
      if userId.None? {
        return UNAUTHENTICATED;
      }
      if !IdAccepted(id) {
        return INVALID_ID;
      }
      if !outcome.Completed? {
        return StoreFailure(outcome, DELETE_TEXTS);
      }
      if id.Infinite? {
        return DELETED;
      }
      WellFormedDelete(rows, nextId, id.value, userId.value);
      rows := DeleteMatching(rows, id.value, userId.value);
      resp := DELETED;
    }
  }
}
