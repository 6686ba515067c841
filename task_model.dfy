/**
 * The `tasks` table's rows, the request bodies of the create and update handlers, the
 * update patch, and the four-key order in which the list handler returns rows.
 */
module TaskModel {
  import opened Common
  import opened Js
  import Seqs

  type UserId = string

  /** A due date as the store orders it; its textual format is not modelled. */
  type Date = int

  /** The identity provider's user object; the handlers only read its `id`. */
  datatype User = User(id: UserId, email: string)

  /**
   * A row of the `tasks` table. `id` and `createdAt` are assigned by the store, `userId` is the
   * owner. A column the store holds as SQL NULL is `None`.
   */
  datatype Task = Task(
    id: int,
    userId: UserId,
    title: string,
    description: Option<string>,
    dueDate: Option<Date>,
    priority: Option<int>,
    completed: Option<bool>,
    createdAt: int)

  /** An optional body field: the key is missing (`undefined`), is `null`, or carries a value. */
  datatype Field<T> = Absent | NullValue | Given(value: T)

  /**
   * The five keys the create and update handlers destructure from `req.body`; any other key,
   * `user_id` included, is never read. The title is kept as an arbitrary JSON value because
   * the handlers coerce it with `String(title)`.
   */
  datatype TaskBody = TaskBody(
    title: Value,
    description: Field<string>,
    dueDate: Field<Date>,
    priority: Field<int>,
    completed: Field<bool>)

  /** `f ?? null`. */
  function OrNull<T>(f: Field<T>): Option<T> {
    match f
    case Given(v) => Some(v)
    case _ => None
  }

  /** `!!f` for a boolean field: only an explicit `true` is truthy. */
  predicate FieldTruthy(f: Field<bool>) {
    f == Given(true)
  }

  /**
   * The create handler's title check (`!title || !String(title).trim()` rejects): a string
   * passes exactly when it is not all whitespace, `true` and non-zero numbers pass, and
   * `false`, `0`, `null` and a missing title are rejected.
   */
  function TitleAccepted(title: Value): (ok: bool)
    ensures ok <==> match title
      case Str(s) => !AllSpace(s)
      case Bool(b) => b
      case Num(n) => n != 0
      case _ => false
  {
    if Truthy(title) && !title.Str? then
      TruthyNonStringNotBlank(title);
      true
    else
      Truthy(title) && Trim(ToString(title)) != []
  }

  /** The title the handlers store: `String(title).trim()`. */
  function StoredTitle(title: Value): string {
    Trim(ToString(title))
  }

  /** The row the create handler inserts, with the id and timestamp the store assigns. */
  function NewRow(id: int, owner: UserId, body: TaskBody, createdAt: int): (t: Task)
    ensures t.id == id && t.userId == owner && t.createdAt == createdAt
  {
    Task(id, owner, StoredTitle(body.title), OrNull(body.description), OrNull(body.dueDate),
         OrNull(body.priority), Some(FieldTruthy(body.completed)), createdAt)
  }

  /** A body that carries a title and nothing else. */
  function TitleOnly(title: Value): TaskBody {
    TaskBody(title, Absent, Absent, Absent, Absent)
  }

  /**
   * A created row's owner is the authenticated id whatever the body says, its title is the
   * trimmed title, each optional field holds the value sent and is null when the body sends
   * null or nothing, and `completed` is the truthiness of the body field, so false when the
   * field is missing.
   */
  lemma NewRowFields(id: int, owner: UserId, body: TaskBody, createdAt: int)
    ensures var t := NewRow(id, owner, body, createdAt);
      && t.userId == owner
      && t.title == Trim(ToString(body.title))
      && (forall d :: body.description == Given(d) ==> t.description == Some(d))
      && (!body.description.Given? ==> t.description == None)
      && (forall d :: body.dueDate == Given(d) ==> t.dueDate == Some(d))
      && (!body.dueDate.Given? ==> t.dueDate == None)
      && (forall p :: body.priority == Given(p) ==> t.priority == Some(p))
      && (!body.priority.Given? ==> t.priority == None)
      && t.completed == Some(body.completed == Given(true))
  {
  }

  /** Creating from a title alone gives null description, due date and priority, and not completed. */
  lemma {:induction false} NewRowDefaults(id: int, owner: UserId, title: Value, createdAt: int)
    ensures var t := NewRow(id, owner, TitleOnly(title), createdAt);
      && t.description == None && t.dueDate == None && t.priority == None
      && t.completed == Some(false)
  {
  }

  /**
   * The update payload: for each column, `None` when the body lacks the key (the column is
   * left alone) and `Some(v)` when it carries one, where `v` may itself be null.
   */
  datatype Patch = Patch(
    title: Option<string>,
    description: Option<Option<string>>,
    dueDate: Option<Option<Date>>,
    priority: Option<Option<int>>,
    completed: Option<Option<bool>>)

  /** `if (f !== undefined) payload.k = f`: presence of the key, not its value, decides. */
  function Presence<T>(f: Field<T>): Option<Option<T>> {
    match f
    case Absent => None
    case NullValue => Some(None)
    case Given(v) => Some(Some(v))
  }

  /** The payload the update handler builds from the body, one key at a time. */
  function BuildPatch(body: TaskBody): Patch {
    Patch(
      if body.title == Undefined then None else Some(StoredTitle(body.title)),
      Presence(body.description),
      Presence(body.dueDate),
      Presence(body.priority),
      Presence(body.completed))
  }

  function Patched<T>(current: T, p: Option<T>): T {
    match p
    case Some(v) => v
    case None => current
  }

  /** The row after the store applies `p`: the keys `p` carries overwrite, the rest are kept. */
  function ApplyPatch(t: Task, p: Patch): (r: Task)
    ensures r.id == t.id && r.userId == t.userId && r.createdAt == t.createdAt
  {
    t.(title := Patched(t.title, p.title),
       description := Patched(t.description, p.description),
       dueDate := Patched(t.dueDate, p.dueDate),
       priority := Patched(t.priority, p.priority),
       completed := Patched(t.completed, p.completed))
  }

  /**
   * Partial update: a key missing from the body leaves its column as it was, an explicit null
   * clears it, and a value replaces it; a present title is stored trimmed, with no blankness check.
   */
  lemma PatchSemantics(t: Task, body: TaskBody)
    ensures var r := ApplyPatch(t, BuildPatch(body));
      && r.title == (if body.title == Undefined then t.title else Trim(ToString(body.title)))
      && r.description == (match body.description case Absent => t.description
                           case NullValue => None case Given(v) => Some(v))
      && r.dueDate == (match body.dueDate case Absent => t.dueDate
                       case NullValue => None case Given(v) => Some(v))
      && r.priority == (match body.priority case Absent => t.priority
                        case NullValue => None case Given(v) => Some(v))
      && r.completed == (match body.completed case Absent => t.completed
                         case NullValue => None case Given(v) => Some(v))
  {
  }

  /** A body without any of the five keys leaves the row exactly as it was. */
  lemma EmptyPatchIsIdentity(t: Task)
    ensures ApplyPatch(t, BuildPatch(TaskBody(Undefined, Absent, Absent, Absent, Absent))) == t
  {
  }

  /** Applying the same update twice is applying it once. */
  lemma PatchIdempotent(t: Task, p: Patch)
    ensures ApplyPatch(ApplyPatch(t, p), p) == ApplyPatch(t, p)
  {
  }

  /** The update handler does not check the title: a blank one is stored as the empty string. */
  lemma UpdateBlankTitle(t: Task, s: string)
    requires AllSpace(s)
    ensures ApplyPatch(t, BuildPatch(TaskBody(Str(s), Absent, Absent, Absent, Absent))).title == ""
  {
  }

  /** An explicit null title is not a clear: `String(null)` stores the text "null". */
  lemma UpdateNullTitle(t: Task)
    ensures ApplyPatch(t, BuildPatch(TaskBody(Js.Null, Absent, Absent, Absent, Absent))).title == "null"
  {
    NullTitleText();
  }

  lemma NullTitleText()
    ensures StoredTitle(Js.Null) == "null"
  {
    TrimOfTrimmed("null");
  }

  // ---------------------------------------------------------------------------
  // The list order: completed ascending, due date ascending with nulls last,
  // priority ascending with nulls last, then id ascending.
  // ---------------------------------------------------------------------------

  /** Ascending order with nulls after every value. */
  predicate NullsLastLess(a: Option<int>, b: Option<int>) {
    match a
    case Some(x) => (match b case Some(y) => x < y case None => true)
    case None => false
  }

  /** `completed` as the store orders it: false before true; SQL NULL sorts last under ascending order. */
  function CompletedRank(c: Option<bool>): Option<int> {
    match c
    case Some(b) => Some(if b then 1 else 0)
    case None => None
  }

  /** `a` comes strictly before `b` in the list order. */
  predicate Before(a: Task, b: Task) {
    if CompletedRank(a.completed) != CompletedRank(b.completed) then
      NullsLastLess(CompletedRank(a.completed), CompletedRank(b.completed))
    else if a.dueDate != b.dueDate then
      NullsLastLess(a.dueDate, b.dueDate)
    else if a.priority != b.priority then
      NullsLastLess(a.priority, b.priority)
    else
      a.id < b.id
  }

  lemma NullsLastTotal(a: Option<int>, b: Option<int>)
    ensures a != b ==> (NullsLastLess(a, b) <==> !NullsLastLess(b, a))
    ensures !NullsLastLess(a, a)
  {
  }

  lemma CompletedRankInjective(a: Option<bool>, b: Option<bool>)
    ensures CompletedRank(a) == CompletedRank(b) ==> a == b
  {
  }

  /**
   * The four keys in turn: an open task precedes a done one, then earlier due dates precede
   * later ones and dated precede undated, then likewise for priority, then the smaller id.
   */
  lemma BeforeKeys(a: Task, b: Task)
    ensures a.completed == Some(false) && b.completed == Some(true) ==> Before(a, b)
    ensures a.completed == b.completed && a.dueDate.Some? && b.dueDate.Some? && a.dueDate.value < b.dueDate.value
      ==> Before(a, b)
    ensures a.completed == b.completed && a.dueDate.Some? && b.dueDate.None? ==> Before(a, b)
    ensures a.completed == b.completed && a.dueDate == b.dueDate && a.priority.Some? && b.priority.Some?
            && a.priority.value < b.priority.value
      ==> Before(a, b)
    ensures a.completed == b.completed && a.dueDate == b.dueDate && a.priority.Some? && b.priority.None?
      ==> Before(a, b)
    ensures a.completed == b.completed && a.dueDate == b.dueDate && a.priority == b.priority
      ==> (Before(a, b) <==> a.id < b.id)
  {
  }

  /** The list order is a strict order ... */
  lemma BeforeIrreflexive(a: Task)
    ensures !Before(a, a)
  {
  }

  lemma BeforeAsymmetric(a: Task, b: Task)
    ensures Before(a, b) ==> !Before(b, a)
  {
    NullsLastTotal(CompletedRank(a.completed), CompletedRank(b.completed));
    NullsLastTotal(a.dueDate, b.dueDate);
    NullsLastTotal(a.priority, b.priority);
  }

  lemma NullsLastTransitive(a: Option<int>, b: Option<int>, c: Option<int>)
    ensures NullsLastLess(a, b) && NullsLastLess(b, c) ==> NullsLastLess(a, c)
  {
  }

  lemma BeforeTransitive(a: Task, b: Task, c: Task)
    ensures Before(a, b) && Before(b, c) ==> Before(a, c)
  {
    var ca, cb, cc := CompletedRank(a.completed), CompletedRank(b.completed), CompletedRank(c.completed);
    NullsLastTransitive(ca, cb, cc);
    NullsLastTransitive(a.dueDate, b.dueDate, c.dueDate);
    NullsLastTransitive(a.priority, b.priority, c.priority);
    NullsLastTotal(ca, cb);
    NullsLastTotal(cb, cc);
    NullsLastTotal(ca, cc);
    NullsLastTotal(a.dueDate, b.dueDate);
    NullsLastTotal(b.dueDate, c.dueDate);
    NullsLastTotal(a.priority, b.priority);
    NullsLastTotal(b.priority, c.priority);
  }

  /** ... and a total one on rows with distinct ids, so it decides the position of every row. */
  lemma BeforeTotal(a: Task, b: Task)
    requires a.id != b.id
    ensures Before(a, b) || Before(b, a)
  {
    NullsLastTotal(CompletedRank(a.completed), CompletedRank(b.completed));
    NullsLastTotal(a.dueDate, b.dueDate);
    NullsLastTotal(a.priority, b.priority);
  }

  /** Every row comes strictly before every later one. */
  predicate Sorted(s: seq<Task>) {
    forall i, j | 0 <= i < j < |s| :: Before(s[i], s[j])
  }

  predicate DistinctIds(s: seq<Task>) {
    forall i, j | 0 <= i < j < |s| :: s[i].id != s[j].id
  }

  predicate LowerBound(x: Task, s: seq<Task>) {
    forall y | y in s :: Before(x, y)
  }

  lemma SortedCons(x: Task, s: seq<Task>)
    requires Sorted(s) && LowerBound(x, s)
    ensures Sorted([x] + s)
  {
    var r := [x] + s;
    forall i, j | 0 <= i < j < |r| ensures Before(r[i], r[j]) {
      assert r[j] == s[j - 1];
      if i > 0 {
        assert r[i] == s[i - 1];
      }
    }
  }

  /** Whatever precedes the head of a sorted sequence precedes all of it. */
  lemma BoundByHead(x: Task, s: seq<Task>)
    requires Sorted(s) && s != [] && Before(x, s[0])
    ensures LowerBound(x, s)
  {
    forall y | y in s ensures Before(x, y) {
      var k :| 0 <= k < |s| && s[k] == y;
      if k > 0 {
        BeforeTransitive(x, s[0], y);
      }
    }
  }

  /** A bound on every element of `s` and on `x` is a bound on any rearrangement of them. */
  lemma BoundOfRearranged(y: Task, x: Task, s: seq<Task>, r: seq<Task>)
    requires LowerBound(y, s) && Before(y, x)
    requires multiset(r) == multiset(s) + multiset{x}
    ensures LowerBound(y, r)
  {
    forall z | z in r ensures Before(y, z) {
      assert z in multiset(r);
      if z != x {
        assert z in multiset(s);
      }
    }
  }

  /** Inserts `x` into a sorted sequence at its place in the list order. */
  function Insert(x: Task, s: seq<Task>): (r: seq<Task>)
    requires Sorted(s)
    requires forall y | y in s :: y.id != x.id
    ensures Sorted(r)
    ensures multiset(r) == multiset(s) + multiset{x}
  {
    if s == [] then
      [x]
    else if Before(x, s[0]) then
      BoundByHead(x, s);
      SortedCons(x, s);
      [x] + s
    else
      BeforeTotal(x, s[0]);
      SortedTail(s);
      assert s == [s[0]] + s[1..];
      assert LowerBound(s[0], s[1..]) by {
        forall y | y in s[1..] ensures Before(s[0], y) {
          SortedHeadFirst(s, y);
        }
      }
      var rest := Insert(x, s[1..]);
      BoundOfRearranged(s[0], x, s[1..], rest);
      SortedCons(s[0], rest);
      [s[0]] + rest
  }

  /**
   * The rows in list order (an insertion sort standing for the store's ORDER BY): a
   * permutation of `s` that is sorted by the four keys.
   */
  function SortByKeys(s: seq<Task>): (r: seq<Task>)
    requires DistinctIds(s)
    ensures Sorted(r)
    ensures multiset(r) == multiset(s)
  {
    if s == [] then
      []
    else
      assert s == [s[0]] + s[1..];
      assert DistinctIds(s[1..]) by {
        forall i, j | 0 <= i < j < |s| - 1 ensures s[1..][i].id != s[1..][j].id {
          assert s[1..][i] == s[i + 1] && s[1..][j] == s[j + 1];
        }
      }
      var rest := SortByKeys(s[1..]);
      forall y | y in rest ensures y.id != s[0].id {
        assert y in multiset(s[1..]);
        var k :| 0 <= k < |s[1..]| && s[1..][k] == y;
        assert s[k + 1] == y;
      }
      Insert(s[0], rest)
  }

  lemma SortedTail(a: seq<Task>)
    requires Sorted(a) && a != []
    ensures Sorted(a[1..])
  {
    forall i, j | 0 <= i < j < |a| - 1 ensures Before(a[1..][i], a[1..][j]) {
      assert a[1..][i] == a[i + 1] && a[1..][j] == a[j + 1];
    }
  }

  lemma SortedHeadFirst(a: seq<Task>, x: Task)
    requires Sorted(a) && x in a && x != a[0]
    ensures Before(a[0], x)
  {
    var k :| 0 <= k < |a| && a[k] == x;
  }

  /**
   * The order determines the result: two sorted sequences holding the same rows are equal,
   * so whatever algorithm the store uses, the list comes back as `SortByKeys` gives it.
   */
  lemma {:induction false} SortedUnique(a: seq<Task>, b: seq<Task>)
    requires Sorted(a) && Sorted(b)
    requires multiset(a) == multiset(b)
    ensures a == b
  {
    if a == [] {
      assert |b| == |multiset(b)| == 0;
    } else {
      assert b != [] by {
        assert a[0] in multiset(b);
      }
      SameHead(a, b);
      SameTail(a, b);
      SortedTail(a);
      SortedTail(b);
      SortedUnique(a[1..], b[1..]);
      assert a == [a[0]] + a[1..] && b == [b[0]] + b[1..];
    }
  }

  /** Two sorted sequences holding the same rows start with the same row. */
  lemma SameHead(a: seq<Task>, b: seq<Task>)
    requires Sorted(a) && Sorted(b) && a != [] && b != []
    requires multiset(a) == multiset(b)
    ensures a[0] == b[0]
  {
    assert a[0] in multiset(b) && b[0] in multiset(a);
    if a[0] != b[0] {
      SortedHeadFirst(b, a[0]);
      SortedHeadFirst(a, b[0]);
      BeforeAsymmetric(a[0], b[0]);
      assert false;
    }
  }

  lemma SameTail(a: seq<Task>, b: seq<Task>)
    requires a != [] && b != [] && a[0] == b[0]
    requires multiset(a) == multiset(b)
    ensures multiset(a[1..]) == multiset(b[1..])
  {
    assert a == [a[0]] + a[1..] && b == [b[0]] + b[1..];
    assert multiset(a[1..]) == multiset(a) - multiset{a[0]};
    assert multiset(b[1..]) == multiset(b) - multiset{b[0]};
  }

  // ---------------------------------------------------------------------------
  // Owner scoping: `.eq('id', id).eq('user_id', userId)` and `.eq('user_id', userId)`.
  // ---------------------------------------------------------------------------

  /** The rows `.eq('user_id', owner)` selects, in table order. */
  function OwnedRows(rows: seq<Task>, owner: UserId): seq<Task> {
    Seqs.Filter(rows, (t: Task) => t.userId == owner)
  }

  /** The row matches both `.eq('id', id)` (the parsed id compared as a number) and `.eq('user_id', owner)`. */
  predicate Matches(t: Task, id: real, owner: UserId) {
    t.id as real == id && t.userId == owner
  }

  /** The table left by `.delete().eq('id', id).eq('user_id', owner)`. */
  function DeleteMatching(rows: seq<Task>, id: real, owner: UserId): seq<Task> {
    Seqs.Filter(rows, (t: Task) => !Matches(t, id, owner))
  }

  /**
   * Delete removes exactly the rows matching both id and owner: every other row, in
   * particular every row of another owner, is still there, and nothing matching is.
   */
  lemma DeleteScope(rows: seq<Task>, id: real, owner: UserId)
    ensures var r := DeleteMatching(rows, id, owner);
      && (forall t | t in rows && !Matches(t, id, owner) :: t in r)
      && (forall t | t in rows && t.userId != owner :: t in r)
      && (forall t | t in r :: t in rows && !Matches(t, id, owner))
  {
    var r := DeleteMatching(rows, id, owner);
    forall t | t in r ensures t in rows && !Matches(t, id, owner) {
      var k :| 0 <= k < |r| && r[k] == t;
    }
  }

  /** Deleting twice leaves the same table as deleting once. */
  lemma DeleteIdempotent(rows: seq<Task>, id: real, owner: UserId)
    ensures DeleteMatching(DeleteMatching(rows, id, owner), id, owner) == DeleteMatching(rows, id, owner)
  {
    Seqs.FilterIdempotent(rows, (t: Task) => !Matches(t, id, owner));
  }

  /** The first row matching both id and owner, as the update query finds it. */
  function FindRow(rows: seq<Task>, id: real, owner: UserId): (k: Option<nat>)
    ensures k.None? <==> forall i | 0 <= i < |rows| :: !Matches(rows[i], id, owner)
    ensures k.Some? ==>
      && k.value < |rows| && Matches(rows[k.value], id, owner)
      && forall i | 0 <= i < k.value :: !Matches(rows[i], id, owner)
  {
    if rows == [] then
      None
    else if Matches(rows[0], id, owner) then
      Some(0)
    else
      match FindRow(rows[1..], id, owner)
      case None => None
      case Some(k) => Some(k + 1)
  }

  // ---------------------------------------------------------------------------
  // The table's shape: ids are assigned in increasing order and never reused.
  // ---------------------------------------------------------------------------

  predicate IdBefore(a: Task, b: Task) {
    a.id < b.id
  }

  /** Every id lies in `[1, nextId)` and ids strictly increase along the table. */
  predicate WellFormed(rows: seq<Task>, nextId: int) {
    && 1 <= nextId
    && (forall i | 0 <= i < |rows| :: 1 <= rows[i].id < nextId)
    && Seqs.Pairwise(rows, IdBefore)
  }

  lemma WellFormedAppend(rows: seq<Task>, nextId: int, t: Task)
    requires WellFormed(rows, nextId) && t.id == nextId
    ensures WellFormed(rows + [t], nextId + 1)
  {
    var r := rows + [t];
    forall i, j | 0 <= i < j < |r| ensures IdBefore(r[i], r[j]) {
      assert r[i] == rows[i];
    }
  }

  lemma WellFormedReplace(rows: seq<Task>, nextId: int, k: nat, t: Task)
    requires WellFormed(rows, nextId) && k < |rows| && t.id == rows[k].id
    ensures WellFormed(rows[k := t], nextId)
  {
    var r := rows[k := t];
    forall i, j | 0 <= i < j < |r| ensures IdBefore(r[i], r[j]) {
      assert IdBefore(rows[i], rows[j]);
    }
  }

  lemma WellFormedDelete(rows: seq<Task>, nextId: int, id: real, owner: UserId)
    requires WellFormed(rows, nextId)
    ensures WellFormed(DeleteMatching(rows, id, owner), nextId)
  {
    Seqs.FilterKeepsPairwise(rows, (t: Task) => !Matches(t, id, owner), IdBefore);
    var r := DeleteMatching(rows, id, owner);
    forall i | 0 <= i < |r| ensures 1 <= r[i].id < nextId {
      assert r[i] in rows;
    }
  }

  /** One owner's rows have distinct ids, so the list order ranks them without ties. */
  lemma OwnedDistinct(rows: seq<Task>, nextId: int, owner: UserId)
    requires WellFormed(rows, nextId)
    ensures DistinctIds(OwnedRows(rows, owner))
  {
    Seqs.FilterKeepsPairwise(rows, (t: Task) => t.userId == owner, IdBefore);
  }

  /** In a well-formed table at most one row matches an id and owner: the update touches only it. */
  lemma {:induction false} MatchIsUnique(rows: seq<Task>, nextId: int, id: real, owner: UserId, k: nat)
    requires WellFormed(rows, nextId)
    requires FindRow(rows, id, owner) == Some(k)
    ensures forall i | 0 <= i < |rows| && i != k :: !Matches(rows[i], id, owner)
  {
    forall i | 0 <= i < |rows| && i != k ensures !Matches(rows[i], id, owner) {
      if i < k {
        assert !Matches(rows[i], id, owner);
      } else {
        assert IdBefore(rows[k], rows[i]);
        assert rows[k].id as real < rows[i].id as real;
      }
    }
  }
}
