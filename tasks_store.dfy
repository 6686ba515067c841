/**
 * The client's task cache: the list of tasks it shows, a loading flag and the last error.
 * Every action asks the server first and changes the list only once the server has
 * answered with an ok status. The server's answer is an input (`Reply`).
 */
module TasksStore {
  import opened Common
  import opened Js
  import opened TaskModel
  import Seqs

  /** A task as the client keeps it: the server's row plus a `dueDate` copy of `due_date`. */
  datatype ClientTask = ClientTask(row: Task, dueDate: Option<Date>)

  /** `{ ...t, dueDate: t.due_date ?? null }`. */
  function WithAlias(t: Task): ClientTask {
    ClientTask(t, t.dueDate)
  }

  /** What a request came back with: the fetch itself failed, or a status and a parsed body. */
  datatype Reply<T> = NetworkError(message: string) | Replied(status: int, body: T)

  /** `res.ok`: a status in the range 200-299. */
  predicate Ok(status: int) {
    200 <= status <= 299
  }

  predicate Succeeded<T>(reply: Reply<T>) {
    reply.Replied? && Ok(reply.status)
  }

  const FETCH_FAILED := "Erro ao buscar tasks: "
  const CREATE_FAILED := "Erro ao criar task: "
  const UPDATE_FAILED := "Erro ao atualizar task: "
  const DELETE_FAILED := "Erro ao deletar task: "

  /**
   * The error an action records for an unsuccessful reply: a failed fetch gives its own
   * message, an answer with a non-ok status gives the action's text followed by the status.
   */
  function FailureText<T>(prefix: string, reply: Reply<T>): (e: string)
    requires !Succeeded(reply)
    ensures reply.NetworkError? ==> e == reply.message
    ensures reply.Replied? ==> |prefix| < |e| && e[..|prefix|] == prefix
  {
    match reply
    case NetworkError(m) => m
    case Replied(status, _) => prefix + IntToString(status)
  }

  /** The status of a rejected answer can be read back from the error text. */
  lemma {:induction false} StatusInText<T>(prefix: string, reply: Reply<T>)
    requires reply.Replied? && !Ok(reply.status) && reply.status >= 0
    ensures var tail := FailureText(prefix, reply)[|prefix|..];
      && (forall i | 0 <= i < |tail| :: '0' <= tail[i] <= '9')
      && DigitsValue(tail) == reply.status
  {
    var e := FailureText(prefix, reply);
    assert e[|prefix|..] == NatToString(reply.status);
    NatToStringValue(reply.status);
  }

  /**
   * `findIndex(t => t.id === id)`: the first position holding that id, or -1 when there is
   * none.
   */
  function FindIndex(s: seq<ClientTask>, id: int): (k: int)
    ensures -1 <= k < |s|
    ensures k == -1 <==> forall i | 0 <= i < |s| :: s[i].row.id != id
    ensures k != -1 ==> s[k].row.id == id && forall i | 0 <= i < k :: s[i].row.id != id
  {
    if s == [] then -1
    else if s[0].row.id == id then 0
    else
      var k := FindIndex(s[1..], id);
      if k == -1 then -1 else k + 1
  }

  /** `tasks.filter(t => t.id !== id)`. */
  function WithoutId(s: seq<ClientTask>, id: int): seq<ClientTask> {
    Seqs.Filter(s, (t: ClientTask) => t.row.id != id)
  }

  /**
   * Removing an id keeps every task with another id and no task with that id, and the kept
   * tasks stay in their order: removing from two halves is removing from each.
   */
  lemma WithoutIdScope(s: seq<ClientTask>, t: seq<ClientTask>, id: int)
    ensures forall i | 0 <= i < |s| && s[i].row.id != id :: s[i] in WithoutId(s, id)
    ensures forall i | 0 <= i < |WithoutId(s, id)| :: WithoutId(s, id)[i].row.id != id
    ensures WithoutId(s + t, id) == WithoutId(s, id) + WithoutId(t, id)
  {
    Seqs.FilterAppend(s, t, (c: ClientTask) => c.row.id != id);
  }

  /** A list without the id is left as it is by a second removal. */
  lemma WithoutIdIdempotent(s: seq<ClientTask>, id: int)
    ensures WithoutId(WithoutId(s, id), id) == WithoutId(s, id)
  {
    Seqs.FilterIdempotent(s, (c: ClientTask) => c.row.id != id);
  }

  /** The list after a confirmed toggle: the first task with the id is replaced, if there is one. */
  function ReplaceFirstWithId(s: seq<ClientTask>, id: int, c: ClientTask): seq<ClientTask> {
    var k := FindIndex(s, id);
    if k == -1 then s else s[k := c]
  }

  /**
   * A toggle keeps the length and every position but the first one holding the id; with no
   * such position nothing changes.
   */
  lemma ReplaceScope(s: seq<ClientTask>, id: int, c: ClientTask)
    ensures var r := ReplaceFirstWithId(s, id, c);
      && |r| == |s|
      && (forall i | 0 <= i < |s| && i != FindIndex(s, id) :: r[i] == s[i])
      && (FindIndex(s, id) != -1 ==> r[FindIndex(s, id)] == c)
      && ((forall i | 0 <= i < |s| :: s[i].row.id != id) ==> r == s)
  {
  }

  /** A later element with the same id is never the one replaced. */
  lemma {:induction false} OnlyFirstReplaced(s: seq<ClientTask>, id: int, c: ClientTask, j: int, k: int)
    requires 0 <= j < k < |s| && s[j].row.id == id && s[k].row.id == id
    ensures ReplaceFirstWithId(s, id, c)[k] == s[k]
  {
    assert FindIndex(s, id) <= j;
  }

  class Store {
    var tasks: seq<ClientTask>
    var loading: bool
    var error: Option<string>

    constructor ()
      ensures tasks == [] && !loading && error == None
    {
      tasks := [];
      loading := false;
      error := None;
    }

    /**
     * `fetch()`: on an ok answer the list becomes the server's list, in the server's order
     * and with the alias added (a null body counts as empty); otherwise the list is kept and
     * the error recorded. The loading flag is down again in every case.
     */
    method Fetch(reply: Reply<Option<seq<Task>>>)
      modifies this
      ensures !loading
      ensures Succeeded(reply) ==>
        var data := reply.body.GetOr([]);
        && error == None
        && |tasks| == |data|
        && forall i | 0 <= i < |data| :: tasks[i] == WithAlias(data[i])
      ensures !Succeeded(reply) ==> tasks == old(tasks) && error == Some(FailureText(FETCH_FAILED, reply))
    {
      loading := true;
      error := None;
      if Succeeded(reply) {
        var data := reply.body.GetOr([]);
        tasks := seq(|data|, i requires 0 <= i < |data| => WithAlias(data[i]));
      } else {
        error := Some(FailureText(FETCH_FAILED, reply));
      }
      loading := false;
    }

    /** `create(payload)`: a confirmed task is appended after all the others; a failure keeps the list. */
    method Create(reply: Reply<Task>)
      modifies this
      ensures loading == old(loading)
      ensures Succeeded(reply) ==> tasks == old(tasks) + [WithAlias(reply.body)] && error == None
      ensures !Succeeded(reply) ==> tasks == old(tasks) && error == Some(FailureText(CREATE_FAILED, reply))
    {
      error := None;
      if Succeeded(reply) {
        tasks := tasks + [WithAlias(reply.body)];
      } else {
        error := Some(FailureText(CREATE_FAILED, reply));
      }
    }

    /**
     * `toggle(task)`: the server's updated row replaces the first cached task with the same
     * id, if any; a failure keeps the list.
     */
    method Toggle(task: ClientTask, reply: Reply<Task>)
      modifies this
      ensures loading == old(loading)
      ensures Succeeded(reply) ==>
        tasks == ReplaceFirstWithId(old(tasks), task.row.id, WithAlias(reply.body)) && error == None
      ensures !Succeeded(reply) ==> tasks == old(tasks) && error == Some(FailureText(UPDATE_FAILED, reply))
    {
      error := None;
      var id := task.row.id;
      if Succeeded(reply) {
        var idx := FindIndex(tasks, id);
        if idx != -1 {
          tasks := tasks[idx := WithAlias(reply.body)];
        }
      } else {
        error := Some(FailureText(UPDATE_FAILED, reply));
      }
    }

    /** `remove(task)`: a confirmed delete drops every cached task with that id; a failure keeps the list. */
    method Remove(task: ClientTask, reply: Reply<()>)
      modifies this
      ensures loading == old(loading)
      ensures Succeeded(reply) ==> tasks == WithoutId(old(tasks), task.row.id) && error == None
      ensures !Succeeded(reply) ==> tasks == old(tasks) && error == Some(FailureText(DELETE_FAILED, reply))
    {
      error := None;
      var id := task.row.id;
      if Succeeded(reply) {
        tasks := WithoutId(tasks, id);
      } else {
        error := Some(FailureText(DELETE_FAILED, reply));
      }
    }
  }
}
