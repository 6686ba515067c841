/** The HTTP responses of the task handlers, and the outcome of a store call. */
module Api {
  import opened TaskModel

  /** A JSON response body. */
  datatype Body =
    | Message(text: string)
    | MessageWithDetails(text: string, details: string)
    | OneTask(task: Task)
    | TaskList(tasks: seq<Task>)

  datatype Response = Response(status: int, body: Body)

  /**
   * How a store call ended, apart from the data it returns: it completed, it reported an
   * error object, or its promise rejected (an exception the handler's `catch` receives).
   */
  datatype StoreOutcome = Completed | StoreError(details: string) | Threw(message: string)

  const UNAUTHENTICATED := Response(401, Message("Usuário não autenticado"))
  const TITLE_REQUIRED := Response(400, Message("Título é obrigatório"))
  const INVALID_ID := Response(400, Message("ID inválido"))
  const TASK_NOT_FOUND := Response(404, Message("Tarefa não encontrada"))
  const DELETED := Response(200, Message("Deleted"))

  /** The texts of the four handlers: the store-error message and the exception fallback. */
  datatype Texts = Texts(storeError: string, unexpected: string)

  const LIST_TEXTS := Texts("Erro ao buscar tarefas", "Erro inesperado ao buscar tarefas")
  const CREATE_TEXTS := Texts("Erro ao criar tarefa", "Erro inesperado ao criar tarefa")
  const UPDATE_TEXTS := Texts("Erro ao atualizar tarefa", "Erro inesperado ao atualizar tarefa")
  const DELETE_TEXTS := Texts("Erro ao deletar tarefa", "Erro inesperado ao deletar tarefa")

  /**
   * The 500 answer to a failed store call: a store error carries the handler's message and
   * the store's details; a rejection carries `err.message || <fallback>`.
   */
  function StoreFailure(outcome: StoreOutcome, texts: Texts): Response
    requires !outcome.Completed?
  {
    match outcome
    case StoreError(d) => Response(500, MessageWithDetails(texts.storeError, d))
    case Threw(m) => Response(500, Message(if m != "" then m else texts.unexpected))
  }
}
