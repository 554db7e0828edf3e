/** The `todos` table's record and the values its fields range over, the
    handlers' argument records, and the errors the handlers throw. */
module Todos {
  import opened Text

  /** Identifiers are opaque: only equality is ever used on them. */
  type UserId = nat
  type TodoId = nat
  type Email = string

  datatype Option<+T> = None | Some(value: T)

  /** The literals "todo", "in-progress" and "completed". */
  datatype Status = Pending | InProgress | Completed {
    function Literal(): string {
      match this
      case Pending => "todo"
      case InProgress => "in-progress"
      case Completed => "completed"
    }
  }

  /** The literals "low", "medium" and "high". */
  datatype Priority = Low | Medium | High {
    function Literal(): string {
      match this
      case Low => "low"
      case Medium => "medium"
      case High => "high"
    }
  }

  /** One document of the `todos` table. `id` is the store's `_id`; a document
      without `sharedWith` is represented with the empty sequence. Timestamps and
      due dates are epoch milliseconds. */
  datatype Todo = Todo(
    id: TodoId,
    title: string,
    description: Option<string>,
    status: Status,
    dueDate: Option<int>,
    priority: Priority,
    userId: UserId,
    sharedWith: seq<UserId>,
    createdAt: int,
    updatedAt: int)

  /** One constructor per message the handlers throw. */
  datatype Error =
    | NotAuthenticated
    | NotFound
    | TitleEmpty
    | TitleTooLong
    | DescriptionTooLong
    | NotAuthorizedToEdit
    | NotAuthorizedToDelete
    | NotAuthorizedToShare
    | UserNotFound
    | ShareWithSelf
    | AlreadyShared

  datatype Result<+T> = Ok(value: T) | Err(error: Error)

  /** Arguments of `createTodo`. */
  datatype CreateArgs = CreateArgs(
    title: string,
    description: Option<string>,
    dueDate: Option<int>,
    priority: Priority)

  /** Arguments of `updateTodo`: every field but `id` may be left out. */
  datatype UpdateArgs = UpdateArgs(
    id: TodoId,
    title: Option<string>,
    description: Option<string>,
    status: Option<Status>,
    dueDate: Option<int>,
    priority: Option<Priority>)

  datatype SortField = ByDueDate | ByPriority | ByCreatedAt
  datatype SortOrder = Asc | Desc

  /** Arguments of `getTodos`. */
  datatype ListArgs = ListArgs(
    status: Option<Status>,
    priority: Option<Priority>,
    sortBy: Option<SortField>,
    sortOrder: Option<SortOrder>)

  const MaxTitleLength: nat := 200
  const MaxDescriptionLength: nat := 1000
  const DayMillis: int := 24 * 60 * 60 * 1000
  const SearchLimit: nat := 20

  predicate NoDuplicates<T(==)>(s: seq<T>) {
    forall i, j :: 0 <= i < j < |s| ==> s[i] != s[j]
  }

  /** What every stored todo satisfies, given that only the mutations below write
      the table: a trimmed, non-empty title of at most 200 code units, a trimmed
      description of at most 1000, and a sharing list without the owner and
      without repeats. */
  predicate WellFormed(t: Todo) {
    && t.title != [] && IsTrimmed(t.title) && JsLength(t.title) <= MaxTitleLength
    && (t.description.Some? ==>
          IsTrimmed(t.description.value) && JsLength(t.description.value) <= MaxDescriptionLength)
    && t.userId !in t.sharedWith
    && NoDuplicates(t.sharedWith)
  }
}
