# Todo task management: the `todos` handlers in Dafny

This project models the backend of a small collaborative todo application:
the handlers of `convex/todos.ts`. They operate on a `todos` table and a
`users` directory. Each todo has one owner. The owner may share it with other
users by email. A member of the sharing list may edit the todo but may not
delete or share it.

The project is split into these modules:

- `Text` (text.dfy): JavaScript's `String.prototype.trim` and string length.
  Trim strips ECMAScript white space and line terminators. Length counts
  UTF-16 code units.
- `Seqs` (seqs.dfy): `Array.prototype.filter` and the query builder's
  `take`, as functions on sequences.
- `Todos` (todos.dfy): the `Todo` record, the status and priority enums, the
  handlers' argument records, one error per message the handlers throw, and
  the invariant every stored todo satisfies (`WellFormed`).
- `Policy` (policy.dfy): authentication, the edit/delete/share rules, input
  validation, and the records that `createTodo`, `updateTodo` and `shareTodo`
  write.
- `Queries` (queries.dfy): the visible set of `getTodos` and its filters, the
  sort comparator, and the queries `getOverdueTodos`, `getTodosDueToday` and
  `searchTodos`.
- `Store` (store.dfy): the class `TodoStore`. It holds the table as a
  `map<TodoId, Todo>`, the next id to hand out, and the user directory as a
  `map<Email, UserId>`. Its methods are the four mutations and `getTodos`.
  `getTodos` sorts in place with an insertion sort on an array.
- `Scenarios` (scenarios.dfy): walkthroughs that use nothing but the contracts.
  They create, complete and delete a todo; share a todo and list it as the
  member; refuse repeated, self and member shares; and show a member editing
  but failing to delete.

The caller's identity is a parameter `caller: Option<UserId>`, with `None` for
an unauthenticated request. The clock is a parameter: `now` for `Date.now()`
and `startOfDay` for the local midnight of `getTodosDueToday`. Every handler
returns a `Result`, and each error constructor stands for one thrown message.

The handlers check titles and descriptions in two ways. A title is rejected as
empty when it is blank after trimming (convex/todos.ts:128, :180). Length
limits apply to the text as the caller supplied it, before trimming
(convex/todos.ts:132, :136, :183, :190). So a title of 200 letters with one
leading space is rejected, even though the 200 letters it would store are
within the limit (`Policy.TitleLengthBoundary`).

## Model

| member | source | states |
|---|---|---|
| Text.Trim | convex/todos.ts:141 | The result is a trimmed slice of the input with blank margins. It is empty exactly when the input is blank. It is never longer than the input. |
| Text.TrimIdempotent | convex/todos.ts:186 | Trimming an already trimmed title changes nothing. |
| Text.JsLength | convex/todos.ts:132 | Length in UTF-16 code units lies between the number of characters and twice that number. It is zero only for the empty string. |
| Text.JsLengthConcat | convex/todos.ts:132 | The length of a concatenation is the sum of the lengths. |
| Text.Utf16 | convex/todos.ts:132 | The string's UTF-16 code units: as many as its JavaScript length, each below 0x10000. |
| Text.Utf16Bmp | convex/todos.ts:62 | Without characters above U+FFFF, the code units are exactly the code points. |
| Seqs.Filter | convex/todos.ts:35-37 | Keeps exactly the elements that satisfy the predicate. The result is a sub-multiset of the input. |
| Seqs.FilterFuse | convex/todos.ts:42-48 | Filtering by status and then by priority equals one filter by the conjunction. |
| Seqs.Take | convex/todos.ts:295 | `take(n)` returns the first `min(n, length)` elements, unchanged. |
| Todos.WellFormed | convex/todos.ts:128-149 | What every stored todo satisfies: a non-empty trimmed title of at most 200 code units, a trimmed description of at most 1000, and a sharing list without the owner and without repeats. |
| Policy.Authenticate | convex/todos.ts:7-13 | An error ("Not authenticated") exactly when there is no caller; otherwise the caller's id. |
| Policy.CanEdit | convex/todos.ts:172 | The caller may edit when they own the todo or are listed in its `sharedWith`. |
| Policy.CanDelete | convex/todos.ts:226 | Only the owner may delete. |
| Policy.CanShare | convex/todos.ts:248 | Only the owner may share. |
| Policy.OwnerMayDoAll | convex/todos.ts:171-175 | Delete and share rights coincide and imply edit rights. A caller may edit without being allowed to delete exactly when they are listed in `sharedWith` and are not the owner. |
| Policy.SharedMemberMayOnlyEdit | convex/todos.ts:171-175 | A member of `sharedWith` of a well-formed todo may edit it but may neither delete nor share it. |
| Policy.TitleError | convex/todos.ts:128-134 | TitleEmpty exactly when the title is blank. TitleTooLong exactly when it is not blank and is over 200 code units. A title that passes trims to a non-empty string within the limit. |
| Policy.TitleLengthBoundary | convex/todos.ts:132-134 | 200 letters pass and 201 fail. A leading space makes 200 letters fail, though they trim back to the same 200 letters. |
| Policy.CreateDescriptionError | convex/todos.ts:136-138 | DescriptionTooLong exactly when a description is given and is over 1000 code units. |
| Policy.UpdateDescriptionError | convex/todos.ts:189-192 | DescriptionTooLong exactly when a description is supplied and is over 1000 code units. One that passes trims to at most 1000. |
| Policy.DescriptionChecksAgree | convex/todos.ts:136 | The create handler's truthiness guard changes nothing: both handlers reject the same descriptions. |
| Policy.CreateError | convex/todos.ts:128-138 | No error exactly when the title is not blank and is within 200, and any description is within 1000. A title error takes precedence. When the title passes, the result is the description check's result (DescriptionTooLong or none). |
| Policy.UpdateFieldsError | convex/todos.ts:179-194 | Only supplied fields are checked, title before description. When the title is absent or passes, the result is the description check's result (DescriptionTooLong or none). With neither supplied there is no error. |
| Policy.ValidFieldsStored | convex/todos.ts:179-193 | When the supplied fields pass validation, the trimmed title is non-empty, trimmed and within 200, and the trimmed description is trimmed and within 1000. |
| Policy.NewTodo | convex/todos.ts:140-149 | The inserted document: trimmed title and description, status "todo", the caller as owner, no members, both timestamps `now`. It is well-formed whenever the arguments pass validation. |
| Policy.Patched | convex/todos.ts:177-208 | Each supplied field is replaced, with title and description trimmed. Owner, members, id and `createdAt` are kept. `updatedAt` becomes `now`. Well-formedness is kept. |
| Policy.WithMember | convex/todos.ts:266-274 | `sharedWith` becomes the old list plus the new user, and `updatedAt` becomes `now`; nothing else changes. Appending a non-owner non-member keeps the owner out of the list and the list free of repeats. The new member may edit but not delete or share. |
| Queries.StorePatched | convex/todos.ts:208 | Patching a document with a well-formed one under the same id keeps the table invariant. |
| Queries.StoreInserted | convex/todos.ts:140-149 | Inserting a well-formed document under the next id keeps the table invariant, and that id was free. |
| Queries.Records | convex/todos.ts:34 | The whole `todos` table in creation order. |
| Queries.RecordsSpec | convex/todos.ts:34 | A table scan returns exactly the stored documents, each once. |
| Queries.OwnedBy | convex/todos.ts:29-32 | Contains exactly the scanned documents whose owner is the caller. |
| Queries.SharedWith | convex/todos.ts:34-37 | Contains exactly the scanned documents whose `sharedWith` lists the caller. |
| Queries.Visible | convex/todos.ts:39 | The owned documents followed by the shared ones. |
| Queries.Matches | convex/todos.ts:42-48 | A document matches when it has the given status (if any) and the given priority (if any). |
| Queries.Selected | convex/todos.ts:41-48 | The visible documents that match, in concatenation order. |
| Queries.SelectedExactly | convex/todos.ts:29-48 | The visible set is exactly the stored todos the caller owns or is a member of. After the filters, it is exactly those that also match the given status and priority. |
| Queries.VisibleDistinct | convex/todos.ts:39 | Owned todos followed by shared todos list no todo twice, because the owner is never in `sharedWith`. |
| Queries.SelectedDistinct | convex/todos.ts:42-48 | The filtered visible list still has no repeats. |
| Queries.StrLess | convex/todos.ts:62 | JavaScript's `<` on strings: lexicographic order on the UTF-16 code units, with a proper prefix first. |
| Queries.BmpOrderAgrees | convex/todos.ts:62 | On strings without characters above U+FFFF, JavaScript's order equals code-point order. |
| Queries.OrdersDifferAboveBmp | convex/todos.ts:62 | Above U+FFFF the two orders differ: U+FFFF precedes U+10000 by code point but follows it by code unit. |
| Queries.PriorityRankIsStringOrder | convex/todos.ts:53-62 | The priority rank orders priorities exactly as JavaScript's string comparison orders "high", "low" and "medium". |
| Queries.SortKey | convex/todos.ts:53-57 | The value compared for the sort field, with a missing due date read as 0 and priority read through its string rank. |
| Queries.DirectedKey | convex/todos.ts:59-62 | The sort key, negated for "desc", so that both orders sort by non-decreasing directed keys. |
| Queries.InOrder | convex/todos.ts:59-62 | One document may precede another when its directed key is not larger. |
| Queries.Compare | convex/todos.ts:52-63 | The comparator returns only 1 or -1. It returns -1 exactly when the keys are non-decreasing for "asc" or no order, and non-increasing for "desc". |
| Queries.GetOverdueTodos | convex/todos.ts:95-114 | Fails exactly when unauthenticated. Otherwise returns, each once, exactly the caller's own stored todos that are not completed and are due before `now`. |
| Queries.GetTodosDueToday | convex/todos.ts:71-92 | Fails exactly when unauthenticated. Otherwise returns, each once, exactly the caller's own stored todos due in `[startOfDay, startOfDay + 86400000)`. |
| Queries.DueBefore | convex/todos.ts:106 | `dueDate < x` for a dated todo; for an undated one, the store's comparison as given by `undatedFirst`. |
| Queries.DueFrom | convex/todos.ts:84-85 | `dueDate >= x` for a dated todo; never for an undated one. |
| Queries.OwnedMatches | convex/todos.ts:292-294 | The search hits that belong to the caller are exactly the ranked matches whose owner is the caller. |
| Queries.SearchTodos | convex/todos.ts:279-299 | Fails exactly when unauthenticated. A blank term gives `[]`. Otherwise the result is the first `min(20, n)` of the caller's own ranked matches, in ranking order. |
| Store.SortInPlace | convex/todos.ts:51-63 | After the sort the array is ordered by the comparator's key and is a permutation of the input. |
| Store.InsertStep | convex/todos.ts:52-63 | One insertion pass extends the sorted prefix by one element and keeps the array's multiset. |
| Store.SwapKeepsOrder | convex/todos.ts:59-62 | Swapping a pair that the comparator says is out of order moves the one gap in the sorted prefix one place left. |
| Store.GapClosed | convex/todos.ts:59-62 | When the moving element reaches the front or an element the comparator puts before it, the whole prefix is sorted. |
| Store.ApplyFilters | convex/todos.ts:41-48 | The optional status filter followed by the optional priority filter equals one filter by `Matches`. |
| Store.SortedCopy | convex/todos.ts:50-64 | Returns a sorted permutation of its input. |
| Store.CollectUpdates | convex/todos.ts:177-206 | On an invalid supplied field, returns the first validation error. Otherwise returns exactly the patched document. |
| Store.TodoStore.CreateTodo | convex/todos.ts:117-151 | Fails when unauthenticated, then on validation, changing nothing. Otherwise inserts exactly one new document under a fresh id and leaves every other document unchanged. Keeps the table invariant. |
| Store.TodoStore.Insert | convex/todos.ts:140-149 | Stores the document under the next id, advances the counter, changes nothing else and keeps the table invariant. |
| Store.TodoStore.UpdateTodo | convex/todos.ts:154-210 | Checks in order: NotAuthenticated, NotFound, NotAuthorizedToEdit, validation errors. Any failure leaves the table unchanged. Success replaces exactly that document with its patch. Keeps the table invariant. |
| Store.TodoStore.DeleteTodo | convex/todos.ts:213-232 | Checks in order: NotAuthenticated, NotFound, NotAuthorizedToDelete for anyone but the owner. Any failure leaves the table unchanged. Success removes exactly that id. |
| Store.TodoStore.ShareTodo | convex/todos.ts:235-276 | Checks in order: NotAuthenticated, NotFound, NotAuthorizedToShare, UserNotFound, ShareWithSelf, AlreadyShared. Any failure leaves the table unchanged. Success appends the user to that document's `sharedWith`, which stays free of the owner and of repeats. |
| Store.TodoStore.GetTodos | convex/todos.ts:16-68 | Fails exactly when unauthenticated. Otherwise returns a permutation of the filtered visible list, with no repeats. The result contains exactly the stored todos the caller may edit that match the filters. Without `sortBy` it is in concatenation order, and `sortOrder` is ignored. With `sortBy` it is sorted by that key. |

## Left out

- The React components and `convex/schema.ts` are not part of this model. They hold presentation and declarations, not rules. The schema only shapes the `Todo` datatype and its enums.
- Indexes and the query builder are modelled by what they return. A scan or the `by_user` index returns documents in creation order. Ids are handed out from a counter, so id order is creation order.
- Queries.SearchTodos: the search index's relevance ranking and its term matching are not modelled. The index's ranked list of title matches is a parameter `ranked`, so the contract says nothing about which titles match a term.
- Queries.GetOverdueTodos: how the store compares a missing `dueDate` with a number inside `q.lt` is not visible in this code. It is the explicit parameter `undatedFirst`. In `getTodosDueToday` a missing `dueDate` is excluded under either reading, because it cannot both fall below `endOfDay` and reach `startOfDay`.
- Store.TodoStore.ShareTodo: the `users` lookup is a partial map from email to id. The throw of `.unique()` when two users share an email is library behaviour and is not modelled.
- Store.SortInPlace: `Array.prototype.sort` is modelled as an insertion sort. The comparator never returns 0: it returns -1 both for `(a, b)` and for `(b, a)` when the keys are equal, and -1 for `(a, a)`. So it is not a consistent comparator, and ECMAScript leaves the whole resulting order implementation-defined, not only the order of equal keys. The model ASSUMES that the engine still returns an order sorted by key, as engines do for a comparator that uses "less than or equal" in place of "less than". The order of ties follows this insertion sort.
- The clock and local time zones are not modelled: `now` and `startOfDay` are parameters. `createdAt <= updatedAt` is preserved only when the clock does not go backwards (`old(Chronological() && NotAfter(now))` in the contracts).
- JavaScript numbers are modelled as unbounded integers. Due dates and timestamps are whole milliseconds. `NaN`, fractions and floating-point rounding are not modelled.
- A document without a `sharedWith` field is represented with the empty list. Every read in the source treats a missing list as empty.
- Argument validation by the `v.*` validators is enforced by the types of the argument records. A request with an id from another table cannot be expressed.
- Asynchrony, concurrency and transaction isolation are not modelled. Each handler is one sequential step on the store.
