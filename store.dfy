/** The `todos` table with the handlers that change it, and `getTodos`, which
    reassigns and sorts its result in place. The caller's identity and the clock
    are parameters: `caller` is what the identity provider returned (`None`
    when the request is not authenticated) and `now` is `Date.now()`. */
module Store {
  import opened Text
  import opened Seqs
  import opened Todos
  import opened Policy
  import opened Queries

  /** `Array.prototype.sort` with the `getTodos` comparator, as an insertion
      sort: an element moves left while the comparator puts it before its
      neighbour. */
  method SortInPlace(a: array<Todo>, field: SortField, order: Option<SortOrder>)
    modifies a
    ensures Sorted(a[..], field, order)
    ensures multiset(a[..]) == multiset(old(a[..]))
  {
    var i := 0;
    while i < a.Length
      invariant 0 <= i <= a.Length
      invariant forall p, q :: 0 <= p < q < i ==> InOrder(a[p], a[q], field, order)
      invariant multiset(a[..]) == multiset(old(a[..]))
    {
      InsertStep(a, i, field, order);
      i := i + 1;
    }
  }

  /** One pass of the insertion sort: `a[i]` moves left into the sorted `a[..i]`. */
  method InsertStep(a: array<Todo>, i: nat, field: SortField, order: Option<SortOrder>)
    requires i < a.Length
    requires forall p, q :: 0 <= p < q < i ==> InOrder(a[p], a[q], field, order)
    modifies a
    ensures forall p, q :: 0 <= p < q <= i ==> InOrder(a[p], a[q], field, order)
    ensures multiset(a[..]) == multiset(old(a[..]))
  {
    var j := i;
    assert OrderedExcept(a[..], i, j, field, order);
    while j > 0 && Compare(a[j - 1], a[j], field, order) > 0
      invariant 0 <= j <= i < a.Length
      invariant OrderedExcept(a[..], i, j, field, order)
      invariant multiset(a[..]) == multiset(old(a[..]))
    {
      ghost var before := a[..];
      a[j - 1], a[j] := a[j], a[j - 1];
      assert a[..] == before[j - 1 := before[j]][j := before[j - 1]];
      SwapKeepsOrder(before, a[..], i, j, field, order);
      j := j - 1;
    }
    GapClosed(a[..], i, j, field, order);
  }

  /** `s[..i + 1]` is in order except possibly between `s[j]` and what precedes it. */
  ghost predicate OrderedExcept(s: seq<Todo>, i: nat, j: nat, field: SortField, order: Option<SortOrder>)
    requires i < |s|
  {
    forall p, q :: 0 <= p < q <= i && q != j ==> InOrder(s[p], s[q], field, order)
  }

  /** Swapping the out-of-order pair at `j - 1`, `j` moves the one gap in the
      order of `s[..i + 1]` from `j` to `j - 1`. */
  lemma SwapKeepsOrder(s: seq<Todo>, t: seq<Todo>, i: nat, j: nat, field: SortField, order: Option<SortOrder>)
    requires 0 < j <= i < |s| && t == s[j - 1 := s[j]][j := s[j - 1]]
    requires OrderedExcept(s, i, j, field, order)
    requires !InOrder(s[j - 1], s[j], field, order)
    ensures OrderedExcept(t, i, j - 1, field, order)
  {
  }

  /** The gap closes at the front, or where the moving element meets a smaller key. */
  lemma GapClosed(s: seq<Todo>, i: nat, j: nat, field: SortField, order: Option<SortOrder>)
    requires j <= i < |s| && OrderedExcept(s, i, j, field, order)
    requires j == 0 || InOrder(s[j - 1], s[j], field, order)
    ensures forall p, q :: 0 <= p < q <= i ==> InOrder(s[p], s[q], field, order)
  {
  }

  /** The status filter when `status` is given, then the priority filter when
      `priority` is given: together, one conjunctive filter. */
  method ApplyFilters(all: seq<Todo>, args: ListArgs) returns (r: seq<Todo>)
    ensures r == Filter(all, MatchFilter(args))
  {
    r := all;
    if args.status.Some? {
      var status := args.status.value;
      var keep := (t: Todo) => t.status == status;
      FilterAgree(r, keep, StatusFilter(args));
      r := Filter(r, keep);
    } else {
      FilterKeepsAll(r, StatusFilter(args));
    }
    if args.priority.Some? {
      var priority := args.priority.value;
      var keep := (t: Todo) => t.priority == priority;
      FilterAgree(r, keep, PriorityFilter(args));
      r := Filter(r, keep);
    } else {
      FilterKeepsAll(r, PriorityFilter(args));
    }
    FilterFuse(all, StatusFilter(args), PriorityFilter(args), MatchFilter(args));
  }

  /** `s` sorted by the comparator, through an array sorted in place. */
  method SortedCopy(s: seq<Todo>, field: SortField, order: Option<SortOrder>) returns (r: seq<Todo>)
    ensures Sorted(r, field, order)
    ensures multiset(r) == multiset(s)
  {
    var a := new Todo[|s|](k requires 0 <= k < |s| => s[k]);
    assert a[..] == s;
    SortInPlace(a, field, order);
    r := a[..];
  }

  /** `updateTodo`'s `updates` object applied to `t`: each supplied field is
      validated and then set, in the handler's order; the first invalid field
      ends the call. */
  method CollectUpdates(t: Todo, args: UpdateArgs, now: int) returns (r: Result<Todo>)
    ensures UpdateFieldsError(args).Some? ==> r == Err(UpdateFieldsError(args).value)
    ensures UpdateFieldsError(args).None? ==> r == Ok(Patched(t, args, now))
  {
    var updated := t.(updatedAt := now);
    if args.title.Some? {
      var invalid := TitleError(args.title.value);
      if invalid.Some? {
        return Err(invalid.value);
      }
      updated := updated.(title := Trim(args.title.value));
    }
    if args.description.Some? {
      var invalid := UpdateDescriptionError(args.description);
      if invalid.Some? {
        return Err(invalid.value);
      }
      updated := updated.(description := Some(Trim(args.description.value)));
    }
    if args.status.Some? {
      updated := updated.(status := args.status.value);
    }
    if args.dueDate.Some? {
      updated := updated.(dueDate := args.dueDate);
    }
    if args.priority.Some? {
      updated := updated.(priority := args.priority.value);
    }
    return Ok(updated);
  }

  class TodoStore {
    /** The `todos` table, by `_id`. */
    var todos: map<TodoId, Todo>
    /** The id the store hands out on the next insert. */
    var nextId: TodoId
    /** The `users` table's `email` index. */
    var users: map<Email, UserId>

    ghost predicate Valid()
      reads this
    {
      Consistent(todos, nextId)
    }

    /** No document was last updated before it was created. */
    ghost predicate Chronological()
      reads this
    {
      forall id :: id in todos ==> todos[id].createdAt <= todos[id].updatedAt
    }

    /** The clock reads `now` or later than every stored update. */
    ghost predicate NotAfter(now: int)
      reads this
    {
      forall id :: id in todos ==> todos[id].updatedAt <= now
    }

    /** An empty table over the given user directory. */
    constructor (directory: map<Email, UserId>)
      ensures Valid() && Chronological()
      ensures todos == map[] && nextId == 0 && users == directory
    {
      todos := map[];
      nextId := 0;
      users := directory;
    }

    /** `createTodo`: validate, then insert one document owned by the caller. */
    method CreateTodo(caller: Option<UserId>, args: CreateArgs, now: int) returns (r: Result<TodoId>)
      requires Valid()
      modifies this
      ensures Valid() && users == old(users)
      ensures caller.None? ==> r == Err(NotAuthenticated)
      ensures caller.Some? && CreateError(args).Some? ==> r == Err(CreateError(args).value)
      ensures r.Err? ==> todos == old(todos) && nextId == old(nextId)
      ensures caller.Some? && CreateError(args).None? ==>
        && r == Ok(old(nextId)) && r.value !in old(todos)
        && todos == old(todos)[r.value := NewTodo(r.value, args, caller.value, now)]
        && nextId == old(nextId) + 1
      ensures old(Chronological() && NotAfter(now)) ==> Chronological() && NotAfter(now)
    {
      var auth := Authenticate(caller);
      if auth.Err? {
        return Err(auth.error);
      }
      var u := auth.value;
      var invalid := CreateError(args);
      if invalid.Some? {
        return Err(invalid.value);
      }
      var id := Insert(NewTodo(nextId, args, u, now));
      return Ok(id);
    }

    /** `ctx.db.insert`: store a document under the next id. */
    method Insert(t: Todo) returns (id: TodoId)
      requires Valid() && t.id == nextId && WellFormed(t)
      modifies this
      ensures Valid() && users == old(users)
      ensures id == old(nextId) && id !in old(todos)
      ensures todos == old(todos)[id := t] && nextId == old(nextId) + 1
      ensures old(Chronological()) && t.createdAt <= t.updatedAt ==> Chronological()
      ensures old(NotAfter(t.updatedAt)) ==> NotAfter(t.updatedAt)
    {
      StoreInserted(todos, nextId, t);
      id := nextId;
      todos := todos[id := t];
      nextId := nextId + 1;
    }

    /** `updateTodo`: not found, then not authorized, then the supplied fields'
        validation; on success one patch of the supplied fields and `updatedAt`. */
    method UpdateTodo(caller: Option<UserId>, args: UpdateArgs, now: int) returns (r: Result<()>)
      requires Valid()
      modifies this
      ensures Valid() && users == old(users) && nextId == old(nextId)
      ensures caller.None? ==> r == Err(NotAuthenticated)
      ensures caller.Some? && args.id !in old(todos) ==> r == Err(NotFound)
      ensures caller.Some? && args.id in old(todos) && !CanEdit(caller.value, old(todos)[args.id]) ==>
        r == Err(NotAuthorizedToEdit)
      ensures caller.Some? && args.id in old(todos) && CanEdit(caller.value, old(todos)[args.id]) ==>
        && (UpdateFieldsError(args).Some? ==> r == Err(UpdateFieldsError(args).value))
        && (UpdateFieldsError(args).None? ==> r == Ok(()))
      ensures r.Err? ==> todos == old(todos)
      ensures r.Ok? ==> args.id in old(todos) && todos == old(todos)[args.id := Patched(old(todos)[args.id], args, now)]
      ensures old(Chronological() && NotAfter(now)) ==> Chronological() && NotAfter(now)
    {
      var auth := Authenticate(caller);
      if auth.Err? {
        return Err(auth.error);
      }
      var u := auth.value;
      if args.id !in todos {
        return Err(NotFound);
      }
      var t := todos[args.id];
      if !CanEdit(u, t) {
        return Err(NotAuthorizedToEdit);
      }
      var updates := CollectUpdates(t, args, now);
      if updates.Err? {
        return Err(updates.error);
      }
      var updated := updates.value;
      StorePatched(todos, nextId, args.id, updated);
      todos := todos[args.id := updated];
      return Ok(());
    }

    /** `deleteTodo`: only the owner may remove a document; a shared member is refused. */
    method DeleteTodo(caller: Option<UserId>, id: TodoId) returns (r: Result<()>)
      requires Valid()
      modifies this
      ensures Valid() && users == old(users) && nextId == old(nextId)
      ensures caller.None? ==> r == Err(NotAuthenticated)
      ensures caller.Some? && id !in old(todos) ==> r == Err(NotFound)
      ensures caller.Some? && id in old(todos) && !CanDelete(caller.value, old(todos)[id]) ==>
        r == Err(NotAuthorizedToDelete)
      ensures caller.Some? && id in old(todos) && CanDelete(caller.value, old(todos)[id]) ==> r == Ok(())
      ensures r.Err? ==> todos == old(todos)
      ensures r.Ok? ==> id in old(todos) && id !in todos && todos == old(todos) - {id}
      ensures old(Chronological()) ==> Chronological()
    {
      var auth := Authenticate(caller);
      if auth.Err? {
        return Err(auth.error);
      }
      var u := auth.value;
      if id !in todos {
        return Err(NotFound);
      }
      if !CanDelete(u, todos[id]) {
        return Err(NotAuthorizedToDelete);
      }
      todos := todos - {id};
      return Ok(());
    }

    /** `shareTodo`: not found, not the owner, unknown email, the caller's own
        email, already shared; on success the user is appended to `sharedWith`. */
    method ShareTodo(caller: Option<UserId>, todoId: TodoId, email: Email, now: int) returns (r: Result<()>)
      requires Valid()
      modifies this
      ensures Valid() && users == old(users) && nextId == old(nextId)
      ensures caller.None? ==> r == Err(NotAuthenticated)
      ensures caller.Some? && todoId !in old(todos) ==> r == Err(NotFound)
      ensures caller.Some? && todoId in old(todos) && !CanShare(caller.value, old(todos)[todoId]) ==>
        r == Err(NotAuthorizedToShare)
      ensures caller.Some? && todoId in old(todos) && CanShare(caller.value, old(todos)[todoId]) ==>
        && (email !in users ==> r == Err(UserNotFound))
        && (email in users && users[email] == caller.value ==> r == Err(ShareWithSelf))
        && (email in users && users[email] != caller.value && users[email] in old(todos)[todoId].sharedWith ==>
              r == Err(AlreadyShared))
        && (email in users && users[email] != caller.value && users[email] !in old(todos)[todoId].sharedWith ==>
              r == Ok(()))
      ensures r.Err? ==> todos == old(todos)
      ensures r.Ok? ==> todoId in old(todos) && email in users
      ensures r.Ok? ==> todos == old(todos)[todoId := WithMember(old(todos)[todoId], users[email], now)]
      ensures old(Chronological() && NotAfter(now)) ==> Chronological() && NotAfter(now)
    {
      var auth := Authenticate(caller);
      if auth.Err? {
        return Err(auth.error);
      }
      var u := auth.value;
      if todoId !in todos {
        return Err(NotFound);
      }
      var t := todos[todoId];
      if !CanShare(u, t) {
        return Err(NotAuthorizedToShare);
      }
      if email !in users {
        return Err(UserNotFound);
      }
      var target := users[email];
      if target == u {
        return Err(ShareWithSelf);
      }
      if target in t.sharedWith {
        return Err(AlreadyShared);
      }
      StorePatched(todos, nextId, todoId, WithMember(t, target, now));
      todos := todos[todoId := WithMember(t, target, now)];
      return Ok(());
    }

    /** `getTodos`: the caller's own documents followed by those shared with the
        caller, narrowed by the optional status and priority filters, then
        sorted in place when `sortBy` is given. */
    method GetTodos(caller: Option<UserId>, args: ListArgs) returns (r: Result<seq<Todo>>)
      requires Valid()
      ensures r.Err? <==> caller.None?
      ensures r.Err? ==> r.error == NotAuthenticated
      ensures r.Ok? ==> multiset(r.value) == multiset(Selected(todos, nextId, caller.value, args))
      ensures r.Ok? && args.sortBy.None? ==> r.value == Selected(todos, nextId, caller.value, args)
      ensures r.Ok? && args.sortBy.Some? ==> Sorted(r.value, args.sortBy.value, args.sortOrder)
      ensures r.Ok? ==> DistinctIds(r.value)
      ensures r.Ok? ==> forall t :: t in r.value <==> Stored(todos, t) && CanEdit(caller.value, t) && Matches(t, args)
    {
      var auth := Authenticate(caller);
      if auth.Err? {
        return Err(auth.error);
      }
      var u := auth.value;
      var all := OwnedBy(todos, nextId, u) + SharedWith(todos, nextId, u);
      all := ApplyFilters(all, args);
      assert all == Selected(todos, nextId, u, args);
      SelectedExactly(todos, nextId, u, args);
      SelectedDistinct(todos, nextId, u, args);
      if args.sortBy.Some? {
        ghost var unsorted := all;
        all := SortedCopy(all, args.sortBy.value, args.sortOrder);
        PermutationDistinct(unsorted, all);
        assert forall t :: t in all <==> t in unsorted by {
          assert forall t :: t in all <==> t in multiset(all);
          assert forall t :: t in unsorted <==> t in multiset(unsorted);
        }
      }
      return Ok(all);
    }
  }
}
