/** Clients of the store that use nothing but the handlers' contracts: the
    walkthroughs a test suite for this backend would run. */
module Scenarios {
  import opened Text
  import opened Todos
  import opened Policy
  import opened Queries
  import opened Store

  /** An owner creates and completes a todo, a stranger cannot delete it, the
      owner can, and afterwards the owner's list no longer holds it. */
  method CreateCompleteDelete() {
    var owner, stranger := 1, 2;
    var store := new TodoStore(map[]);
    var args := CreateArgs("Buy milk", None, None, Low);
    assert !IsWhitespace(args.title[0]);
    var created := store.CreateTodo(Some(owner), args, 1000);
    var id := created.value;
    assert store.todos[id].status == Pending;
    var title := store.todos[id].title;

    var done := store.UpdateTodo(Some(owner), UpdateArgs(id, None, None, Some(Completed), None, None), 2000);
    assert done == Ok(());
    assert store.todos[id].status == Completed && store.todos[id].title == title;

    var refused := store.DeleteTodo(Some(stranger), id);
    assert refused == Err(NotAuthorizedToDelete);

    var deleted := store.DeleteTodo(Some(owner), id);
    assert deleted == Ok(());
    var listed := store.GetTodos(Some(owner), ListArgs(None, None, None, None));
    assert forall t :: t in listed.value ==> t.id != id;

    var again := store.UpdateTodo(Some(owner), UpdateArgs(id, None, None, None, None, None), 3000);
    assert again == Err(NotFound);
  }

  /** After sharing, the member's list holds the todo. */
  method ShareThenList() {
    var owner, member := 1, 2;
    var store := new TodoStore(map["m@example.com" := member]);
    var args := CreateArgs("Plan trip", None, None, Medium);
    assert !IsWhitespace(args.title[0]);
    var created := store.CreateTodo(Some(owner), args, 1000);
    var id := created.value;

    var shared := store.ShareTodo(Some(owner), id, "m@example.com", 2000);
    assert shared == Ok(());
    var todo := store.todos[id];
    assert todo.sharedWith == [member];
    var everything := ListArgs(None, None, None, None);
    assert Stored(store.todos, todo) && CanEdit(member, todo) && Matches(todo, everything);
    var seen := store.GetTodos(Some(member), everything);
    assert todo in seen.value;
  }

  /** Sharing again, sharing with oneself and re-sharing by a member all fail
      and leave the todo as it was. */
  method RefusedShares() {
    var owner, member := 1, 2;
    var store := new TodoStore(map["o@example.com" := owner, "m@example.com" := member]);
    assert "m@example.com" in store.users && store.users["m@example.com"] == member;
    assert "o@example.com" in store.users && store.users["o@example.com"] == owner;
    var args := CreateArgs("Plan trip", None, None, Medium);
    assert !IsWhitespace(args.title[0]);
    var created := store.CreateTodo(Some(owner), args, 1000);
    var id := created.value;
    var shared := store.ShareTodo(Some(owner), id, "m@example.com", 2000);
    assert shared == Ok(());
    var todo := store.todos[id];

    var twice := store.ShareTodo(Some(owner), id, "m@example.com", 2500);
    assert twice == Err(AlreadyShared);
    var self := store.ShareTodo(Some(owner), id, "o@example.com", 2500);
    assert self == Err(ShareWithSelf);
    var reshare := store.ShareTodo(Some(member), id, "o@example.com", 2500);
    assert reshare == Err(NotAuthorizedToShare);
    assert store.todos[id] == todo;
  }

  /** A member may edit a shared todo but not delete it. */
  method MemberEditsButCannotDelete() {
    var owner, member := 1, 2;
    var store := new TodoStore(map["m@example.com" := member]);
    var args := CreateArgs("Plan trip", None, None, Medium);
    assert !IsWhitespace(args.title[0]);
    var created := store.CreateTodo(Some(owner), args, 1000);
    var id := created.value;
    var shared := store.ShareTodo(Some(owner), id, "m@example.com", 2000);
    assert shared == Ok(());

    var refused := store.DeleteTodo(Some(member), id);
    assert refused == Err(NotAuthorizedToDelete);
    var edited := store.UpdateTodo(Some(member), UpdateArgs(id, None, None, None, None, Some(High)), 3000);
    assert edited == Ok(());
    assert store.todos[id].priority == High && store.todos[id].userId == owner;
  }
}
