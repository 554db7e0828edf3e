/** The checks the mutation handlers run before they touch the store: who the
    caller is, what the caller may do to a todo, and which inputs are accepted;
    and the records those handlers write. */
module Policy {
  import opened Text
  import opened Todos

  /** `getAuthenticatedUser`: the identity provider's answer, or "Not authenticated". */
  function Authenticate(caller: Option<UserId>): (r: Result<UserId>)
    ensures r.Err? <==> caller.None?
    ensures r.Err? ==> r.error == NotAuthenticated
    ensures r.Ok? ==> Some(r.value) == caller
  {
    match caller
    case None => Err(NotAuthenticated)
    case Some(u) => Ok(u)
  }

  /** The owner and every member of `sharedWith` may edit (any field, any status). */
  predicate CanEdit(u: UserId, t: Todo) {
    t.userId == u || u in t.sharedWith
  }

  /** Only the owner may delete. */
  predicate CanDelete(u: UserId, t: Todo) {
    t.userId == u
  }

  /** Only the owner may share. */
  predicate CanShare(u: UserId, t: Todo) {
    t.userId == u
  }

  /** The owner may do everything; anyone else may at most edit, and may edit
      exactly when listed in `sharedWith`. */
  lemma OwnerMayDoAll(u: UserId, t: Todo)
    ensures CanDelete(u, t) <==> CanShare(u, t)
    ensures CanDelete(u, t) ==> CanEdit(u, t)
    ensures CanEdit(u, t) && !CanDelete(u, t) <==> u in t.sharedWith && u != t.userId
  {
  }

  /** Sharing grants editing and nothing more: a member of `sharedWith` of a
      well-formed todo is never its owner, so it may neither delete nor share. */
  lemma SharedMemberMayOnlyEdit(u: UserId, t: Todo)
    requires WellFormed(t) && u in t.sharedWith
    ensures CanEdit(u, t) && !CanDelete(u, t) && !CanShare(u, t)
  {
  }

  /** The title checks of both `createTodo` and `updateTodo`: emptiness on the
      trimmed title, length on the title as given. */
  function TitleError(title: string): (e: Option<Error>)
    ensures e == Some(TitleEmpty) <==> IsBlank(title)
    ensures e == Some(TitleTooLong) <==> !IsBlank(title) && JsLength(title) > MaxTitleLength
    ensures e.None? <==> !IsBlank(title) && JsLength(title) <= MaxTitleLength
    ensures e.None? ==> Trim(title) != [] && JsLength(Trim(title)) <= MaxTitleLength
  {
    if JsLength(Trim(title)) == 0 then Some(TitleEmpty)
    else if JsLength(title) > MaxTitleLength then Some(TitleTooLong)
    else None
  }

  /** `createTodo`'s description check: skipped for an absent or empty
      description, otherwise the length of the description as given. */
  function CreateDescriptionError(description: Option<string>): (e: Option<Error>)
    ensures e.Some? ==> e.value == DescriptionTooLong
    ensures e.Some? <==> description.Some? && JsLength(description.value) > MaxDescriptionLength
  {
    if description.Some? && description.value != [] && JsLength(description.value) > MaxDescriptionLength
    then Some(DescriptionTooLong)
    else None
  }

  /** `updateTodo`'s description check, applied whenever a description is supplied. */
  function UpdateDescriptionError(description: Option<string>): (e: Option<Error>)
    ensures e.Some? ==> e.value == DescriptionTooLong
    ensures e.Some? <==> description.Some? && JsLength(description.value) > MaxDescriptionLength
    ensures e.None? && description.Some? ==> JsLength(Trim(description.value)) <= MaxDescriptionLength
  {
    if description.Some? && JsLength(description.value) > MaxDescriptionLength
    then Some(DescriptionTooLong)
    else None
  }

  function Repeat(c: char, n: nat): (s: string)
    ensures |s| == n && forall i :: 0 <= i < n ==> s[i] == c
  {
    if n == 0 then [] else Repeat(c, n - 1) + [c]
  }

  lemma {:induction false} JsLengthRepeat(c: char, n: nat)
    requires c as int < 0x1_0000
    ensures JsLength(Repeat(c, n)) == n
  {
    if n > 0 {
      JsLengthRepeat(c, n - 1);
      assert Repeat(c, n)[..n - 1] == Repeat(c, n - 1);
    }
  }

  /** Exactly 200 letters pass and 201 fail; and because the length is taken
      before trimming, one leading space makes a title fail whose trimmed form
      (the 200 letters that would be stored) is within the limit. */
  lemma TitleLengthBoundary()
    ensures TitleError(Repeat('a', MaxTitleLength)).None?
    ensures TitleError(Repeat('a', MaxTitleLength + 1)) == Some(TitleTooLong)
    ensures Trim(" " + Repeat('a', MaxTitleLength)) == Repeat('a', MaxTitleLength)
    ensures TitleError(" " + Repeat('a', MaxTitleLength)) == Some(TitleTooLong)
  {
    var letters, padded := Repeat('a', MaxTitleLength), " " + Repeat('a', MaxTitleLength);
    JsLengthRepeat('a', MaxTitleLength);
    JsLengthRepeat('a', MaxTitleLength + 1);
    JsLengthConcat(" ", letters);
    assert !IsWhitespace(letters[0]);
    assert Repeat('a', MaxTitleLength + 1)[0] == 'a';
    assert padded[1..] == letters;
    assert TrimStart(padded) == TrimStart(letters) == letters;
    assert TrimEnd(letters) == letters;
  }

  /** The truthiness guard in `createTodo` changes nothing: an empty description
      is never too long, so both handlers accept the same descriptions. */
  lemma DescriptionChecksAgree(description: Option<string>)
    ensures CreateDescriptionError(description) == UpdateDescriptionError(description)
  {
  }

  /** The first failing check of `createTodo`, title before description. */
  function CreateError(a: CreateArgs): (e: Option<Error>)
    ensures e.None? <==>
      !IsBlank(a.title) && JsLength(a.title) <= MaxTitleLength
      && (a.description.Some? ==> JsLength(a.description.value) <= MaxDescriptionLength)
    ensures TitleError(a.title).Some? ==> e == TitleError(a.title)
    ensures TitleError(a.title).None? ==> e == CreateDescriptionError(a.description)
  {
    if TitleError(a.title).Some? then TitleError(a.title) else CreateDescriptionError(a.description)
  }

  /** The first failing check among the fields `updateTodo` was given, title
      before description; fields that were not supplied are not checked. */
  function UpdateFieldsError(a: UpdateArgs): (e: Option<Error>)
    ensures e.None? <==>
      (a.title.Some? ==> !IsBlank(a.title.value) && JsLength(a.title.value) <= MaxTitleLength)
      && (a.description.Some? ==> JsLength(a.description.value) <= MaxDescriptionLength)
    ensures a.title.Some? && TitleError(a.title.value).Some? ==> e == TitleError(a.title.value)
    ensures (a.title.None? || TitleError(a.title.value).None?) ==> e == UpdateDescriptionError(a.description)
    ensures a.title.None? && a.description.None? ==> e.None?
  {
    if a.title.Some? && TitleError(a.title.value).Some? then TitleError(a.title.value)
    else UpdateDescriptionError(a.description)
  }

  /** Supplied fields that pass validation are stored within the invariant's bounds. */
  lemma ValidFieldsStored(a: UpdateArgs)
    ensures UpdateFieldsError(a).None? && a.title.Some? ==>
      Trim(a.title.value) != [] && IsTrimmed(Trim(a.title.value))
      && JsLength(Trim(a.title.value)) <= MaxTitleLength
    ensures UpdateFieldsError(a).None? && a.description.Some? ==>
      IsTrimmed(Trim(a.description.value)) && JsLength(Trim(a.description.value)) <= MaxDescriptionLength
  {
    if UpdateFieldsError(a).None? && a.title.Some? {
      assert TitleError(a.title.value).None?;
    }
    if UpdateFieldsError(a).None? && a.description.Some? {
      assert UpdateDescriptionError(a.description).None?;
    }
  }

  function TrimOption(s: Option<string>): Option<string> {
    match s
    case None => None
    case Some(v) => Some(Trim(v))
  }

  /** The document `createTodo` inserts for owner `u` at time `now`. When the
      arguments pass validation it satisfies the table's invariant. */
  function NewTodo(id: TodoId, a: CreateArgs, u: UserId, now: int): (t: Todo)
    ensures t.id == id && t.userId == u && t.sharedWith == []
    ensures t.status == Pending && t.createdAt == now && t.updatedAt == now
    ensures t.title == Trim(a.title) && t.description == TrimOption(a.description)
    ensures t.dueDate == a.dueDate && t.priority == a.priority
    ensures CreateError(a).None? ==> WellFormed(t)
  {
    Todo(id, Trim(a.title), TrimOption(a.description), Pending, a.dueDate, a.priority, u, [], now, now)
  }

  /** The document after `updateTodo`'s patch: each supplied field replaced
      (title and description trimmed), everything else kept, `updatedAt`
      refreshed even when nothing was supplied. */
  function Patched(t: Todo, a: UpdateArgs, now: int): (p: Todo)
    ensures p.id == t.id && p.userId == t.userId && p.sharedWith == t.sharedWith
    ensures p.createdAt == t.createdAt && p.updatedAt == now
    ensures p.title == (if a.title.Some? then Trim(a.title.value) else t.title)
    ensures p.description == (if a.description.Some? then Some(Trim(a.description.value)) else t.description)
    ensures p.status == (if a.status.Some? then a.status.value else t.status)
    ensures p.dueDate == (if a.dueDate.Some? then a.dueDate else t.dueDate)
    ensures p.priority == (if a.priority.Some? then a.priority.value else t.priority)
    ensures WellFormed(t) && UpdateFieldsError(a).None? ==> WellFormed(p)
    ensures t.createdAt <= now ==> p.createdAt <= p.updatedAt
  {
    ValidFieldsStored(a);
    t.(
      title := if a.title.Some? then Trim(a.title.value) else t.title,
      description := if a.description.Some? then Some(Trim(a.description.value)) else t.description,
      status := if a.status.Some? then a.status.value else t.status,
      dueDate := if a.dueDate.Some? then a.dueDate else t.dueDate,
      priority := if a.priority.Some? then a.priority.value else t.priority,
      updatedAt := now)
  }

  /** The document after `shareTodo`'s patch: `v` appended to `sharedWith` and
      `updatedAt` refreshed, nothing else changed. Appending a user who is
      neither the owner nor already a member keeps the sharing list free of
      the owner and of repeats; the new member may edit but not delete or share. */
  function WithMember(t: Todo, v: UserId, now: int): (s: Todo)
    ensures s.sharedWith == t.sharedWith + [v] && s.updatedAt == now
    ensures s == t.(sharedWith := s.sharedWith, updatedAt := now)
    ensures WellFormed(t) && v != t.userId && v !in t.sharedWith ==> WellFormed(s)
    ensures CanEdit(v, s)
    ensures v != t.userId ==> !CanDelete(v, s) && !CanShare(v, s)
  {
    t.(sharedWith := t.sharedWith + [v], updatedAt := now)
  }
}
