/** What the query handlers read from the `todos` table. The table is given as
    the map from id to document together with the next id the store will hand
    out; ids are handed out in creation order, so ascending id order is the
    `_creationTime` order in which Convex returns documents, both from a full
    scan and from the `by_user` index. */
module Queries {
  import opened Text
  import opened Seqs
  import opened Todos
  import opened Policy

  /** The table's documents in creation order. */
  function Records(db: map<TodoId, Todo>, n: nat): seq<Todo> {
    if n == 0 then []
    else Records(db, n - 1) + (if n - 1 in db then [db[n - 1]] else [])
  }

  /** Each document is stored under its own id. */
  ghost predicate Keyed(db: map<TodoId, Todo>) {
    forall id :: id in db ==> db[id].id == id
  }

  /** The table invariant: documents under their own ids, every id below the
      next one to be handed out, and every document well-formed. */
  ghost predicate Consistent(db: map<TodoId, Todo>, n: nat) {
    Keyed(db) && forall id :: id in db ==> id < n && WellFormed(db[id])
  }

  /** Replacing a document by a well-formed one with the same id keeps the invariant. */
  lemma StorePatched(db: map<TodoId, Todo>, n: nat, id: TodoId, t: Todo)
    requires Consistent(db, n) && id in db && t.id == id && WellFormed(t)
    ensures Consistent(db[id := t], n)
  {
  }

  /** Inserting a well-formed document under the next id keeps the invariant
      with that id taken. */
  lemma StoreInserted(db: map<TodoId, Todo>, n: nat, t: Todo)
    requires Consistent(db, n) && t.id == n && WellFormed(t)
    ensures n !in db && Consistent(db[n := t], n + 1)
  {
  }

  /** `t` is the document the table holds under `t.id`. */
  ghost predicate Stored(db: map<TodoId, Todo>, t: Todo) {
    t.id in db && db[t.id] == t
  }

  ghost predicate DistinctIds(s: seq<Todo>) {
    forall i, j :: 0 <= i < j < |s| ==> s[i].id != s[j].id
  }

  /** A scan returns exactly the stored documents with ids below `n`, each once. */
  lemma {:induction false} RecordsSpec(db: map<TodoId, Todo>, n: nat)
    requires Keyed(db)
    ensures forall t :: t in Records(db, n) <==> t.id < n && Stored(db, t)
    ensures DistinctIds(Records(db, n))
  {
    if n > 0 {
      RecordsSpec(db, n - 1);
      var prev := Records(db, n - 1);
      if n - 1 in db {
        forall i | 0 <= i < |prev| ensures prev[i].id != n - 1 {
          assert prev[i] in prev;
        }
      }
    }
  }

  /** Filtering never makes two entries share an id. */
  lemma {:induction false} FilterDistinct(s: seq<Todo>, p: Todo -> bool)
    requires DistinctIds(s)
    ensures DistinctIds(Filter(s, p))
  {
    if s != [] {
      var init, last := s[..|s| - 1], s[|s| - 1];
      assert DistinctIds(init) by {
        forall i, j | 0 <= i < j < |init| ensures init[i].id != init[j].id {
          assert init[i] == s[i] && init[j] == s[j];
        }
      }
      FilterDistinct(init, p);
      var f := Filter(init, p);
      if p(last) {
        forall i | 0 <= i < |f| ensures f[i].id != last.id {
          assert f[i] in init;
          var k :| 0 <= k < |init| && init[k] == f[i];
          assert s[k] == f[i];
        }
        DistinctAppend(f, last);
      }
    }
  }

  lemma DistinctAppend(f: seq<Todo>, x: Todo)
    requires DistinctIds(f) && forall i :: 0 <= i < |f| ==> f[i].id != x.id
    ensures DistinctIds(f + [x])
  {
    var g := f + [x];
    forall i, j | 0 <= i < j < |g| ensures g[i].id != g[j].id {
      assert g[i] == f[i];
      if j < |f| { assert g[j] == f[j]; }
    }
  }

  /** Reordering a list without repeated ids keeps it without repeated ids. */
  lemma PermutationDistinct(a: seq<Todo>, b: seq<Todo>)
    requires multiset(a) == multiset(b) && DistinctIds(a)
    ensures DistinctIds(b)
  {
    forall i, j | 0 <= i < j < |b| ensures b[i].id != b[j].id {
      if b[i].id == b[j].id {
        assert b[i] in multiset(a) && b[j] in multiset(a);
        var p :| 0 <= p < |a| && a[p] == b[i];
        var q :| 0 <= q < |a| && a[q] == b[j];
        assert p == q;
        assert b == b[..j] + b[j..];
        assert b[i] in b[..j] && b[j] in b[j..];
        assert multiset(b)[b[i]] >= 2;
        AtMostOnce(a, p);
        assert false;
      }
    }
  }

  /** In a list without repeated ids, every element occurs once. */
  lemma AtMostOnce(a: seq<Todo>, p: nat)
    requires DistinctIds(a) && p < |a|
    ensures multiset(a)[a[p]] == 1
  {
    assert a == a[..p] + [a[p]] + a[p + 1..];
    assert a[p] !in a[..p] by {
      forall k | 0 <= k < p ensures a[..p][k] != a[p] { assert a[k] == a[..p][k]; }
    }
    assert a[p] !in a[p + 1..] by {
      forall k | p + 1 <= k < |a| ensures a[k] != a[p] { }
    }
  }

  // ---- getTodos ----

  /** `userTodos`: the caller's own documents, from the `by_user` index. */
  function OwnedBy(db: map<TodoId, Todo>, n: nat, u: UserId): (r: seq<Todo>)
    ensures forall t :: t in r <==> t in Records(db, n) && t.userId == u
  {
    Filter(Records(db, n), (t: Todo) => t.userId == u)
  }

  /** `sharedTodos`: a full scan filtered to documents shared with the caller. */
  function SharedWith(db: map<TodoId, Todo>, n: nat, u: UserId): (r: seq<Todo>)
    ensures forall t :: t in r <==> t in Records(db, n) && u in t.sharedWith
  {
    Filter(Records(db, n), (t: Todo) => u in t.sharedWith)
  }

  /** `allTodos` before filtering: owned documents, then shared ones. */
  function Visible(db: map<TodoId, Todo>, n: nat, u: UserId): seq<Todo> {
    OwnedBy(db, n, u) + SharedWith(db, n, u)
  }

  /** The status filter, which passes everything when no status is given. */
  function StatusFilter(args: ListArgs): Todo -> bool {
    (t: Todo) => args.status.Some? ==> t.status == args.status.value
  }

  /** The priority filter, which passes everything when no priority is given. */
  function PriorityFilter(args: ListArgs): Todo -> bool {
    (t: Todo) => args.priority.Some? ==> t.priority == args.priority.value
  }

  /** Both filters at once. */
  predicate Matches(t: Todo, args: ListArgs) {
    StatusFilter(args)(t) && PriorityFilter(args)(t)
  }

  /** `Matches` as a value that `Filter` can take. */
  function MatchFilter(args: ListArgs): Todo -> bool {
    (t: Todo) => Matches(t, args)
  }

  /** The visible documents that pass both filters, in concatenation order. */
  function Selected(db: map<TodoId, Todo>, n: nat, u: UserId, args: ListArgs): seq<Todo> {
    Filter(Visible(db, n, u), MatchFilter(args))
  }

  /** The visible set is exactly the stored documents the caller may edit, and
      the documents passing the filters are exactly those among them that match. */
  lemma SelectedExactly(db: map<TodoId, Todo>, n: nat, u: UserId, args: ListArgs)
    requires Consistent(db, n)
    ensures forall t :: t in Visible(db, n, u) <==> Stored(db, t) && CanEdit(u, t)
    ensures forall t :: t in Selected(db, n, u, args) <==> Stored(db, t) && CanEdit(u, t) && Matches(t, args)
  {
    RecordsSpec(db, n);
  }

  /** Because the owner is never in `sharedWith`, no document is both owned by
      and shared with the caller, so the concatenation lists each document once. */
  lemma {:induction false} VisibleDistinct(db: map<TodoId, Todo>, n: nat, u: UserId)
    requires Consistent(db, n)
    ensures DistinctIds(Visible(db, n, u))
  {
    RecordsSpec(db, n);
    var owned, shared := OwnedBy(db, n, u), SharedWith(db, n, u);
    FilterDistinct(Records(db, n), (t: Todo) => t.userId == u);
    FilterDistinct(Records(db, n), (t: Todo) => u in t.sharedWith);
    var all := owned + shared;
    forall i, j | 0 <= i < j < |all| ensures all[i].id != all[j].id {
      if i < |owned| && j >= |owned| {
        var x, y := all[i], all[j];
        assert x == owned[i] && x in owned;
        assert y == shared[j - |owned|] && y in shared;
        assert Stored(db, x) && Stored(db, y) && WellFormed(db[y.id]);
      } else if j < |owned| {
        assert all[i] == owned[i] && all[j] == owned[j];
      } else {
        assert all[i] == shared[i - |owned|] && all[j] == shared[j - |owned|];
      }
    }
  }

  lemma SelectedDistinct(db: map<TodoId, Todo>, n: nat, u: UserId, args: ListArgs)
    requires Consistent(db, n)
    ensures DistinctIds(Selected(db, n, u, args))
  {
    VisibleDistinct(db, n, u);
    FilterDistinct(Visible(db, n, u), MatchFilter(args));
  }

  /** Lexicographic order on sequences of numbers: a proper prefix comes first. */
  predicate SeqLess(a: seq<int>, b: seq<int>) {
    if a == [] then b != []
    else b != [] && (a[0] < b[0] || (a[0] == b[0] && SeqLess(a[1..], b[1..])))
  }

  lemma {:induction false} SeqLessIrreflexive(a: seq<int>)
    ensures !SeqLess(a, a)
  {
    if a != [] {
      SeqLessIrreflexive(a[1..]);
    }
  }

  /** JavaScript's `<` on strings: UTF-16 code unit by code unit. */
  predicate StrLess(a: string, b: string) {
    SeqLess(Utf16(a), Utf16(b))
  }

  /** Lexicographic order on characters, that is on Unicode code points. */
  predicate CodePointLess(a: string, b: string) {
    SeqLess(CodePoints(a), CodePoints(b))
  }

  /** On strings without surrogate pairs, JavaScript's order is code-point order. */
  lemma BmpOrderAgrees(a: string, b: string)
    requires IsBmp(a) && IsBmp(b)
    ensures StrLess(a, b) <==> CodePointLess(a, b)
  {
    Utf16Bmp(a);
    Utf16Bmp(b);
  }

  /** Above the Basic Multilingual Plane the two orders differ: U+FFFF is a
      smaller code point than U+10000 but a larger code unit than its high
      surrogate 0xD800. */
  lemma OrdersDifferAboveBmp()
    ensures CodePointLess("\U{FFFF}", "\U{10000}")
    ensures StrLess("\U{10000}", "\U{FFFF}") && !StrLess("\U{FFFF}", "\U{10000}")
  {
    var low, high := "\U{FFFF}", "\U{10000}";
    assert low[..0] == [] && high[..0] == [];
    assert Utf16(low) == [0xFFFF];
    assert Utf16(high) == [0xD800, 0xDC00];
  }

  /** Priorities sort by their literals as strings: "high" < "low" < "medium". */
  function PriorityRank(p: Priority): int {
    match p
    case High => 0
    case Low => 1
    case Medium => 2
  }

  /** The rank orders priorities exactly as JavaScript orders their literals. */
  lemma PriorityRankIsStringOrder(p: Priority, q: Priority)
    ensures PriorityRank(p) < PriorityRank(q) <==> StrLess(p.Literal(), q.Literal())
  {
    var a, b := p.Literal(), q.Literal();
    assert IsBmp(a) && IsBmp(b);
    BmpOrderAgrees(a, b);
    assert CodePoints(a) == seq(|a|, i requires 0 <= i < |a| => a[i] as int);
    if p == q {
      SeqLessIrreflexive(CodePoints(a));
    }
  }

  /** `a[args.sortBy]`, with a missing value read as 0. */
  function SortKey(t: Todo, field: SortField): int {
    match field
    case ByDueDate => if t.dueDate.Some? then t.dueDate.value else 0
    case ByPriority => PriorityRank(t.priority)
    case ByCreatedAt => t.createdAt
  }

  /** The key as the comparator orders it: negated for "desc", so that a
      sorted list has non-decreasing directed keys either way. */
  function DirectedKey(t: Todo, field: SortField, order: Option<SortOrder>): int {
    if order == Some(Desc) then -SortKey(t, field) else SortKey(t, field)
  }

  /** `x` may stand before `y`: non-decreasing keys, non-increasing for "desc". */
  predicate InOrder(x: Todo, y: Todo, field: SortField, order: Option<SortOrder>) {
    DirectedKey(x, field, order) <= DirectedKey(y, field, order)
  }

  /** The comparator handed to `Array.prototype.sort`. It never answers 0, so it
      says nothing about how equal keys are ordered. */
  function Compare(x: Todo, y: Todo, field: SortField, order: Option<SortOrder>): (c: int)
    ensures c == 1 || c == -1
    ensures c == -1 <==> InOrder(x, y, field, order)
    ensures order == Some(Desc) ==> (c == -1 <==> SortKey(x, field) >= SortKey(y, field))
    ensures order != Some(Desc) ==> (c == -1 <==> SortKey(x, field) <= SortKey(y, field))
  {
    var xVal, yVal := SortKey(x, field), SortKey(y, field);
    if order == Some(Desc) then (if yVal > xVal then 1 else -1)
    else (if xVal > yVal then 1 else -1)
  }

  ghost predicate Sorted(s: seq<Todo>, field: SortField, order: Option<SortOrder>) {
    forall i, j :: 0 <= i < j < |s| ==> InOrder(s[i], s[j], field, order)
  }

  // ---- getOverdueTodos, getTodosDueToday, searchTodos ----

  /** `q.lt(q.field("dueDate"), x)`. A missing due date compares below every
      number when `undatedFirst` holds; otherwise the comparison fails. */
  predicate DueBefore(due: Option<int>, x: int, undatedFirst: bool) {
    match due
    case Some(d) => d < x
    case None => undatedFirst
  }

  /** `q.gte(q.field("dueDate"), x)`. A missing due date fails it when a missing
      value sorts first; in `getTodosDueToday` the conjunction with `DueBefore`
      fails for a missing due date under either reading. */
  predicate DueFrom(due: Option<int>, x: int) {
    match due
    case Some(d) => d >= x
    case None => false
  }

  /** The caller's own documents that are due before `now` and not completed. */
  function GetOverdueTodos(db: map<TodoId, Todo>, n: nat, caller: Option<UserId>, now: int, undatedFirst: bool)
    : (r: Result<seq<Todo>>)
    requires Consistent(db, n)
    ensures r.Err? <==> caller.None?
    ensures r.Err? ==> r.error == NotAuthenticated
    ensures r.Ok? ==> DistinctIds(r.value)
    ensures r.Ok? ==> forall t :: t in r.value ==>
      && Stored(db, t) && t.userId == caller.value && t.status != Completed
      && (t.dueDate.Some? ==> t.dueDate.value < now)
      && (t.dueDate.None? ==> undatedFirst)
    ensures r.Ok? ==> forall id ::
      (id in db && db[id].userId == caller.value && db[id].status != Completed
       && DueBefore(db[id].dueDate, now, undatedFirst)) ==> db[id] in r.value
  {
    match Authenticate(caller)
    case Err(e) => Err(e)
    case Ok(u) =>
      RecordsSpec(db, n);
      var p := (t: Todo) => t.userId == u && DueBefore(t.dueDate, now, undatedFirst) && t.status != Completed;
      FilterDistinct(Records(db, n), p);
      Ok(Filter(Records(db, n), p))
  }

  /** The caller's own documents due in `[startOfDay, startOfDay + 24h)`;
      undated documents are never included. */
  function GetTodosDueToday(db: map<TodoId, Todo>, n: nat, caller: Option<UserId>, startOfDay: int)
    : (r: Result<seq<Todo>>)
    requires Consistent(db, n)
    ensures r.Err? <==> caller.None?
    ensures r.Err? ==> r.error == NotAuthenticated
    ensures r.Ok? ==> DistinctIds(r.value)
    ensures r.Ok? ==> forall t :: t in r.value ==>
      && Stored(db, t) && t.userId == caller.value && t.dueDate.Some?
      && startOfDay <= t.dueDate.value < startOfDay + DayMillis
    ensures r.Ok? ==> forall id ::
      (id in db && db[id].userId == caller.value && db[id].dueDate.Some?
       && startOfDay <= db[id].dueDate.value < startOfDay + DayMillis) ==> db[id] in r.value
  {
    match Authenticate(caller)
    case Err(e) => Err(e)
    case Ok(u) =>
      var endOfDay := startOfDay + DayMillis;
      RecordsSpec(db, n);
      var p := (t: Todo) => t.userId == u && DueFrom(t.dueDate, startOfDay) && DueBefore(t.dueDate, endOfDay, true);
      FilterDistinct(Records(db, n), p);
      Ok(Filter(Records(db, n), p))
  }

  /** The search index's hits for the caller: `ranked` is the index's
      relevance-ordered list of title matches, over every owner. */
  function OwnedMatches(ranked: seq<Todo>, u: UserId): (r: seq<Todo>)
    ensures forall t :: t in r <==> t in ranked && t.userId == u
  {
    Filter(ranked, (t: Todo) => t.userId == u)
  }

  /** A blank term yields nothing; otherwise the first 20 of the caller's own
      matches, in ranking order. */
  function SearchTodos(caller: Option<UserId>, term: string, ranked: seq<Todo>): (r: Result<seq<Todo>>)
    ensures r.Err? <==> caller.None?
    ensures r.Err? ==> r.error == NotAuthenticated
    ensures caller.Some? && IsBlank(term) ==> r == Ok([])
    ensures r.Ok? ==> |r.value| <= SearchLimit
    ensures r.Ok? ==> forall t :: t in r.value ==> t in ranked && t.userId == caller.value
    ensures r.Ok? && !IsBlank(term) ==>
      && r.value <= OwnedMatches(ranked, caller.value)
      && |r.value| == Min(SearchLimit, |OwnedMatches(ranked, caller.value)|)
  {
    match Authenticate(caller)
    case Err(e) => Err(e)
    case Ok(u) =>
      if JsLength(Trim(term)) == 0 then Ok([])
      else Ok(Take(OwnedMatches(ranked, u), SearchLimit))
  }
}
