/**
 * The todo record and the search filter of the landing page: a todo is shown
 * when its lower-cased title includes the lower-cased search term.
 */
module Todos {
  import opened Strings

  /** One item of the collection fetched from the todo API. */
  datatype Todo = Todo(id: int, title: string, completed: bool)

  /** `todo.title.toLowerCase().includes(searchTerm.toLowerCase())`. */
  predicate Matches(t: Todo, term: string) {
    Includes(LowerStr(t.title), LowerStr(term))
  }

  /**
   * A todo matches exactly when the lower-cased term occurs somewhere in the
   * lower-cased title, and the case of neither the title nor the term matters.
   */
  lemma MatchesIff(t: Todo, term: string)
    ensures Matches(t, term) <==> exists i :: OccursAt(LowerStr(t.title), LowerStr(term), i)
    ensures Matches(t, term) == Matches(t.(title := LowerStr(t.title)), LowerStr(term))
  {
    IncludesIff(LowerStr(t.title), LowerStr(term));
    LowerStrIdempotent(t.title);
    LowerStrIdempotent(term);
  }

  /** `todos.filter(todo => Matches(todo, term))`: the matching todos, in order. */
  function Filter(todos: seq<Todo>, term: string): (r: seq<Todo>)
    ensures |r| <= |todos|
    ensures forall k :: 0 <= k < |r| ==> r[k] in todos && Matches(r[k], term)
  {
    if todos == [] then []
    else if Matches(todos[0], term) then [todos[0]] + Filter(todos[1..], term)
    else Filter(todos[1..], term)
  }

  /** A todo is kept exactly when it is in the collection and matches the term. */
  lemma {:induction false} FilterMembership(todos: seq<Todo>, term: string, t: Todo)
    ensures t in Filter(todos, term) <==> t in todos && Matches(t, term)
  {
    if todos != [] {
      FilterMembership(todos[1..], term, t);
      assert todos == [todos[0]] + todos[1..];
    }
  }

  /** Filtering a concatenation filters each part and keeps them in order. */
  lemma {:induction false} FilterAppend(a: seq<Todo>, b: seq<Todo>, term: string)
    ensures Filter(a + b, term) == Filter(a, term) + Filter(b, term)
  {
    if a == [] {
      assert a + b == b;
    } else {
      assert (a + b)[0] == a[0] && (a + b)[1..] == a[1..] + b;
      FilterAppend(a[1..], b, term);
    }
  }

  /**
   * The positions, from `i` on, of the todos that match, in increasing order:
   * a position is listed exactly when the todo there matches.
   */
  function MatchIndices(todos: seq<Todo>, term: string, i: nat): (idx: seq<nat>)
    requires i <= |todos|
    ensures forall k :: 0 <= k < |idx| ==> i <= idx[k] < |todos|
    ensures forall k, l :: 0 <= k < l < |idx| ==> idx[k] < idx[l]
    ensures forall j :: i <= j < |todos| ==> (j in idx <==> Matches(todos[j], term))
    decreases |todos| - i
  {
    if i == |todos| then []
    else (if Matches(todos[i], term) then [i] else []) + MatchIndices(todos, term, i + 1)
  }

  /** One step of both recursions: position `i` contributes to the indices and the filter result together. */
  lemma FilterStep(todos: seq<Todo>, term: string, i: nat)
    requires i < |todos|
    ensures MatchIndices(todos, term, i) ==
      (if Matches(todos[i], term) then [i] else []) + MatchIndices(todos, term, i + 1)
    ensures Filter(todos[i..], term) ==
      (if Matches(todos[i], term) then [todos[i]] else []) + Filter(todos[i + 1..], term)
  {
    assert todos[i..][0] == todos[i] && todos[i..][1..] == todos[i + 1..];
  }

  /**
   * The filter result is the subsequence of `todos` at the positions
   * `MatchIndices` lists, so it keeps the original relative order.
   */
  lemma {:induction false} FilterIsSubsequence(todos: seq<Todo>, term: string, i: nat)
    requires i <= |todos|
    ensures var idx, r := MatchIndices(todos, term, i), Filter(todos[i..], term);
      |idx| == |r| && forall k :: 0 <= k < |idx| ==> r[k] == todos[idx[k]]
    decreases |todos| - i
  {
    if i < |todos| {
      FilterIsSubsequence(todos, term, i + 1);
      FilterStep(todos, term, i);
      var sub, rest := MatchIndices(todos, term, i + 1), Filter(todos[i + 1..], term);
      var m := Matches(todos[i], term);
      SubsequenceCons(todos, m, i, sub, rest);
    }
  }

  /** Putting the same optional head on an index list and on its image keeps them in step. */
  lemma SubsequenceCons(todos: seq<Todo>, m: bool, i: nat, sub: seq<nat>, rest: seq<Todo>)
    requires i < |todos|
    requires |sub| == |rest| && forall k :: 0 <= k < |sub| ==> sub[k] < |todos| && rest[k] == todos[sub[k]]
    ensures var idx, r := (if m then [i] else []) + sub, (if m then [todos[i]] else []) + rest;
      |idx| == |r| && forall k :: 0 <= k < |idx| ==> r[k] == todos[idx[k]]
  {
  }

  /** An empty search term keeps the whole collection. */
  lemma {:induction false} FilterEmptyTerm(todos: seq<Todo>)
    ensures Filter(todos, "") == todos
  {
    if todos != [] {
      IncludesEmpty(LowerStr(todos[0].title));
      FilterEmptyTerm(todos[1..]);
      assert todos == [todos[0]] + todos[1..];
    }
  }

  /** The search ignores the case of the term: lower-casing it first changes nothing. */
  lemma FilterCaseInsensitive(todos: seq<Todo>, term: string)
    ensures Filter(todos, LowerStr(term)) == Filter(todos, term)
  {
    LowerStrIdempotent(term);
  }
}
