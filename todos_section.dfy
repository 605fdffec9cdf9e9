/**
 * The todos section of the todo example: the filter and search its render
 * applies to the todos it receives, and the children of the section it
 * returns.
 */
module TodosSection {
  import opened Seqs
  import opened TodoApp

  /** `s.toLowerCase()`, on the ASCII letters. */
  function Lower(s: string): (r: string)
    ensures |r| == |s|
    ensures forall i :: 0 <= i < |s| ==> r[i] == if 'A' <= s[i] <= 'Z' then (s[i] as int + 32) as char else s[i]
  {
    seq(|s|, i requires 0 <= i < |s| => if 'A' <= s[i] <= 'Z' then (s[i] as int + 32) as char else s[i])
  }

  /** `sub` occurs in `s` starting at position `i`. */
  predicate OccursAt(s: string, sub: string, i: int)
  {
    0 <= i <= |s| - |sub| && s[i..i + |sub|] == sub
  }

  /** `s.includes(sub)`: `sub` occurs in `s` at some position. */
  predicate Includes(s: string, sub: string)
  {
    exists i :: 0 <= i <= |s| && OccursAt(s, sub, i)
  }

  /** The filter tab test: "active" and "completed" select by completion; every other filter value selects all. */
  predicate MatchesFilter(filter: string, t: Todo)
  {
    if filter == "all" then true
    else if filter == "active" then !t.completed
    else if filter == "completed" then t.completed
    else true
  }

  /** The search test: an empty query matches every todo; any other must occur in the text, ignoring case. */
  predicate MatchesSearch(searchQuery: string, t: Todo)
  {
    searchQuery == "" || Includes(Lower(t.text), Lower(searchQuery))
  }

  function Shown(filter: string, searchQuery: string): Todo -> bool
  {
    (t: Todo) => MatchesFilter(filter, t) && MatchesSearch(searchQuery, t)
  }

  /** `filteredTodos`: the todos that pass both tests, in their order. */
  function FilteredTodos(todos: seq<Todo>, filter: string, searchQuery: string): (r: seq<Todo>)
    ensures forall t :: t in r <==> t in todos && MatchesFilter(filter, t) && MatchesSearch(searchQuery, t)
  {
    Filter(todos, Shown(filter, searchQuery))
  }

  /** The filtered todos are an order-preserving subsequence of the todos. */
  lemma FilteredIsSubsequence(todos: seq<Todo>, filter: string, searchQuery: string)
    ensures Subsequence(FilteredTodos(todos, filter, searchQuery), todos)
  {
    FilterIsSubsequence(todos, Shown(filter, searchQuery));
  }

  /** With the "all" filter and no search, every todo is shown. */
  lemma AllUnfiltered(todos: seq<Todo>)
    ensures FilteredTodos(todos, "all", "") == todos
  {
    FilterKeepsAll(todos, Shown("all", ""));
  }

  /** An empty query imposes nothing beyond the filter tab. */
  lemma EmptySearch(todos: seq<Todo>, filter: string)
    ensures FilteredTodos(todos, filter, "") == Filter(todos, (t: Todo) => MatchesFilter(filter, t))
  {
    FilterAgree(todos, Shown(filter, ""), (t: Todo) => MatchesFilter(filter, t));
  }

  /** "active" with no search shows exactly the todos not completed: the list `clearCompleted` keeps. */
  lemma ActiveTab(todos: seq<Todo>)
    ensures FilteredTodos(todos, "active", "") == ClearedCompleted(todos)
  {
    FilterAgree(todos, Shown("active", ""), IsActive);
  }

  /** "completed" shows only completed todos, and every completed todo whose text matches. */
  lemma CompletedTab(todos: seq<Todo>, searchQuery: string)
    ensures var r := FilteredTodos(todos, "completed", searchQuery);
      (forall i :: 0 <= i < |r| ==> r[i].completed) &&
      (forall t :: t in todos && t.completed && MatchesSearch(searchQuery, t) ==> t in r)
  {
  }

  /** A filter value other than the three tabs behaves like "all". */
  lemma OtherFilterIsAll(todos: seq<Todo>, filter: string, searchQuery: string)
    requires filter != "all" && filter != "active" && filter != "completed"
    ensures FilteredTodos(todos, filter, searchQuery) == FilteredTodos(todos, "all", searchQuery)
  {
    FilterAgree(todos, Shown(filter, searchQuery), Shown("all", searchQuery));
  }

  /** The filter and the search commute: filtering by one and then the other is filtering by both. */
  lemma FilterThenSearch(todos: seq<Todo>, filter: string, searchQuery: string)
    ensures Filter(FilteredTodos(todos, filter, ""), Shown("all", searchQuery)) == FilteredTodos(todos, filter, searchQuery)
  {
    FilterFilter(todos, Shown(filter, ""), Shown("all", searchQuery), Shown(filter, searchQuery));
  }

  /** Lower-casing twice is lower-casing once. */
  lemma LowerIdempotent(s: string)
    ensures Lower(Lower(s)) == Lower(s)
  {
  }

  /** The search ignores the case of the query. */
  lemma SearchIgnoresCase(todos: seq<Todo>, filter: string, searchQuery: string)
    ensures FilteredTodos(todos, filter, Lower(searchQuery)) == FilteredTodos(todos, filter, searchQuery)
  {
    LowerIdempotent(searchQuery);
    FilterAgree(todos, Shown(filter, Lower(searchQuery)), Shown(filter, searchQuery));
  }

  /** The children of the section's root `div`, by the component or element each is. */
  datatype Part =
    | FilterBar(filter: string, searchQuery: string)
    | CreateTodoForm
    | TodoList(todos: seq<Todo>)
    | EmptyState(searchQuery: string, filter: string)

  /**
   * `render()`: the filter bar, the creation form and the list of filtered
   * todos, followed by the empty-state component when no todo is shown.
   */
  function Render(todos: seq<Todo>, filter: string, searchQuery: string): (r: seq<Part>)
    ensures 3 <= |r| <= 4
    ensures r[..3] == [FilterBar(filter, searchQuery), CreateTodoForm, TodoList(FilteredTodos(todos, filter, searchQuery))]
  {
    var shown := FilteredTodos(todos, filter, searchQuery);
    [FilterBar(filter, searchQuery), CreateTodoForm, TodoList(shown)] +
    (if |shown| == 0 then [EmptyState(searchQuery, filter)] else [])
  }

  /** The empty state is among the children exactly when no todo is shown. */
  lemma EmptyStateShown(todos: seq<Todo>, filter: string, searchQuery: string)
    ensures (exists i :: 0 <= i < |Render(todos, filter, searchQuery)| && Render(todos, filter, searchQuery)[i].EmptyState?) <==>
      FilteredTodos(todos, filter, searchQuery) == []
  {
    var r := Render(todos, filter, searchQuery);
    if FilteredTodos(todos, filter, searchQuery) == [] {
      assert r[3].EmptyState?;
    }
  }
}
