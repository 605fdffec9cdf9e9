/**
 * The todo example's root component: the todo records, the operations its
 * event handlers run on them, and the counts its render shows. Each
 * operation computes a new array and hands it to `updateState`, whose effect
 * on the component (merge, patch, `onStateChange` job) is modelled by
 * `Components.Component.UpdateState`; here it is the replacement of the
 * `todos` field.
 */
module TodoApp {
  import opened Seqs
  import opened Values

  /** A todo record; `id` comes from `crypto.randomUUID()` and `createdAt` from `Date.now()`. */
  datatype Todo = Todo(id: string, text: string, completed: bool, priority: Value, category: Value, dueDate: Value, createdAt: int)

  /** The payload of the `add` event. */
  datatype TodoData = TodoData(text: string, priority: Value, category: Value, dueDate: Value)

  /** The payload of the `edit` event. */
  datatype TodoEdit = TodoEdit(id: string, text: string, priority: Value, category: Value, dueDate: Value)

  /** JavaScript truthiness; numbers are integers here, so there is no `NaN`. */
  predicate Truthy(v: Value)
  {
    match v
    case Undefined => false
    case Null => false
    case Bool(b) => b
    case Num(n) => n != 0
    case Str(s) => s != ""
    case _ => true
  }

  /** `v || fallback`. */
  function Or(v: Value, fallback: Value): (r: Value)
    ensures Truthy(v) ==> r == v
    ensures !Truthy(v) ==> r == fallback
  {
    if Truthy(v) then v else fallback
  }

  /**
   * `addTodo(todoData)`: one new todo at the end, not completed, with the
   * given text, the given id and time, and priority "low", category
   * "personal" and a `null` due date when the payload gives a falsy one.
   */
  function Added(todos: seq<Todo>, data: TodoData, id: string, now: int): (r: seq<Todo>)
    ensures |r| == |todos| + 1 && r[..|todos|] == todos
    ensures var t := r[|todos|];
      t.id == id && t.text == data.text && !t.completed && t.createdAt == now &&
      t.priority == (if Truthy(data.priority) then data.priority else Str("low")) &&
      t.category == (if Truthy(data.category) then data.category else Str("personal")) &&
      t.dueDate == (if Truthy(data.dueDate) then data.dueDate else Null)
  {
    var todo := Todo(id, data.text, false, Or(data.priority, Str("low")), Or(data.category, Str("personal")), Or(data.dueDate, Null), now);
    todos + [todo]
  }

  function HasOtherId(id: string): Todo -> bool
  {
    (t: Todo) => t.id != id
  }

  /** `removeTodo(id)`: the todos whose id differs, in order. */
  function Removed(todos: seq<Todo>, id: string): (r: seq<Todo>)
    ensures Subsequence(r, todos)
    ensures forall t :: t in r <==> t in todos && t.id != id
  {
    FilterIsSubsequence(todos, HasOtherId(id));
    Filter(todos, HasOtherId(id))
  }

  /** The ids of the todos, in order. */
  function Ids(todos: seq<Todo>): (r: seq<string>)
    ensures |r| == |todos| && forall i :: 0 <= i < |todos| ==> r[i] == todos[i].id
  {
    seq(|todos|, i requires 0 <= i < |todos| => todos[i].id)
  }

  /**
   * With distinct ids, removing the id of the todo at `k` drops exactly that
   * position; removing an id no todo has changes nothing.
   */
  lemma RemovedAt(todos: seq<Todo>, k: nat)
    requires Distinct(Ids(todos)) && k < |todos|
    ensures Removed(todos, todos[k].id) == todos[..k] + todos[k + 1..]
  {
    var id := todos[k].id;
    var p := HasOtherId(id);
    var before, after := todos[..k], todos[k + 1..];
    assert todos == before + [todos[k]] + after;
    forall i | 0 <= i < |before| ensures before[i].id != id {
      assert Ids(todos)[i] != Ids(todos)[k];
    }
    forall i | 0 <= i < |after| ensures after[i].id != id {
      assert Ids(todos)[k] != Ids(todos)[k + 1 + i];
    }
    KeepsOthers(before, id);
    KeepsOthers(after, id);
    FilterConcat(before + [todos[k]], after, p);
    FilterConcat(before, [todos[k]], p);
    FilterCons(todos[k], [], p);
    assert [todos[k]] + [] == [todos[k]];
  }

  lemma KeepsOthers(todos: seq<Todo>, id: string)
    requires forall i :: 0 <= i < |todos| ==> todos[i].id != id
    ensures Filter(todos, HasOtherId(id)) == todos
  {
    FilterKeepsAll(todos, HasOtherId(id));
  }

  lemma RemovedMissing(todos: seq<Todo>, id: string)
    requires id !in Ids(todos)
    ensures Removed(todos, id) == todos
  {
    forall i | 0 <= i < |todos| ensures todos[i].id != id {
      assert Ids(todos)[i] == todos[i].id;
    }
    KeepsOthers(todos, id);
  }

  /**
   * `editTodo({id, text, priority, category, dueDate})`: every todo with the
   * id gets the four new fields and keeps its id, completion and creation
   * time; every other todo is unchanged; the order and length are kept.
   */
  function Edited(todos: seq<Todo>, e: TodoEdit): (r: seq<Todo>)
    ensures |r| == |todos|
    ensures forall i :: 0 <= i < |todos| ==>
      r[i].id == todos[i].id && r[i].completed == todos[i].completed && r[i].createdAt == todos[i].createdAt
    ensures forall i :: 0 <= i < |todos| && todos[i].id == e.id ==>
      r[i].text == e.text && r[i].priority == e.priority && r[i].category == e.category && r[i].dueDate == e.dueDate
    ensures forall i :: 0 <= i < |todos| && todos[i].id != e.id ==> r[i] == todos[i]
  {
    seq(|todos|, i requires 0 <= i < |todos| =>
      if todos[i].id == e.id then todos[i].(text := e.text, priority := e.priority, category := e.category, dueDate := e.dueDate)
      else todos[i])
  }

  /**
   * `toggleTodo(id)`: every todo with the id has its completion flipped and
   * nothing else changed; the other todos, the order and the length are kept.
   */
  function Toggled(todos: seq<Todo>, id: string): (r: seq<Todo>)
    ensures |r| == |todos|
    ensures forall i :: 0 <= i < |todos| ==> r[i].(completed := todos[i].completed) == todos[i]
    ensures forall i :: 0 <= i < |todos| ==> r[i].completed == (if todos[i].id == id then !todos[i].completed else todos[i].completed)
  {
    seq(|todos|, i requires 0 <= i < |todos| =>
      if todos[i].id == id then todos[i].(completed := !todos[i].completed) else todos[i])
  }

  /** Toggling the same id twice restores the todos. */
  lemma ToggledTwice(todos: seq<Todo>, id: string)
    ensures Toggled(Toggled(todos, id), id) == todos
  {
    var once := Toggled(todos, id);
    var twice := Toggled(once, id);
    forall i | 0 <= i < |todos| ensures twice[i] == todos[i] {
      assert once[i].id == todos[i].id;
    }
  }

  function IsActive(t: Todo): bool
  {
    !t.completed
  }

  function IsCompleted(t: Todo): bool
  {
    t.completed
  }

  /** `clearCompleted()`: the todos not completed, in order. */
  function ClearedCompleted(todos: seq<Todo>): (r: seq<Todo>)
    ensures Subsequence(r, todos)
    ensures forall t :: t in r <==> t in todos && !t.completed
  {
    FilterIsSubsequence(todos, IsActive);
    Filter(todos, IsActive)
  }

  /** Clearing completed todos a second time changes nothing. */
  lemma ClearCompletedIdempotent(todos: seq<Todo>)
    ensures ClearedCompleted(ClearedCompleted(todos)) == ClearedCompleted(todos)
  {
    FilterIdempotent(todos, IsActive);
  }

  /** The counts `render` passes to the stats and footer. */
  datatype Stats = Stats(totalTodos: nat, completedTodos: nat, activeTodos: int, completionRate: int)

  /**
   * `Math.round(completed / total * 100)` for a non-empty list, computed
   * exactly as the nearest integer, halves rounded up; 0 for an empty list.
   */
  function CompletionRate(completed: nat, total: nat): (r: int)
    requires completed <= total
    ensures 0 <= r <= 100
    ensures total > 0 && completed == total ==> r == 100
    ensures completed == 0 ==> r == 0
    ensures total > 0 ==> 2 * total * r <= 200 * completed + total < 2 * total * (r + 1)
  {
    if total > 0 then
      RoundedPercent(completed, total);
      (200 * completed + total) / (2 * total)
    else 0
  }

  /** The quotient of the rounding division is the nearest integer to `100 * c / t`, which lies between 0 and 100. */
  lemma RoundedPercent(c: nat, t: nat)
    requires 0 < t && c <= t
    ensures var q := (200 * c + t) / (2 * t);
      0 <= q <= 100 && 2 * t * q <= 200 * c + t < 2 * t * (q + 1) &&
      (c == t ==> q == 100) && (c == 0 ==> q == 0)
  {
    var a := 200 * c + t;
    var b := 2 * t;
    var q := a / b;
    assert a == b * q + a % b && 0 <= a % b < b;
    assert b * (q + 1) == b * q + b;
    assert b * 101 == 202 * t && b * (-1) == -b;
    MulLess(b, q, 101);
    MulLess(b, -1, q);
    if c == t {
      assert b * 99 == 198 * t;
      MulLess(b, 99, q);
    }
    if c == 0 {
      assert b * 1 == b;
      MulLess(b, q, 1);
    }
  }

  /** Multiplying by a positive number preserves strict order, so it can be cancelled. */
  lemma MulLess(b: int, x: int, y: int)
    requires b > 0 && b * x < b * y
    ensures x < y
  {
  }

  function StatsOf(todos: seq<Todo>): (r: Stats)
    ensures r.totalTodos == |todos| && r.completedTodos <= |todos|
  {
    var total := |todos|;
    var completed := |Filter(todos, IsCompleted)|;
    Stats(total, completed, total - completed, CompletionRate(completed, total))
  }

  /**
   * The active count is the number of todos not completed, so it is never
   * negative, and active and completed add up to the total.
   */
  lemma StatsAddUp(todos: seq<Todo>)
    ensures var s := StatsOf(todos);
      s.activeTodos == |Filter(todos, IsActive)| && s.activeTodos >= 0 &&
      s.activeTodos + s.completedTodos == s.totalTodos
  {
    FilterPartition(todos, IsCompleted, IsActive);
  }

  /** After clearing completed todos, nothing is completed and the active count is the total. */
  lemma StatsAfterClear(todos: seq<Todo>)
    ensures StatsOf(ClearedCompleted(todos)).completedTodos == 0
    ensures StatsOf(ClearedCompleted(todos)).totalTodos == StatsOf(todos).activeTodos
  {
    var r := ClearedCompleted(todos);
    assert forall i :: 0 <= i < |r| ==> !IsCompleted(r[i]);
    FilterDropsAll(r, IsCompleted);
    FilterPartition(todos, IsCompleted, IsActive);
  }

  /**
   * The root component's state. Each operation replaces the `todos` field the
   * way `updateState({ todos: newTodos })` merges it, leaving the other
   * fields as they were.
   */
  class App {
    var todos: seq<Todo>
    var darkMode: bool
    var loading: bool

    /** `state()`: no todos, light mode, loading. */
    constructor()
      ensures todos == [] && !darkMode && loading
    {
      todos := [];
      darkMode := false;
      loading := true;
    }

    method AddTodo(data: TodoData, id: string, now: int)
      modifies this
      ensures todos == Added(old(todos), data, id, now) && darkMode == old(darkMode) && loading == old(loading)
    {
      todos := Added(todos, data, id, now);
    }

    method RemoveTodo(id: string)
      modifies this
      ensures todos == Removed(old(todos), id) && darkMode == old(darkMode) && loading == old(loading)
    {
      todos := Removed(todos, id);
    }

    method EditTodo(e: TodoEdit)
      modifies this
      ensures todos == Edited(old(todos), e) && darkMode == old(darkMode) && loading == old(loading)
    {
      todos := Edited(todos, e);
    }

    method ToggleTodo(id: string)
      modifies this
      ensures todos == Toggled(old(todos), id) && darkMode == old(darkMode) && loading == old(loading)
    {
      todos := Toggled(todos, id);
    }

    method ClearCompleted()
      modifies this
      ensures todos == ClearedCompleted(old(todos)) && darkMode == old(darkMode) && loading == old(loading)
    {
      todos := ClearedCompleted(todos);
    }
  }
}
