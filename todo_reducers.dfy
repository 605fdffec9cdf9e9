/**
 * The todo example's reducers: each takes the state and a payload and returns
 * a new state built with object spread. Arrays are modelled with their holes,
 * because the state's `todos` array can get holes from an index assignment
 * past its end, and `filter` skips holes while spread reads them as
 * `undefined`.
 */
module TodoReducers {
  import opened Wrappers
  import opened Values

  /** An array slot: a hole, or an element. */
  datatype Entry = Hole | Item(value: Value)

  /** `state.edit`; a `null` index is `None`. */
  datatype Edit = Edit(idx: Option<int>, originalText: Value, editedText: Value)

  /**
   * The fields of the state the reducers read or write; the spread `...state`
   * carries any other field over unchanged.
   */
  datatype State = State(currentTodo: Value, todos: seq<Entry>, edit: Edit)

  /** The `edit` record with no todo being edited. */
  const NotEditing: Edit := Edit(None, Str(""), Str(""))

  /** An array without holes. */
  ghost predicate Dense(t: seq<Entry>)
  {
    forall i :: 0 <= i < |t| ==> t[i].Item?
  }

  /** `t[i]`: the element at an index that holds one, and `undefined` anywhere else. */
  function ReadAt(t: seq<Entry>, i: int): Value
  {
    if 0 <= i < |t| && t[i].Item? then t[i].value else Undefined
  }

  /** `[...t]`: a dense copy in which every index reads what it read in `t`. */
  function Spread(t: seq<Entry>): (r: seq<Entry>)
    ensures |r| == |t| && Dense(r)
    ensures forall i :: ReadAt(r, i) == ReadAt(t, i)
    ensures forall i :: 0 <= i < |t| && t[i].Item? ==> r[i] == t[i]
  {
    seq(|t|, i requires 0 <= i < |t| => if t[i].Hole? then Item(Undefined) else t[i])
  }

  lemma SpreadDense(t: seq<Entry>)
    requires Dense(t)
    ensures Spread(t) == t
  {
  }

  /**
   * `t[i] = v`: a `null` or negative index sets a property that is not an
   * element; any other index holds `v` afterwards, and one at or past the end
   * grows the array to `i + 1`, with holes before the new element.
   */
  function AssignAt(t: seq<Entry>, i: Option<int>, v: Value): (r: seq<Entry>)
    ensures i.None? || i.value < 0 ==> r == t
    ensures i.Some? && i.value >= 0 ==>
      ReadAt(r, i.value) == v && |r| == (if i.value < |t| then |t| else i.value + 1) &&
      forall j :: j != i.value ==> ReadAt(r, j) == ReadAt(t, j)
    ensures i.Some? && 0 <= i.value < |t| && Dense(t) ==> Dense(r)
  {
    if i.None? || i.value < 0 then t
    else if i.value < |t| then t[i.value := Item(v)]
    else t + seq(i.value - |t|, _ => Hole) + [Item(v)]
  }

  /** `UPDATE_CURRENT_TODO`: only `currentTodo` changes. */
  function UpdateCurrentTodo(state: State, currentTodo: Value): (r: State)
    ensures r.currentTodo == currentTodo && r.todos == state.todos && r.edit == state.edit
  {
    state.(currentTodo := currentTodo)
  }

  /**
   * `ADD_TODO`: the current text is appended as a new last todo, the todos
   * before it read as they did, and the current text is cleared.
   */
  function AddTodo(state: State): (r: State)
    ensures |r.todos| == |state.todos| + 1 && Dense(r.todos)
    ensures forall i :: 0 <= i < |state.todos| ==> ReadAt(r.todos, i) == ReadAt(state.todos, i)
    ensures r.todos[|state.todos|] == Item(state.currentTodo)
    ensures r.currentTodo == Str("") && r.edit == state.edit
  {
    state.(currentTodo := Str(""), todos := Spread(state.todos) + [Item(state.currentTodo)])
  }

  /**
   * `START_EDITING_TODO`: editing starts at `idx` with both texts set to what
   * that index reads, `undefined` when it holds no todo.
   */
  function StartEditingTodo(state: State, idx: int): (r: State)
    ensures r.todos == state.todos && r.currentTodo == state.currentTodo
    ensures r.edit.idx == Some(idx) && r.edit.originalText == r.edit.editedText
    ensures 0 <= idx < |state.todos| && state.todos[idx].Item? ==> r.edit.originalText == state.todos[idx].value
    ensures !(0 <= idx < |state.todos|) ==> r.edit.originalText == Undefined
  {
    state.(edit := Edit(Some(idx), ReadAt(state.todos, idx), ReadAt(state.todos, idx)))
  }

  /** `EDIT_TODO`: only the edited text changes. */
  function EditTodo(state: State, editedText: Value): (r: State)
    ensures r.edit.editedText == editedText
    ensures r.edit.idx == state.edit.idx && r.edit.originalText == state.edit.originalText
    ensures r.todos == state.todos && r.currentTodo == state.currentTodo
  {
    state.(edit := state.edit.(editedText := editedText))
  }

  /**
   * `SAVE_EDITED_TODO`: the edited text is written at the edited index of a
   * copy of the todos and editing ends. At an index inside the array only that
   * index changes and the length is kept; a `null` or negative index changes
   * no element.
   */
  function SaveEditedTodo(state: State): (r: State)
    ensures r.edit == NotEditing && r.currentTodo == state.currentTodo
    ensures var i := state.edit.idx;
      i.Some? && 0 <= i.value < |state.todos| ==>
        |r.todos| == |state.todos| && Dense(r.todos) &&
        ReadAt(r.todos, i.value) == state.edit.editedText &&
        forall j :: j != i.value ==> ReadAt(r.todos, j) == ReadAt(state.todos, j)
    ensures state.edit.idx.None? || state.edit.idx.value < 0 ==> r.todos == Spread(state.todos)
    ensures state.edit.idx.Some? && state.edit.idx.value >= |state.todos| ==> |r.todos| == state.edit.idx.value + 1
  {
    state.(todos := AssignAt(Spread(state.todos), state.edit.idx, state.edit.editedText), edit := NotEditing)
  }

  /** `CANCEL_EDITING_TODO`: editing ends and nothing else changes. */
  function CancelEditingTodo(state: State): (r: State)
    ensures r.edit == NotEditing && r.todos == state.todos && r.currentTodo == state.currentTodo
  {
    state.(edit := NotEditing)
  }

  /** `todos.filter((_, i) => i !== idx)`: `filter` visits the elements only, so holes are dropped too. */
  function WithoutIndex(t: seq<Entry>, idx: int): (r: seq<Entry>)
    ensures |r| <= |t| && Dense(r)
  {
    if t == [] then []
    else
      var last := |t| - 1;
      WithoutIndex(t[..last], idx) + (if t[last].Item? && last != idx then [t[last]] else [])
  }

  /** `REMOVE_TODO`. */
  function RemoveTodo(state: State, idx: int): (r: State)
    ensures r.currentTodo == state.currentTodo && r.edit == state.edit && Dense(r.todos)
  {
    state.(todos := WithoutIndex(state.todos, idx))
  }

  /**
   * On an array without holes, removing index `idx` drops exactly that
   * position and keeps the others in order; an index outside the array
   * removes nothing.
   */
  lemma {:induction false} WithoutIndexDense(t: seq<Entry>, idx: int)
    requires Dense(t)
    ensures WithoutIndex(t, idx) == if 0 <= idx < |t| then t[..idx] + t[idx + 1..] else t
  {
    if t != [] {
      var last := |t| - 1;
      var init := t[..last];
      assert Dense(init);
      WithoutIndexDense(init, idx);
      if 0 <= idx < last {
        assert init[..idx] + init[idx + 1..] + [t[last]] == t[..idx] + t[idx + 1..];
      } else if idx == last {
        assert init == t[..idx];
      } else {
        assert init + [t[last]] == t;
      }
    }
  }

  lemma RemoveTodoPosition(state: State, idx: int)
    requires Dense(state.todos) && 0 <= idx < |state.todos|
    ensures RemoveTodo(state, idx).todos == state.todos[..idx] + state.todos[idx + 1..]
    ensures |RemoveTodo(state, idx).todos| == |state.todos| - 1
  {
    WithoutIndexDense(state.todos, idx);
  }

  /** Removing the todo just added restores a hole-free list. */
  lemma AddThenRemove(state: State)
    requires Dense(state.todos)
    ensures RemoveTodo(AddTodo(state), |state.todos|).todos == state.todos
  {
    var added := AddTodo(state).todos;
    SpreadDense(state.todos);
    assert Dense(added);
    WithoutIndexDense(added, |state.todos|);
    assert added[..|state.todos|] == state.todos;
  }

  /**
   * Starting to edit a todo, changing its text and saving replaces exactly
   * that todo.
   */
  lemma EditRoundTrip(state: State, idx: int, text: Value)
    requires Dense(state.todos) && 0 <= idx < |state.todos|
    ensures SaveEditedTodo(EditTodo(StartEditingTodo(state, idx), text)).todos == state.todos[idx := Item(text)]
  {
    SpreadDense(state.todos);
  }

  /** Saving an edit whose text was not changed leaves the todos as they were. */
  lemma SaveUneditedKeepsTodos(state: State, idx: int)
    requires Dense(state.todos) && 0 <= idx < |state.todos|
    ensures SaveEditedTodo(StartEditingTodo(state, idx)).todos == state.todos
  {
    SpreadDense(state.todos);
  }

  /** Starting and then cancelling an edit is the same as cancelling. */
  lemma StartThenCancel(state: State, idx: int)
    ensures CancelEditingTodo(StartEditingTodo(state, idx)) == CancelEditingTodo(state)
  {
  }
}
