/**
 The state model of the to-do component: the list of to-dos, the active
 filter and the draft text, the four list transitions (add, toggle, remove,
 clear done), the visible-list projection, the pending count and the two
 display conditions derived from them. Every transition replaces the state
 with a new value, as the component's setters do.
 */
module TodoApp {
  import ArrayOps
  import TextTrim

  /** One to-do item. Ids come from the wall clock when an item is added. */
  datatype Todo = Todo(id: int, text: string, done: bool)

  /** The view filter: the strings "all", "pending" and "done" of the component. */
  datatype Filter = All | Pending | Done

  /** The three pieces of component state: `todos`, `filter` and the draft `text`. */
  datatype State = State(todos: seq<Todo>, filter: Filter, text: string)

  /**
   The user gestures. `Add` carries the value the clock returns at that
   moment, which becomes the new item's id.
   */
  datatype Action =
    | Add(now: int)
    | Toggle(id: int)
    | Remove(id: int)
    | ClearDone
    | SetFilter(filter: Filter)
    | SetText(text: string)

  predicate IsPending(t: Todo) { !t.done }

  predicate IsDone(t: Todo) { t.done }

  function IdOf(t: Todo): int { t.id }

  /** Whether filter `f` lets item `t` through: the reference reading of the three filters. */
  predicate Shows(f: Filter, t: Todo)
  {
    match f
    case All => true
    case Pending => !t.done
    case Done => t.done
  }

  function ShownBy(f: Filter): Todo -> bool { (t: Todo) => Shows(f, t) }

  /** Item ids are pairwise distinct. */
  predicate UniqueIds(todos: seq<Todo>)
  {
    forall i, j :: 0 <= i < j < |todos| ==> todos[i].id != todos[j].id
  }

  function Ids(todos: seq<Todo>): set<int>
  {
    set i | 0 <= i < |todos| :: todos[i].id
  }

  // ---------------------------------------------------------------------
  // Initial state

  /** The two seed items, the "all" filter and an empty draft. */
  function InitialState(): (st: State)
    ensures |st.todos| == 2 && UniqueIds(st.todos)
    ensures st.todos[0].done && !st.todos[1].done
    ensures st.filter == All && st.text == ""
  {
    State([Todo(1, "Entender props y estado", true), Todo(2, "Practicar map/filter", false)], All, "")
  }

  // ---------------------------------------------------------------------
  // Derived values

  /** The list shown under `filter`: "pending" and "done" keep the matching items, anything else shows all. */
  function VisibleTodos(todos: seq<Todo>, filter: Filter): (r: seq<Todo>)
    ensures |r| <= |todos|
    ensures forall k :: 0 <= k < |r| ==> r[k] in todos && Shows(filter, r[k])
    ensures forall i :: 0 <= i < |todos| && Shows(filter, todos[i]) ==> todos[i] in r
  {
    if filter == Pending then ArrayOps.Filter(todos, IsPending)
    else if filter == Done then ArrayOps.Filter(todos, IsDone)
    else todos
  }

  /** The number of items not yet done. */
  function PendingCount(todos: seq<Todo>): (n: nat)
    ensures n <= |todos|
    ensures n == 0 <==> forall i :: 0 <= i < |todos| ==> todos[i].done
  {
    var pending := ArrayOps.Filter(todos, IsPending);
    assert pending != [] ==> pending[0] in todos;
    |pending|
  }

  /** The "all caught up" badge: nothing pending in a list that is not empty. */
  predicate ShowsAllCaughtUp(todos: seq<Todo>): (b: bool)
    ensures b <==> |todos| > 0 && forall i :: 0 <= i < |todos| ==> todos[i].done
  {
    PendingCount(todos) == 0 && |todos| > 0
  }

  /** The empty-state message: the visible list is empty. */
  predicate ShowsEmptyMessage(todos: seq<Todo>, filter: Filter): (b: bool)
    ensures b <==> forall i :: 0 <= i < |todos| ==> !Shows(filter, todos[i])
  {
    var visible := VisibleTodos(todos, filter);
    assert visible != [] ==> visible[0] in todos;
    |visible| == 0
  }

  // ---------------------------------------------------------------------
  // Transitions

  /**
   Add the trimmed draft as a new pending item at the front, under the id
   `now`, and clear the draft. A draft that is blank after trimming is
   ignored and, as the handler returns early, is not cleared either.
   */
  function HandleAdd(st: State, now: int): (r: State)
    ensures TextTrim.AllWhitespace(st.text) ==> r == st
    ensures !TextTrim.AllWhitespace(st.text) ==>
      && |r.todos| == |st.todos| + 1
      && r.todos[0] == Todo(now, TextTrim.Trim(st.text), false)
      && r.todos[1..] == st.todos
      && r.text == "" && r.filter == st.filter
  {
    TextTrim.TrimEmptyIffBlank(st.text);
    var t := TextTrim.Trim(st.text);
    if t == [] then st
    else st.(todos := [Todo(now, t, false)] + st.todos, text := "")
  }

  /** The per-item update of a toggle: flip `done` when the id matches. */
  function FlipIfId(id: int): Todo -> Todo
  {
    (t: Todo) => if t.id == id then t.(done := !t.done) else t
  }

  /** Flip `done` on every item whose id is `id`; all else stays as it was. */
  function HandleToggle(st: State, id: int): (r: State)
    ensures |r.todos| == |st.todos|
    ensures forall i :: 0 <= i < |st.todos| ==>
      && r.todos[i].id == st.todos[i].id
      && r.todos[i].text == st.todos[i].text
      && r.todos[i].done == (if st.todos[i].id == id then !st.todos[i].done else st.todos[i].done)
    ensures forall i :: 0 <= i < |st.todos| && st.todos[i].id != id ==> r.todos[i] == st.todos[i]
    ensures r.filter == st.filter && r.text == st.text
  {
    st.(todos := ArrayOps.Map(st.todos, FlipIfId(id)))
  }

  /** The predicate a remove filters by: the item's id differs from `id`. */
  function OtherThan(id: int): Todo -> bool
  {
    (t: Todo) => t.id != id
  }

  /** Drop every item whose id is `id`. */
  function HandleRemove(st: State, id: int): (r: State)
    ensures forall k :: 0 <= k < |r.todos| ==> r.todos[k].id != id && r.todos[k] in st.todos
    ensures forall i :: 0 <= i < |st.todos| && st.todos[i].id != id ==> st.todos[i] in r.todos
    ensures r.filter == st.filter && r.text == st.text
  {
    st.(todos := ArrayOps.Filter(st.todos, OtherThan(id)))
  }

  /** Drop every item that is done. */
  function HandleClearDone(st: State): (r: State)
    ensures forall k :: 0 <= k < |r.todos| ==> !r.todos[k].done && r.todos[k] in st.todos
    ensures forall i :: 0 <= i < |st.todos| && !st.todos[i].done ==> st.todos[i] in r.todos
    ensures r.filter == st.filter && r.text == st.text
  {
    st.(todos := ArrayOps.Filter(st.todos, IsPending))
  }

  /**
   One user gesture. Choosing a filter and typing replace only their own
   piece of state; no other gesture touches the filter.
   */
  function Dispatch(st: State, a: Action): (r: State)
    ensures !a.SetFilter? ==> r.filter == st.filter
    ensures a.SetFilter? ==> r == st.(filter := a.filter)
    ensures a.SetText? ==> r == st.(text := a.text)
    ensures !a.Add? && !a.SetText? ==> r.text == st.text
  {
    match a
    case Add(now) => HandleAdd(st, now)
    case Toggle(id) => HandleToggle(st, id)
    case Remove(id) => HandleRemove(st, id)
    case ClearDone => HandleClearDone(st)
    case SetFilter(f) => st.(filter := f)
    case SetText(s) => st.(text := s)
  }

  /** The state after a sequence of gestures, one after the other. */
  function Run(st: State, actions: seq<Action>): State
    decreases |actions|
  {
    if actions == [] then st else Run(Dispatch(st, actions[0]), actions[1..])
  }
}
