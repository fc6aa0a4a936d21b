/**
 What the to-do component's state model guarantees: the effect of each
 transition, how transitions compose (involution, idempotence), the
 visible-list projection as an ordered selection, the pending count and the
 display conditions, and id uniqueness under fresh clock values.
 */
module TodoProperties {
  import opened TodoApp
  import ArrayOps
  import TextTrim

  // ---------------------------------------------------------------------
  // Add

  /**
   A non-blank draft becomes one more pending item whose text is not empty
   and carries no surrounding white space.
   */
  lemma AddNonBlank(st: State, now: int)
    requires !TextTrim.AllWhitespace(st.text)
    ensures var r := HandleAdd(st, now);
      && PendingCount(r.todos) == PendingCount(st.todos) + 1
      && r.todos[0].text != []
      && !TextTrim.IsWhitespace(r.todos[0].text[0])
      && !TextTrim.IsWhitespace(r.todos[0].text[|r.todos[0].text| - 1])
  {
    var r := HandleAdd(st, now);
    var item := r.todos[0];
    assert item.text != [] && !TextTrim.IsWhitespace(item.text[0])
        && !TextTrim.IsWhitespace(item.text[|item.text| - 1]) by {
      TextTrim.TrimEmptyIffBlank(st.text);
      TextTrim.TrimIsCore(st.text);
    }
    assert ArrayOps.Filter(r.todos, IsPending) == [item] + ArrayOps.Filter(st.todos, IsPending) by {
      assert r.todos == [item] + st.todos;
      ArrayOps.FilterAppend([item], st.todos, IsPending);
    }
  }

  /**
   An add keeps ids unique when the clock value it would use is not the id
   of a present item (a blank draft adds nothing, so any value will do).
   */
  lemma AddKeepsIdsUnique(st: State, now: int)
    requires UniqueIds(st.todos)
    requires !TextTrim.AllWhitespace(st.text) ==> now !in Ids(st.todos)
    ensures UniqueIds(HandleAdd(st, now).todos)
  {
    var r := HandleAdd(st, now);
    if !TextTrim.AllWhitespace(st.text) {
      forall i, j | 0 <= i < j < |r.todos| ensures r.todos[i].id != r.todos[j].id {
        assert r.todos[j] == st.todos[j - 1];
        if i == 0 {
          assert st.todos[j - 1].id in Ids(st.todos);
        } else {
          assert r.todos[i] == st.todos[i - 1];
        }
      }
    }
  }

  // ---------------------------------------------------------------------
  // Toggle

  /** Toggling an id no item has leaves the state as it was. */
  lemma ToggleAbsentIsNoop(st: State, id: int)
    requires forall i :: 0 <= i < |st.todos| ==> st.todos[i].id != id
    ensures HandleToggle(st, id) == st
  {
    var r := HandleToggle(st, id);
    assert r.todos == st.todos;
  }

  /** Toggling the same id twice restores the original state. */
  lemma ToggleTwice(st: State, id: int)
    ensures HandleToggle(HandleToggle(st, id), id) == st
  {
    var r := HandleToggle(HandleToggle(st, id), id);
    forall i | 0 <= i < |st.todos| ensures r.todos[i] == st.todos[i] {
      assert r.todos[i].done == st.todos[i].done;
    }
    assert r.todos == st.todos;
  }

  /**
   With unique ids, toggling the item at position `i` moves it between the
   pending and the done items, so the pending count goes up or down by one.
   */
  lemma TogglePendingCount(st: State, i: nat)
    requires UniqueIds(st.todos) && i < |st.todos|
    ensures var t := st.todos[i];
      PendingCount(HandleToggle(st, t.id).todos)
        == if t.done then PendingCount(st.todos) + 1 else PendingCount(st.todos) - 1
    ensures UniqueIds(HandleToggle(st, st.todos[i].id).todos)
  {
    var s, t := st.todos, st.todos[i];
    var s' := HandleToggle(st, t.id).todos;
    var before, after := s[..i], s[i + 1..];
    assert s == before + [t] + after;
    forall j | 0 <= j < |s| && j != i ensures s'[j] == s[j] {
      assert s[j].id != t.id;
    }
    assert s' == before + [s'[i]] + after;
    ArrayOps.FilterAppend(before + [t], after, IsPending);
    ArrayOps.FilterAppend(before, [t], IsPending);
    ArrayOps.FilterAppend(before + [s'[i]], after, IsPending);
    ArrayOps.FilterAppend(before, [s'[i]], IsPending);
  }

  // ---------------------------------------------------------------------
  // Remove

  /**
   The survivors of a remove are exactly the items with another id, in
   their original order.
   */
  lemma RemoveKeepsOrder(st: State, id: int)
    ensures ArrayOps.SelectedAt(HandleRemove(st, id).todos, st.todos, OtherThan(id),
                                ArrayOps.Positions(st.todos, OtherThan(id)))
  {
    ArrayOps.FilterSelects(st.todos, OtherThan(id));
  }

  /** Removing an id no item has leaves the state as it was. */
  lemma RemoveAbsentIsNoop(st: State, id: int)
    requires forall i :: 0 <= i < |st.todos| ==> st.todos[i].id != id
    ensures HandleRemove(st, id) == st
  {
    ArrayOps.FilterKeepsAll(st.todos, OtherThan(id));
  }

  /** A second remove of the same id changes nothing. */
  lemma RemoveTwice(st: State, id: int)
    ensures HandleRemove(HandleRemove(st, id), id) == HandleRemove(st, id)
  {
    ArrayOps.FilterIdempotent(st.todos, OtherThan(id));
  }

  /**
   With unique ids, removing the id of the item at position `i` drops that
   item alone, and the ids stay unique.
   */
  lemma RemoveUnique(st: State, i: nat)
    requires UniqueIds(st.todos) && i < |st.todos|
    ensures HandleRemove(st, st.todos[i].id).todos == st.todos[..i] + st.todos[i + 1..]
    ensures UniqueIds(HandleRemove(st, st.todos[i].id).todos)
  {
    var s, keep := st.todos, OtherThan(st.todos[i].id);
    ArrayOps.FilterDropsOne(s, i, keep);
    ArrayOps.FilterKeepsDistinct(s, keep, IdOf);
  }

  // ---------------------------------------------------------------------
  // Clear done

  /**
   Clear-done leaves exactly the pending items in their original order,
   which is also what the "pending" view shows.
   */
  lemma ClearDoneKeepsPendingInOrder(st: State)
    ensures HandleClearDone(st).todos == VisibleTodos(st.todos, Pending)
    ensures ArrayOps.SelectedAt(HandleClearDone(st).todos, st.todos, IsPending,
                                ArrayOps.Positions(st.todos, IsPending))
  {
    ArrayOps.FilterSelects(st.todos, IsPending);
  }

  /** Clearing done items twice is clearing them once. */
  lemma ClearDoneIdempotent(st: State)
    ensures HandleClearDone(HandleClearDone(st)) == HandleClearDone(st)
  {
    ArrayOps.FilterIdempotent(st.todos, IsPending);
  }

  /**
   After clear-done every remaining item is pending, none was lost, and the
   "all caught up" badge cannot show.
   */
  lemma ClearDoneCounts(st: State)
    ensures var r := HandleClearDone(st);
      && PendingCount(r.todos) == |r.todos| == PendingCount(st.todos)
      && !ShowsAllCaughtUp(r.todos)
  {
    var r := HandleClearDone(st);
    ArrayOps.FilterIdempotent(st.todos, IsPending);
  }

  // ---------------------------------------------------------------------
  // Visible list, pending count, display conditions

  /**
   All three filters are one ordered selection: the visible list is the
   items the filter lets through, in list order.
   */
  lemma VisibleIsSelection(todos: seq<Todo>, filter: Filter)
    ensures filter == All ==> VisibleTodos(todos, filter) == todos
    ensures VisibleTodos(todos, filter) == ArrayOps.Filter(todos, ShownBy(filter))
    ensures ArrayOps.SelectedAt(VisibleTodos(todos, filter), todos, ShownBy(filter),
                                ArrayOps.Positions(todos, ShownBy(filter)))
  {
    var p := ShownBy(filter);
    if filter == All {
      ArrayOps.FilterKeepsAll(todos, p);
    } else if filter == Pending {
      ArrayOps.FilterExtensional(todos, IsPending, p);
    } else {
      ArrayOps.FilterExtensional(todos, IsDone, p);
    }
    ArrayOps.FilterSelects(todos, p);
  }

  /** The pending and the done views split the list between them. */
  lemma VisiblePartition(todos: seq<Todo>)
    ensures |VisibleTodos(todos, Pending)| + |VisibleTodos(todos, Done)| == |todos|
    ensures multiset(VisibleTodos(todos, Pending)) + multiset(VisibleTodos(todos, Done)) == multiset(todos)
  {
    ArrayOps.FilterPartition(todos, IsPending, IsDone);
  }

  /** The pending count is the number of positions holding an item not done, and the length of the pending view. */
  lemma PendingCountCounts(todos: seq<Todo>)
    ensures PendingCount(todos) == |set i | 0 <= i < |todos| && !todos[i].done|
    ensures PendingCount(todos) == |VisibleTodos(todos, Pending)|
  {
    ArrayOps.FilterCount(todos, IsPending);
    var byPredicate := ArrayOps.IndicesWhere(todos, IsPending);
    var byField := set i | 0 <= i < |todos| && !todos[i].done;
    assert forall i :: i in byPredicate <==> i in byField;
    assert byPredicate == byField;
  }

  // ---------------------------------------------------------------------
  // Id uniqueness across gestures

  /**
   Every add in `actions` that really adds an item gets a clock value that
   no item present at that moment uses.
   */
  predicate FreshIds(st: State, actions: seq<Action>)
    decreases |actions|
  {
    actions == [] ||
    (&& (actions[0].Add? && !TextTrim.AllWhitespace(st.text) ==> actions[0].now !in Ids(st.todos))
     && FreshIds(Dispatch(st, actions[0]), actions[1..]))
  }

  /** One gesture keeps ids unique, provided an add gets a fresh clock value. */
  lemma DispatchKeepsIdsUnique(st: State, a: Action)
    requires UniqueIds(st.todos)
    requires a.Add? && !TextTrim.AllWhitespace(st.text) ==> a.now !in Ids(st.todos)
    ensures UniqueIds(Dispatch(st, a).todos)
  {
    match a
    case Add(now) =>
      AddKeepsIdsUnique(st, now);
    case Toggle(id) =>
    case Remove(id) =>
      ArrayOps.FilterKeepsDistinct(st.todos, OtherThan(id), IdOf);
    case ClearDone =>
      ArrayOps.FilterKeepsDistinct(st.todos, IsPending, IdOf);
    case SetFilter(_) =>
    case SetText(_) =>
  }

  /** A run of gestures keeps ids unique when every add gets a fresh clock value. */
  lemma {:induction false} RunKeepsIdsUnique(st: State, actions: seq<Action>)
    requires UniqueIds(st.todos) && FreshIds(st, actions)
    ensures UniqueIds(Run(st, actions).todos)
    decreases |actions|
  {
    if actions != [] {
      DispatchKeepsIdsUnique(st, actions[0]);
      RunKeepsIdsUnique(Dispatch(st, actions[0]), actions[1..]);
    }
  }

  /**
   The clock alone does not make ids unique: two adds that read the same
   clock value give two items with one id.
   */
  lemma SameClockValueCollides(st: State, now: int, second: string)
    requires !TextTrim.AllWhitespace(st.text) && !TextTrim.AllWhitespace(second)
    ensures !UniqueIds(Dispatch(Dispatch(Dispatch(st, Add(now)), SetText(second)), Add(now)).todos)
  {
    var s1 := Dispatch(st, Add(now));
    var s2 := Dispatch(s1, SetText(second));
    var s3 := Dispatch(s2, Add(now));
    assert s3.todos[1] == s2.todos[0] == s1.todos[0];
  }

  /** The seed list has one pending item. */
  lemma InitialPendingCount()
    ensures PendingCount(InitialState().todos) == 1
  {
    var s := InitialState().todos;
    assert s == [s[0]] + [s[1]];
    ArrayOps.FilterAppend([s[0]], [s[1]], IsPending);
  }

  /** Adding a non-blank draft to the seed list under a new id puts one pending item in front. */
  lemma SeedAdd(draft: string, now: int)
    requires !TextTrim.AllWhitespace(draft) && now != 1 && now != 2
    ensures var s1 := Dispatch(Dispatch(InitialState(), SetText(draft)), Add(now));
      && |s1.todos| == 3 && s1.todos[1..] == InitialState().todos
      && s1.todos[0].id == now && !s1.todos[0].done
      && PendingCount(s1.todos) == 2 && UniqueIds(s1.todos)
  {
    var seed := InitialState();
    var s0 := Dispatch(seed, SetText(draft));
    assert s0 == seed.(text := draft);
    assert now !in Ids(s0.todos) by { assert s0.todos == seed.todos; }
    InitialPendingCount();
    AddNonBlank(s0, now);
    AddKeepsIdsUnique(s0, now);
  }

  /**
   Toggling the new front item of a seed list grown by one, then clearing
   done items, leaves the pending seed item alone.
   */
  lemma SeedToggleThenClear(s1: State, now: int)
    requires |s1.todos| == 3 && s1.todos[1..] == InitialState().todos
    requires s1.todos[0].id == now && !s1.todos[0].done && now != 1 && now != 2
    requires PendingCount(s1.todos) == 2 && UniqueIds(s1.todos)
    ensures PendingCount(HandleToggle(s1, now).todos) == 1
    ensures HandleClearDone(HandleToggle(s1, now)).todos == [InitialState().todos[1]]
  {
    TogglePendingCount(s1, 0);
    var seed := InitialState();
    var s2 := HandleToggle(s1, now);
    var a, b, c := s2.todos[0], s2.todos[1], s2.todos[2];
    assert a.done && b == seed.todos[0] && c == seed.todos[1] by {
      assert s1.todos[1] == seed.todos[0] && s1.todos[2] == seed.todos[1];
    }
    assert s2.todos == [a, b] + [c];
    ArrayOps.FilterAppend([a, b], [c], IsPending);
    assert [a, b] == [a] + [b];
    ArrayOps.FilterAppend([a], [b], IsPending);
  }

  /**
   From the seed state (one done, one pending item): type a non-blank draft
   and add it under a new id (3 items, 2 pending, see SeedAdd), toggle the
   new item (1 pending), clear done items: only the pending seed item is left.
   */
  lemma SeedScenario(draft: string, now: int)
    requires !TextTrim.AllWhitespace(draft) && now != 1 && now != 2
    ensures var s1 := Dispatch(Dispatch(InitialState(), SetText(draft)), Add(now));
      && PendingCount(Dispatch(s1, Toggle(now)).todos) == 1
      && Dispatch(Dispatch(s1, Toggle(now)), ClearDone).todos == [InitialState().todos[1]]
  {
    var s1 := Dispatch(Dispatch(InitialState(), SetText(draft)), Add(now));
    SeedAdd(draft, now);
    var s2 := Dispatch(s1, Toggle(now));
    assert s2 == HandleToggle(s1, now);
    assert Dispatch(s2, ClearDone) == HandleClearDone(s2);
    SeedToggleThenClear(s1, now);
  }

  /** Every state reachable from the seed state with fresh clock values has unique ids. */
  lemma ReachableIdsUnique(actions: seq<Action>)
    requires FreshIds(InitialState(), actions)
    ensures UniqueIds(Run(InitialState(), actions).todos)
  {
    RunKeepsIdsUnique(InitialState(), actions);
  }

  // ---------------------------------------------------------------------
  // Item texts across gestures

  /**
   Every item's text is non-empty and already trimmed: the seed texts are,
   an add stores only a trimmed non-blank draft, and no gesture edits a text.
   */
  predicate TrimmedTexts(todos: seq<Todo>)
  {
    forall i :: 0 <= i < |todos| ==> todos[i].text != [] && TextTrim.Trim(todos[i].text) == todos[i].text
  }

  /** The seed items' texts are non-empty and trimmed. */
  lemma InitialTextsTrimmed()
    ensures TrimmedTexts(InitialState().todos)
  {
    var s := InitialState().todos;
    forall i | 0 <= i < |s| ensures s[i].text != [] && TextTrim.Trim(s[i].text) == s[i].text {
      var t := s[i].text;
      assert !TextTrim.IsWhitespace(t[0]) && !TextTrim.IsWhitespace(t[|t| - 1]) by {
        if i == 0 {
          assert t == "Entender props y estado";
        } else {
          assert t == "Practicar map/filter";
        }
      }
      TextTrim.TrimKeepsBare(t);
    }
  }

  /** A list whose items all come from a list of trimmed texts holds only trimmed texts. */
  lemma SelectionKeepsTexts(s: seq<Todo>, r: seq<Todo>)
    requires TrimmedTexts(s)
    requires forall k :: 0 <= k < |r| ==> r[k] in s
    ensures TrimmedTexts(r)
  {
    forall k | 0 <= k < |r| ensures r[k].text != [] && TextTrim.Trim(r[k].text) == r[k].text {
      var i :| 0 <= i < |s| && s[i] == r[k];
    }
  }

  /** An add puts only a non-empty trimmed text in front of the old items. */
  lemma AddKeepsTexts(st: State, now: int)
    requires TrimmedTexts(st.todos)
    ensures TrimmedTexts(HandleAdd(st, now).todos)
  {
    if !TextTrim.AllWhitespace(st.text) {
      var r := HandleAdd(st, now).todos;
      TextTrim.TrimEmptyIffBlank(st.text);
      TextTrim.TrimIdempotent(st.text);
      assert r[0].text == TextTrim.Trim(st.text) && r[1..] == st.todos;
      forall k | 0 < k < |r| ensures r[k].text != [] && TextTrim.Trim(r[k].text) == r[k].text {
        assert r[k] == st.todos[k - 1];
      }
    }
  }

  /** One gesture keeps every item's text non-empty and trimmed. */
  lemma DispatchKeepsTexts(st: State, a: Action)
    requires TrimmedTexts(st.todos)
    ensures TrimmedTexts(Dispatch(st, a).todos)
  {
    match a
    case Add(now) =>
      AddKeepsTexts(st, now);
    case Toggle(id) =>
      var r := HandleToggle(st, id).todos;
      forall k | 0 <= k < |r| ensures r[k].text != [] && TextTrim.Trim(r[k].text) == r[k].text {
        assert r[k].text == st.todos[k].text;
      }
    case Remove(id) =>
      SelectionKeepsTexts(st.todos, HandleRemove(st, id).todos);
    case ClearDone =>
      SelectionKeepsTexts(st.todos, HandleClearDone(st).todos);
    case SetFilter(_) =>
    case SetText(_) =>
  }

  /** A run of gestures keeps every item's text non-empty and trimmed. */
  lemma {:induction false} RunKeepsTexts(st: State, actions: seq<Action>)
    requires TrimmedTexts(st.todos)
    ensures TrimmedTexts(Run(st, actions).todos)
    decreases |actions|
  {
    if actions != [] {
      DispatchKeepsTexts(st, actions[0]);
      RunKeepsTexts(Dispatch(st, actions[0]), actions[1..]);
    }
  }

  /** Every state reachable from the seed state holds only non-empty, trimmed texts. */
  lemma ReachableTextsTrimmed(actions: seq<Action>)
    ensures TrimmedTexts(Run(InitialState(), actions).todos)
  {
    InitialTextsTrimmed();
    RunKeepsTexts(InitialState(), actions);
  }
}
