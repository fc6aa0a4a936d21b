# To-do list state model

This project is a Dafny model of the state logic of the single React component
of a small teaching app, `ejercicioContext/src/App.jsx`. The component keeps three
pieces of state:

- `todos`: the list of items, each with an `id`, a `text` and a `done` flag;
- `filter`: one of `"all"`, `"pending"` or `"done"`;
- `text`: the draft typed in the input box.

It changes that state through four handlers:

- `handleAdd` trims the draft and prepends a pending item, then clears the draft;
- `handleToggle` flips `done` on the items with a given id;
- `handleRemove` drops the items with a given id;
- `handleClearDone` drops the done items.

It also derives two values and two display conditions from the state. The
values are the visible list for the current filter and the pending count. The
conditions are the "all caught up" badge and the empty-list message.

Each handler builds a new array with `filter`, `map` or a spread-prepend. So the
model is pure: datatypes `Todo`, `Filter`, `State` and `Action`, and functions
from a state to the next state. Files:

- `array_ops.dfy`, module `ArrayOps`: `Array.prototype.filter` and
  `Array.prototype.map` on sequences. It proves that filtering is an
  order-preserving selection: the `k`-th kept element sits at the `k`-th
  accepted position.
- `text_trim.dfy`, module `TextTrim`: `String.prototype.trim`, with the
  ECMAScript white-space and line-terminator code points written out.
- `todo_app.dfy`, module `TodoApp`: the component's state, handlers and derived
  values. It also has `Dispatch`, which applies one gesture, and `Run`, which
  applies a sequence of gestures.
- `todo_properties.dfy`, module `TodoProperties`: what the handlers and derived
  values guarantee, and id uniqueness across runs of gestures.

The clock value that `Date.now()` returns when an item is added is a parameter
(`Add(now)`). Ids are unique only when each add gets a value no present item
uses. `FreshIds` states that condition, and `SameClockValueCollides` shows that
the ids collide without it.

Two behaviours of the code are easy to misread:

- A draft that is blank after trimming is ignored, and the draft is NOT cleared.
  This is because `handleAdd` returns before `setText("")`.
- Toggle and remove act on every item with the given id, not on "the" item.
  This is because they are written as `map` and `filter`. With unique ids the
  two readings agree (`TogglePendingCount`, `RemoveUnique`).

## Model

| member | source | states |
|---|---|---|
| TodoApp.InitialState | ejercicioContext/src/App.jsx:4-13 | The seed state: two items with distinct ids, the first done and the second pending, filter "all" and an empty draft |
| TodoApp.VisibleTodos | ejercicioContext/src/App.jsx:16-20 | The visible list holds only items the filter lets through. It holds every such item, and it is never longer than the list |
| TodoProperties.VisibleIsSelection | ejercicioContext/src/App.jsx:16-20 | Each of the three filters selects exactly the items that `Shows` accepts, in list order. "all" returns the list unchanged |
| TodoProperties.VisiblePartition | ejercicioContext/src/App.jsx:17-18 | The pending and done views split the list: their lengths add up to its length, and their multisets to its multiset |
| TodoApp.HandleAdd | ejercicioContext/src/App.jsx:23-29 | An all-white-space draft leaves the state unchanged, draft included. Otherwise the new list is one longer: the pending item `Todo(now, trim(draft), false)` in front, then the old list in order. The draft becomes "" and the filter is kept |
| TodoProperties.AddNonBlank | ejercicioContext/src/App.jsx:24-27 | After a non-blank add, the pending count goes up by one. The new item's text is not empty and neither starts nor ends with white space |
| TodoProperties.AddKeepsIdsUnique | ejercicioContext/src/App.jsx:26-27 | An add keeps ids unique when the clock value is not the id of a present item |
| TodoApp.HandleToggle | ejercicioContext/src/App.jsx:31-35 | Toggle keeps the length and every item's id and text. It flips `done` exactly on the items whose id matches, and leaves other items equal to what they were |
| TodoProperties.ToggleAbsentIsNoop | ejercicioContext/src/App.jsx:31-35 | Toggling an id that no item has changes nothing |
| TodoProperties.ToggleTwice | ejercicioContext/src/App.jsx:31-35 | Toggling the same id twice restores the original state (involution) |
| TodoProperties.TogglePendingCount | ejercicioContext/src/App.jsx:31-35 | With unique ids, toggling one item moves the pending count by exactly one, up or down depending on its old `done`. Ids stay unique |
| TodoApp.HandleRemove | ejercicioContext/src/App.jsx:37-39 | After remove, no item has the id. Every item with another id survives, and nothing else appears |
| TodoProperties.RemoveKeepsOrder | ejercicioContext/src/App.jsx:37-39 | The survivors are exactly the items with another id, in their original order |
| TodoProperties.RemoveAbsentIsNoop | ejercicioContext/src/App.jsx:37-39 | Removing an id that no item has changes nothing |
| TodoProperties.RemoveTwice | ejercicioContext/src/App.jsx:37-39 | A second remove of the same id changes nothing (idempotence) |
| TodoProperties.RemoveUnique | ejercicioContext/src/App.jsx:37-39 | With unique ids, removing the id of the item at position i gives the list with just that position cut out. Ids stay unique |
| TodoApp.HandleClearDone | ejercicioContext/src/App.jsx:41-43 | After clear-done no item is done, and every pending item survives. The filter and the draft are kept |
| TodoProperties.ClearDoneKeepsPendingInOrder | ejercicioContext/src/App.jsx:41-43 | Clear-done leaves exactly the pending items in their original order. This equals the "pending" view |
| TodoProperties.ClearDoneIdempotent | ejercicioContext/src/App.jsx:41-43 | Applying clear-done twice equals applying it once |
| TodoProperties.ClearDoneCounts | ejercicioContext/src/App.jsx:41-48 | After clear-done, the pending count equals the list length and the old pending count. The "all caught up" badge cannot show |
| TodoApp.PendingCount | ejercicioContext/src/App.jsx:45-48 | The pending count is at most the list length. It is zero exactly when every item is done |
| TodoProperties.PendingCountCounts | ejercicioContext/src/App.jsx:45-48 | The pending count is the number of positions that hold an item not done. It is also the length of the "pending" view |
| TodoApp.ShowsAllCaughtUp | ejercicioContext/src/App.jsx:105 | The badge shows exactly when the list is not empty and every item is done |
| TodoApp.ShowsEmptyMessage | ejercicioContext/src/App.jsx:131 | The empty-list message shows exactly when the filter lets no item through |
| TodoApp.Dispatch | ejercicioContext/src/App.jsx:11-13 | Choosing a filter replaces only the filter, and typing replaces only the draft. No other gesture changes the filter, and only add and typing change the draft |
| TodoProperties.DispatchKeepsIdsUnique | ejercicioContext/src/App.jsx:23-43 | Every gesture keeps ids unique, provided an add that really adds gets a clock value no present item uses |
| TodoProperties.RunKeepsIdsUnique | ejercicioContext/src/App.jsx:23-43 | Any run of gestures in which every add gets a fresh clock value keeps ids unique |
| TodoProperties.ReachableIdsUnique | ejercicioContext/src/App.jsx:4-43 | Every state reached from the seed state with fresh clock values has unique ids |
| TodoProperties.SameClockValueCollides | ejercicioContext/src/App.jsx:26 | Two non-blank adds that read the same clock value produce two items with one id. The code alone does not make ids unique |
| TodoProperties.InitialTextsTrimmed | ejercicioContext/src/App.jsx:4-7 | Both seed texts are non-empty and equal to their own trim |
| TodoProperties.AddKeepsTexts | ejercicioContext/src/App.jsx:24-27 | An add stores only a non-empty trimmed text, so if every present text is non-empty and trimmed, every text afterwards is too |
| TodoProperties.DispatchKeepsTexts | ejercicioContext/src/App.jsx:23-43 | No gesture produces an empty or untrimmed item text: toggle keeps texts, and remove and clear-done only select items |
| TodoProperties.RunKeepsTexts | ejercicioContext/src/App.jsx:23-43 | Any run of gestures keeps every item text non-empty and trimmed |
| TodoProperties.ReachableTextsTrimmed | ejercicioContext/src/App.jsx:4-43 | Every state reached from the seed state holds only non-empty, trimmed item texts, whatever the clock values |
| TodoProperties.InitialPendingCount | ejercicioContext/src/App.jsx:4-7 | The seed list has exactly one pending item |
| TodoProperties.SeedAdd | ejercicioContext/src/App.jsx:4-28 | From the seed state, typing a non-blank draft and adding it under a new id gives 3 items, 2 of them pending, with unique ids |
| TodoProperties.SeedToggleThenClear | ejercicioContext/src/App.jsx:31-43 | Toggling the new front item of that list leaves 1 pending item. Clearing done items then leaves only the pending seed item |
| TodoProperties.SeedScenario | ejercicioContext/src/App.jsx:4-43 | Seed, add, toggle the new item, clear done: the pending count after the toggle is 1, and only the pending seed item remains |
| TextTrim.TrimStart | ejercicioContext/src/App.jsx:24 | The result is the longest suffix of the input that does not start with white space. Everything removed is white space |
| TextTrim.TrimEnd | ejercicioContext/src/App.jsx:24 | The result is the longest prefix of the input that does not end with white space. Everything removed is white space |
| TextTrim.Trim | ejercicioContext/src/App.jsx:24 | `text.trim()`: trailing white space cut from the result of cutting leading white space. Its own contract bounds the length; `TrimIsCore`, `TrimEmptyIffBlank` and `TrimIdempotent` characterise the result fully |
| TextTrim.TrimIsCore | ejercicioContext/src/App.jsx:24 | `trim` returns a contiguous slice of the draft. What it cuts off on each side is white space, and the slice neither starts nor ends with white space |
| TextTrim.TrimEmptyIffBlank | ejercicioContext/src/App.jsx:24-25 | The trimmed draft is empty (falsy) exactly when the draft is all white space |
| TextTrim.TrimIdempotent | ejercicioContext/src/App.jsx:24 | Trimming twice equals trimming once |
| ArrayOps.Filter | ejercicioContext/src/App.jsx:17 | `filter` keeps only elements the predicate accepts, keeps every accepted element, and never lengthens the array |
| ArrayOps.Map | ejercicioContext/src/App.jsx:33 | `map` keeps the length and puts `f` of the element at each index at the same index |
| ArrayOps.FilterSelects | ejercicioContext/src/App.jsx:17-18 | The filtered array is the ordered selection of the accepted positions. Positions are increasing, the k-th kept element is the element at the k-th position, and a position is listed exactly when its element is accepted |
| ArrayOps.FilterAppend | ejercicioContext/src/App.jsx:17-18 | Filtering a concatenation is the concatenation of the filtered parts, so filtering never reorders |
| ArrayOps.FilterPartition | ejercicioContext/src/App.jsx:17-18 | Filtering by a predicate and by its negation splits the array by length and by multiset |
| ArrayOps.FilterCount | ejercicioContext/src/App.jsx:46 | The length of the filtered array is the number of positions whose element is accepted |
| ArrayOps.FilterIdempotent | ejercicioContext/src/App.jsx:38-42 | Filtering twice by the same predicate equals filtering once |
| ArrayOps.FilterKeepsAll | ejercicioContext/src/App.jsx:38-42 | A filter that accepts every element returns the array unchanged |
| ArrayOps.FilterDropsOne | ejercicioContext/src/App.jsx:38 | A filter that rejects only the element at position i cuts out exactly that position |
| ArrayOps.FilterKeepsDistinct | ejercicioContext/src/App.jsx:38-42 | A key that is pairwise distinct over the input stays pairwise distinct over the filtered array |

## Left out

- JSX rendering, CSS class choice and the label strings (App.jsx lines 50-137) are presentation. Only the two display conditions are modelled.
- React's `useState` and `useMemo`, the functional `setTodos` updaters and the event wiring are left out. This covers the Enter key, `onClick` and `onChange`. The state is an explicit `State` value, and a gesture is an `Action` applied by `Dispatch`.
- `Date.now()` is a wall-clock call, so it becomes the parameter `now` of `Add`. The model does not assume that it returns fresh values.
- `filter` is a string in the component. The model's `Filter` has only the three values the buttons set. Any other string would show the whole list, like `"all"`.
- JavaScript strings are UTF-16 and Dafny strings are sequences of Unicode scalar values. Every white-space code point that `trim` removes is a single UTF-16 unit, so the two agree for trimming.
- Ids are JavaScript numbers compared with `===`. They are modelled as unbounded integers.
