# Todo list state manager

A Dafny model of the state manager behind the React todo-list tutorial
applications: the `useTodo` custom hook, the root `TodoTemplate` component
that carries the same add and delete logic without search, and the seed data
they start from.

The manager owns an ordered list of `{id, title}` items, an id counter
(`uniqueId`), the add-input buffer and the search buffer. Its handlers are:

- `onChangeAddInputValue` / `setSearchInputValue`: overwrite a buffer;
- `handleAddTodo`: on Enter, outside IME composition, with a non-empty buffer,
  append `{uniqueId + 1, buffer}`, advance the counter to that id and clear the
  buffer; any other key event is a silent no-op;
- `handleDeleteTodo`: ask for confirmation with a message naming the title,
  and on yes keep only the items whose id differs from the target;
- `showTodoList`: the items whose lower-cased title starts with the
  lower-cased search text, in list order.

Files:

- `todo_data.dfy` (module `TodoData`): the `Todo` datatype, the four seed
  items and the counter's starting value, the seed length.
- `seq_filter.dfy` (module `SeqFilter`): the array filter both handlers use,
  and the subsequence relation that states "kept in order".
- `text.dfy` (module `Text`): `toLowerCase` on ASCII letters and `startsWith`.
- `todo_logic.dfy` (module `TodoLogic`): the transitions as functions on a
  `Store` value (list, counter, add buffer), the search view, the invariant
  `FreshCounter` (ids pairwise distinct and none above the counter) and lemmas
  over whole sequences of user actions.
- `use_todo.dfy` (module `UseTodo`): class `TodoManager`, the hook, whose
  four fields the handlers update in place.
- `todo_template.dfy` (module `RootTemplate`): class `TodoTemplate`, the root
  component with three fields.
- `scenarios.dfy` (module `Scenarios`): the concrete behaviour the hook's
  tests check, from the seed state.

Each class method states its new fields outright. The methods that change
the list, the counter or the add buffer also state that the new `Snapshot()`
is one `TodoLogic.Step` of the old one, for the matching action
(`ChangeAddInput`, `PressKey` or `Delete` with the dialog's answer); setting
the search buffer leaves the snapshot unchanged. The multi-step lemmas are
proved about `TodoLogic.Run`, the fold of `Step` over a sequence of actions;
that a sequence of method calls yields `Run` of the matching actions follows
from these per-call clauses and is not stated as a lemma of its own.

The counter is modelled as written: it starts at the seed length, not at the
largest seed id. Distinct ids are therefore proved under the invariant that no
id exceeds the counter; the real seed (ids 1 to 4, counter 4) satisfies it, so
every state reachable from the seed has distinct ids
(`TodoLogic.ReachableIdsDistinct`), while `TodoLogic.SeedLengthCounterCanCollide`
shows a seed for which the same scheme would mint a duplicate.

The delete handler removes every item that carries the target id, not just
the first; with distinct ids the two agree, and
`TodoLogic.RemovePresentIdShrinksByOne` proves that exactly one item goes.

## Model

| member | source | states |
|---|---|---|
| TodoData.SeedShape | 02-context-api/src/constants/data.js:2-22 | the seed has 4 items with ids 1, 2, 3, 4 in order and the starting counter is the seed length, 4 |
| TodoData.SeedIdsFresh | 02-context-api/src/constants/data.js:2-22 | seed ids are pairwise distinct and none exceeds the starting counter, so the first minted id is fresh |
| Text.LowerChar | 03-redux/src/hooks/useTodo.js:19 | ASCII capitals map to the matching small letter, every other character is unchanged, and no capital remains |
| Text.ToLowerCase | 03-redux/src/hooks/useTodo.js:19 | lower-casing keeps the length, turns every ASCII capital into its matching small letter, leaves no capital and keeps every other character in place |
| Text.ToLowerCaseIdempotent | 03-redux/src/hooks/useTodo.js:19 | lower-casing twice equals lower-casing once |
| Text.QueryCaseIrrelevant | 03-redux/src/hooks/useTodo.js:19 | a title matches a search text exactly when it matches the lower-cased search text |
| Text.TitleCaseIrrelevant | 03-redux/src/hooks/useTodo.js:19 | a title matches exactly when its lower-cased form matches |
| SeqFilter.Filter | 03-redux/src/hooks/useTodo.js:17-20 | the filter result is no longer than the list and holds exactly the list's elements that satisfy the predicate |
| SeqFilter.FilterIsSubsequence | 03-redux/src/hooks/useTodo.js:70 | filtering keeps the original order: the result is a subsequence of the list |
| TodoLogic.AddStep | 03-redux/src/hooks/useTodo.js:35-59 | an add grows the list by one exactly when Enter, no composition and a non-empty buffer coincide; earlier items are kept; the new last item is {counter + 1, buffer}, the counter becomes that id and the buffer is cleared; otherwise nothing changes |
| TodoLogic.ConfirmMessage | 03-redux/src/hooks/useTodo.js:68 | the confirmation prompt is the title between corner brackets followed by exactly "を削除しますか？" |
| TodoLogic.RemoveById | 03-redux/src/hooks/useTodo.js:70 | removal keeps exactly the items whose id differs from the target, whatever their title, as a subsequence of the list |
| TodoLogic.DeleteStep | 03-redux/src/hooks/useTodo.js:66-75 | a confirmed delete keeps exactly the items with another id, in their original order; a declined one leaves the list unchanged |
| TodoLogic.ShowTodoList | 03-redux/src/hooks/useTodo.js:16-22 | the view holds exactly the items whose lower-cased title starts with the lower-cased search text, in list order |
| TodoLogic.ShowAllOnEmptySearch | 03-redux/src/hooks/useTodo.js:16-22 | an empty search shows the whole list |
| TodoLogic.ShowIgnoresSearchCase | 03-redux/src/hooks/useTodo.js:19 | the view for a search text equals the view for its lower-cased form |
| TodoLogic.ShowAfterAdd | 03-redux/src/hooks/useTodo.js:16-22 | after an add the view is the old view followed by the new item exactly when the add was accepted and its title matches |
| TodoLogic.RemoveAbsentIdIsNoOp | src/components/templates/TodoTemplate/TodoTemplate.jsx:66 | removing an id no item carries leaves the list unchanged |
| TodoLogic.RemovePresentIdShrinksByOne | 03-redux/src/hooks/useTodo.js:70 | with distinct ids, removing a present id shortens the list by exactly one |
| TodoLogic.SubsequenceKeepsIdsDistinct | 03-redux/src/hooks/useTodo.js:70 | dropping items from a list with distinct ids leaves distinct ids |
| TodoLogic.InitialStoreFresh | 03-redux/src/hooks/useTodo.js:7-14 | the initial state has distinct ids, none above the counter |
| TodoLogic.AddKeepsFreshCounter | 03-redux/src/hooks/useTodo.js:37-55 | an add keeps ids distinct and at most the counter; an accepted add mints an id above every existing id |
| TodoLogic.DeleteKeepsFreshCounter | 03-redux/src/hooks/useTodo.js:66-75 | a delete, confirmed or not, keeps ids distinct and at most the counter |
| TodoLogic.SeedLengthCounterCanCollide | 02-context-api/src/constants/data.js:22 | a counter started at the seed length mints a duplicate for a seed whose ids exceed its length |
| TodoLogic.RunKeepsFreshCounter | 03-redux/src/hooks/useTodo.js:35-75 | every sequence of buffer edits, key presses and deletes keeps ids distinct and at most the counter |
| TodoLogic.RunCounterMonotone | 03-redux/src/hooks/useTodo.js:38-55 | the counter never decreases |
| TodoLogic.MintedIdsBounded | 03-redux/src/hooks/useTodo.js:38-55 | every id minted during a run is above the counter before the run and at most the counter after it |
| TodoLogic.MintedIdsIncrease | 03-redux/src/hooks/useTodo.js:38-55 | successive adds mint strictly increasing ids |
| TodoLogic.MintedIdIsAppendedId | 03-redux/src/hooks/useTodo.js:38-51 | the id recorded as minted by an action is the id of the item that action appends; an action that appends nothing records nothing |
| TodoLogic.ReachableIdsDistinct | 03-redux/src/hooks/useTodo.js:4-86 | from the seed, after any sequence of user actions, ids are pairwise distinct |
| UseTodo.TodoManager.constructor | 03-redux/src/hooks/useTodo.js:7-14 | a new manager holds the seed list, empty add and search buffers and the counter at the seed length |
| UseTodo.TodoManager.ShowTodoList | 03-redux/src/hooks/useTodo.js:16-22 | the view holds exactly the matching items in list order, and the whole list for an empty search |
| UseTodo.TodoManager.OnChangeAddInputValue | 03-redux/src/hooks/useTodo.js:28 | the add buffer becomes exactly the given text; nothing else changes |
| UseTodo.TodoManager.SetSearchInputValue | 03-redux/src/hooks/useTodo.js:14 | the search buffer becomes exactly the given text; list, counter and add buffer are unchanged |
| UseTodo.TodoManager.HandleAddTodo | 03-redux/src/hooks/useTodo.js:35-59 | an accepted add appends {counter + 1, buffer}, sets the counter to that id and clears the buffer; a rejected one changes nothing; the search buffer is untouched and fresh ids stay fresh |
| UseTodo.TodoManager.HandleDeleteTodo | 03-redux/src/hooks/useTodo.js:66-75 | after a yes to the prompt naming the title, exactly the items with another id remain, in order; after a no nothing changes; counter and buffers never change |
| RootTemplate.TodoTemplate.constructor | src/components/templates/TodoTemplate/TodoTemplate.jsx:14-19 | the initial state is the seed list, an empty add buffer and the counter at the seed length |
| RootTemplate.TodoTemplate.OnChangeAddInputValue | src/components/templates/TodoTemplate/TodoTemplate.jsx:25 | the add buffer becomes exactly the given text; list and counter are unchanged |
| RootTemplate.TodoTemplate.HandleAddTodo | src/components/templates/TodoTemplate/TodoTemplate.jsx:32-55 | only Enter outside composition with a non-empty buffer appends {counter + 1, buffer} after the existing items, sets the counter to that id and clears the buffer; otherwise all state is unchanged |
| RootTemplate.TodoTemplate.HandleDeleteTodo | src/components/templates/TodoTemplate/TodoTemplate.jsx:62-71 | a confirmed delete removes every item with the target id and keeps the rest in order, and changes nothing for an absent id; a declined delete changes nothing |
| Scenarios.AddWithEnter | 03-redux/src/hooks/useTodo.test.js:37-70 | typing a title and pressing Enter on the seed state gives 5 items, the last {5, title}, and an empty buffer |
| Scenarios.AddWithoutEnter | 03-redux/src/hooks/useTodo.test.js:72-96 | a key other than Enter leaves 4 items and keeps the typed text |
| Scenarios.AddWithEmptyBuffer | 03-redux/src/hooks/useTodo.test.js:98-114 | Enter with an empty buffer leaves 4 items |
| Scenarios.AddWhileComposing | 03-redux/src/hooks/useTodo.test.js:116-141 | Enter during composition leaves 4 items and keeps the typed text |
| Scenarios.DeleteFirst | 03-redux/src/hooks/useTodo.test.js:145-188 | confirming the deletion of item 1 leaves the other three in order; declining leaves all four |
| Scenarios.SearchReact | 03-redux/src/hooks/useTodo.test.js:192-212 | searching "React" shows exactly the item "ReactでTodoアプリを作成する" |
| Scenarios.SearchEmpty | 03-redux/src/hooks/useTodo.test.js:214-227 | an empty search shows all four seed items |

## Left out

- Text.LowerChar: maps only the ASCII capitals 'A' to 'Z'; every other character, including non-ASCII capitals, is returned unchanged, unlike the full Unicode case mapping of `toLowerCase`.
- Text.ToLowerCase: lower-cases ASCII letters only, not the full Unicode case mapping of `toLowerCase` (full-width or accented capitals, for one, are left as they are); every seed title and every test input is covered by the ASCII mapping.
- React mechanics: `useState` batching, `useMemo` caching and re-rendering. Each handler is one atomic transition on the latest state, and the view is a function of the state.
- The confirmation dialog itself: `window.confirm` becomes the `confirm` parameter of the delete handlers, which receives the prompt text and returns the user's answer.
- Event objects: only `key` and `nativeEvent.isComposing` are read, as a `KeyEvent` value. A test passes an event with no `nativeEvent` for a non-Enter key; the source never reads it there because the key test fails first, and the model always carries the flag.
- Number precision: ids and the counter are unbounded integers; JavaScript numbers stop counting exactly above 2^53, far beyond any reachable counter.
- The search buffer is not part of `TodoLogic.Store` or of the action sequences, because no handler reads it to update the list, the counter or the add buffer; the hook class keeps it as a field.
- Markup and plumbing: the JSX returned by the components, the presentational components, the context provider that forwards the hook's values, the rendering entry point and the build configuration. The model is a single manager object passed by reference.
