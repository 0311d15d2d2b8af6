# tech-notes interview exercises, modelled in Dafny

This project models two groups of code from a set of JavaScript interview exercises.

The first group is the function and array polyfills:
- `myMemoize`, a wrapper with a private result cache;
- `Function.prototype.myCall`, `myApply` and `myBind`, which run a target function with an explicit receiver (`context`);
- `Array.prototype.myMap`.

The second group is the state updates behind eight small React exercises:
- the shopping-cart reducer;
- the pagination bar;
- the image carousel;
- drag-and-drop reordering;
- the todo list;
- the spreadsheet;
- the toast container;
- the search bar.

Every module for a source file models that one file; four shared modules hold the JS values, sequence lemmas, arrays and receiver records. Where the source changes things in place, the model does too:
- the memoize wrapper owns its cache;
- the receiver record of `myCall`/`myApply`/`myBind` is an object whose `fn` field the polyfills write and leave behind;
- `myMap` and the todo, drag-and-drop and spreadsheet handlers work on arrays and row objects.

Each class method is tied to a value-level function of the old state. The lemmas state the properties of those functions.

Shared modules:
- `Js` (`js.dfy`) holds JavaScript values, truthiness, exceptions and completions (a normal result or a thrown exception).
- `Seqs` (`seqs.dfy`) holds `filter`, subsequences and the facts about them.
- `JsArrays` (`jsarray.dfy`) holds a growable array with `push` and `splice`, including `splice`'s clamping of its start and delete count.
- `Receivers` (`receivers.dfy`) holds the mutable `context` record.

Parameters stand in for the clock, timers, `prompt`, `localStorage` and the bodies of target functions:
- a target function is a `Code` value: a function from a function id, a receiver and arguments to a completion;
- the wrapped function of `myMemoize` is a `Behaviour`;
- a `myMap` callback is a `Callback`.

Two places in the code do not behave as evidently intended; both are under "## Findings". The hit test of `myMemoize` is the truthiness of the stored value, not the presence of the key. The model follows the code there, so a falsy result is stored but never served.

## Model

| member | source | states |
|---|---|---|
| JsArrays.SpliceStart | mc-round/10-Drag-and-drop/src/App.jsx:21-22 | the splice start is clamped into `[0, length]`: an in-range start is taken as is, a start past the end gives the length, a negative start counts from the end and one before the front gives 0 |
| JsArrays.SpliceCount | mc-round/10-Drag-and-drop/src/App.jsx:21-22 | the splice delete count is clamped to the elements after the start: an in-range count is taken as is, a negative one gives 0 and one past the end gives the number of elements after the start |
| JsArrays.InsertThenDeleteRestores | mc-round/10-Drag-and-drop/src/App.jsx:21-22 | inserting items with a zero-count splice at an in-range position and then deleting that many items there restores the array |
| JsArrays.JsArray.constructor | mc-round/10-Drag-and-drop/src/App.jsx:18 | the spread copy holds the given elements |
| JsArrays.JsArray.Push | PolyFills/map.js:8 | push appends exactly one element at the end |
| JsArrays.JsArray.Splice | mc-round/10-Drag-and-drop/src/App.jsx:21-22 | splice changes the array in place to the spliced contents and returns the removed elements |
| Receivers.FieldsOf | PolyFills/call.js:12-17 | an omitted context is the fresh `{}` and a passed record gives its own fields; a null context is not replaced by the default and, like a number, string or boolean context, has no fields that take `context.fn` |
| Memoize.HitServesCache | PolyFills/memoize.js:7-11 | a truthy stored value is returned, `fn` is not run, and the cache is unchanged |
| Memoize.MissStoresResult | PolyFills/memoize.js:7-11 | a miss runs `fn` once; a normal result is stored under the key and returned; an exception propagates and the cache is unchanged |
| Memoize.FalsyEntryIsRecomputed | PolyFills/memoize.js:7 | a stored falsy value is not a hit, so `fn` runs again |
| Memoize.OnlyCurrentKeyWritten | PolyFills/memoize.js:4-12 | only the current key's entry can change; no entry is removed; a served entry is never overwritten |
| Memoize.SecondCallServedFromCache | PolyFills/memoize.js:6-11 | after a truthy result, the next call with the same arguments is served from the cache without running `fn`, whatever its receiver |
| Memoize.FailureIsRetried | PolyFills/memoize.js:8 | a call that threw leaves the cache as it was, and the next call with the same arguments runs `fn` again |
| Memoize.OrderSensitiveKeys | PolyFills/memoize.js:6 | (3,4) and (4,3) are different keys: the repeat of (3,4) is a hit, while (4,3) runs the product again and gets its own entry |
| Memoize.ZeroProductIsRecomputed | PolyFills/memoize.js:7 | a product of 0 is stored but every call with those arguments recomputes it |
| Memoize.AsWrittenMissThrows | PolyFills/memoize.js:8 | as written, every miss throws a ReferenceError for `context` and the cache is never written |
| Memoize.StepHitKeys | PolyFills/memoize.js:7-8 | a run of `fn` that returns a truthy value adds exactly the current key, which was not served before, to the served keys |
| Memoize.RunOnlyGrows | PolyFills/memoize.js:4-12 | over any sequence of calls, keys are only added, and a served entry keeps its value |
| Memoize.RunInvocationsAtMostCalls | PolyFills/memoize.js:5-12 | `fn` never runs more often than the wrapper is called |
| Memoize.RunInvocationsAreNewKeys | PolyFills/memoize.js:5-12 | with a truthy-valued `fn`, each run of `fn` adds one new served key, and each new served key is the argument list of a call |
| Memoize.AtMostOneInvocationPerKey | PolyFills/memoize.js:3-12 | with a truthy-valued `fn`, a new wrapper runs `fn` at most once per distinct argument list |
| Memoize.Memoized.constructor | PolyFills/memoize.js:3-4 | `myMemoize(fn)` makes a new wrapper with an empty cache of its own |
| Memoize.Memoized.Call | PolyFills/memoize.js:5-12 | a call returns, stores and logs exactly what the corrected one-call step says |
| CallPolyfill.CallOutcomes | PolyFills/call.js:12-19 | check order: a non-function throws first, then a null context fails at the field write; otherwise a normal result is replaced by undefined and an exception propagates |
| CallPolyfill.MyCall | PolyFills/call.js:12-19 | a non-function target, or a null or primitive context, changes nothing and runs nothing, and the primitive and null cases throw a TypeError; otherwise the context gains `fn` = target and keeps it, and the target runs exactly once on the context with the arguments in order |
| ApplyPolyfill.ApplyIsCallWithSpread | PolyFills/apply.js:12-23 | applying an array is calling with its elements in order; omitted arguments mean none; the not-callable check comes before the array check |
| ApplyPolyfill.MyApply | PolyFills/apply.js:12-23 | any failed check, and a null or primitive context (a TypeError), leaves the context unchanged and runs nothing; otherwise `fn` is set and kept, and the target runs once with the spread arguments |
| BindPolyfill.BoundCallIsDirectCall | PolyFills/bind.js:17-21 | binding then calling is calling the target on the context with the preset arguments before the call-time ones; the result comes back unchanged, where `myCall` drops it |
| BindPolyfill.LaterBindRedirects | PolyFills/bind.js:17-20 | after a second bind on the same context, a function bound earlier runs the second target |
| BindPolyfill.BoundFunction.constructor | PolyFills/bind.js:19-21 | the bound function captures only the context object and the preset arguments |
| BindPolyfill.BoundFunction.Invoke | PolyFills/bind.js:19-21 | each call reads `context.fn` at that moment and runs it once, with nothing cached |
| BindPolyfill.MyBind | PolyFills/bind.js:12-22 | binding a non-function throws and leaves the context unchanged; a null context throws; a primitive context binds without throwing, to a fresh record without fields; otherwise `context.fn` = target, other fields are kept, and an omitted context becomes a fresh record |
| BindPolyfill.PrimitiveBoundCallThrows | PolyFills/bind.js:16-21 | a function bound to a primitive throws a TypeError at each call, not at bind time, since `context.fn` reads undefined there |
| BindPolyfill.RebindRedirects | PolyFills/bind.js:17-20 | bind, rebind, then call the first bound function: the second target runs with the first preset arguments |
| MapPolyfill.MyMap | PolyFills/map.js:5-11 | a fresh array of the same length with `out[i] == cb(in[i], i, in)`; `cb` is called once per index in increasing order; an empty input gives `[]` with no calls |
| CartReducer.AddAppends | mc-round/08-shopping-cart-redux/src/redux/reducers.jsx:6-10 | ADD_TO_CART: one more item, the payload is last, the earlier items and the products are unchanged |
| CartReducer.RemoveDropsId | mc-round/08-shopping-cart-redux/src/redux/reducers.jsx:12-16 | REMOVE_FROM_CART drops every item with the id, duplicates included; it keeps all others with their multiplicity and order, and keeps the products |
| CartReducer.RemoveAbsentIsNoOp | mc-round/08-shopping-cart-redux/src/redux/reducers.jsx:15 | removing leaves the state equal exactly when no cart item has the id |
| CartReducer.UnknownActionIsIdentity | mc-round/08-shopping-cart-redux/src/redux/reducers.jsx:18-19 | any other action type returns the same state |
| CartReducer.AddThenRemoveRestores | mc-round/08-shopping-cart-redux/src/redux/reducers.jsx:6-16 | adding a product with a fresh id and then removing it restores the state |
| Pagination.PrevCount | mc-round/06-react-pagination/src/components/Pagination.jsx:5-8 | at most three previous pages are listed |
| Pagination.PrevThreeNoIsPositiveRun | mc-round/06-react-pagination/src/components/Pagination.jsx:5-8 | `prevThreeNo` is the positive numbers among `pageNo-3 .. pageNo-1`, ascending; there are `clamp(pageNo-1, 0, 3)` of them |
| Pagination.PaginationArrayIsRun | mc-round/06-react-pagination/src/components/Pagination.jsx:5-20 | the bar is a contiguous ascending run of `4 + clamp(pageNo-1, 0, 3)` pages ending at `pageNo+3`, with `pageNo` in it exactly once |
| Pagination.ListedPagesArePositive | mc-round/06-react-pagination/src/components/Pagination.jsx:5-10 | for `pageNo >= 1` every listed page number is at least 1 |
| Pagination.ClicksKeepPagePositive | mc-round/06-react-pagination/src/components/Pagination.jsx:12-41 | once the page is at least 1 (any click on page 0 except the button for 0 gets there) no click leads below 1; prev (shown only above page 1) and next change the page by exactly one |
| Pagination.InitialPageBar | mc-round/06-react-pagination/src/components/Post.jsx:8 | on the initial page 0 the bar is 0, 1, 2, 3 |
| Pagination.ListedPagesAreNonNegative | mc-round/06-react-pagination/src/components/Pagination.jsx:5-20 | for `pageNo >= 0` every listed page number is at least 0, and 0 is listed exactly on page 0 |
| Pagination.ClicksKeepPageNonNegative | mc-round/06-react-pagination/src/components/Pagination.jsx:12-41 | from the initial page 0 on no click leads below 0, and a page other than 0 never goes back to 0 |
| Carousel.InitialIsValid | mc-round/07-react-carousel/src/components/ImageCarousel.jsx:6 | the initial index 0 is valid when there is at least one image |
| Carousel.NextWraps | mc-round/07-react-carousel/src/components/ImageCarousel.jsx:9-14 | next stays in `[0, n)` and is `(i+1) mod n`: 0 after the last image, `i+1` otherwise |
| Carousel.PrevWraps | mc-round/07-react-carousel/src/components/ImageCarousel.jsx:16-22 | prev stays in `[0, n)` and is `(i-1) mod n`: `n-1` before the first image |
| Carousel.PrevNextInverse | mc-round/07-react-carousel/src/components/ImageCarousel.jsx:9-22 | prev undoes next and next undoes prev |
| Carousel.AdvanceCompose | mc-round/07-react-carousel/src/components/ImageCarousel.jsx:24-25 | `a + b` timer ticks are `a` ticks followed by `b` ticks |
| Carousel.AdvanceWithoutWrap | mc-round/07-react-carousel/src/components/ImageCarousel.jsx:9-13 | before the last image, `k` ticks add `k` |
| Carousel.AdvanceStaysValid | mc-round/07-react-carousel/src/components/ImageCarousel.jsx:24-25 | any number of ticks keeps a valid index |
| Carousel.FullCycleReturns | mc-round/07-react-carousel/src/components/ImageCarousel.jsx:9-25 | `n` ticks return to the starting image |
| Carousel.AdvanceIsPeriodic | mc-round/07-react-carousel/src/components/ImageCarousel.jsx:24-25 | the auto-advance has period `n` |
| DragAndDrop.RemoveAt | mc-round/10-Drag-and-drop/src/App.jsx:21 | removing one position shortens the list by one |
| DragAndDrop.InsertAt | mc-round/10-Drag-and-drop/src/App.jsx:22 | inserting one item lengthens the list by one |
| DragAndDrop.DropIsMove | mc-round/10-Drag-and-drop/src/App.jsx:17-22 | for a drag from a list item to a list item, the two splices move the item from `from` to `to` |
| DragAndDrop.MoveProperties | mc-round/10-Drag-and-drop/src/App.jsx:19-22 | a move keeps the length and the multiset and puts the old `items[from]` at `to`; the other items keep their relative order; `from == to` changes nothing |
| DragAndDrop.DropWithoutDragCorruptsList | mc-round/10-Drag-and-drop/src/App.jsx:17-22 | as written, a drop with no drag in progress turns the initial list into [Item 2, Item 3, undefined, Item 4] |
| DragAndDrop.DropWithoutDragIsNoOp | mc-round/10-Drag-and-drop/src/App.jsx:17-26 | with the guard, a drop with no drag in progress leaves the list as it was |
| DragAndDrop.Board.constructor | mc-round/10-Drag-and-drop/src/App.jsx:6-7 | four items, and no drag in progress |
| DragAndDrop.Board.HandleDragStart | mc-round/10-Drag-and-drop/src/App.jsx:9-11 | the dragged index is remembered and the list is untouched |
| DragAndDrop.Board.HandleDrop | mc-round/10-Drag-and-drop/src/App.jsx:17-26 | the corrected `handleDrop` (see Findings): a drop with no drag in progress keeps the same array and its contents; otherwise a new array with the moved contents replaces the old one, and the old array is never written; the drag index is reset |
| TodoList.TrimStartEmpty | mc-round/04-react-todo/src/components/Todo.jsx:16 | trimming the start leaves nothing exactly when the text is all white space, and otherwise stops at a non-space character |
| TodoList.TrimEndKeepsFirst | mc-round/04-react-todo/src/components/Todo.jsx:16 | trimming the end never removes a leading non-space character |
| TodoList.TrimEmptyIffBlank | mc-round/04-react-todo/src/components/Todo.jsx:16 | `task.trim()` is empty exactly when the task is empty or white space only |
| TodoList.DeleteRemovesId | mc-round/04-react-todo/src/components/Todo.jsx:38-40 | delete drops every todo with the id and keeps the others with their multiplicity and order |
| TodoList.DeleteAbsentIsNoOp | mc-round/04-react-todo/src/components/Todo.jsx:39 | delete leaves the list equal exactly when no todo has the id |
| TodoList.CompleteFlipsMatching | mc-round/04-react-todo/src/components/Todo.jsx:43-49 | complete flips `isCompleted` only on todos with the id; value, id, length and other todos are unchanged |
| TodoList.CompleteTwiceRestores | mc-round/04-react-todo/src/components/Todo.jsx:45-47 | completing the same id twice restores the list |
| TodoList.CompleteAbsentIsNoOp | mc-round/04-react-todo/src/components/Todo.jsx:45-47 | complete leaves the list equal exactly when no todo has the id |
| TodoList.TodoApp.constructor | mc-round/04-react-todo/src/components/Todo.jsx:6-7 | an empty task, and the stored list |
| TodoList.TodoApp.HandleChange | mc-round/04-react-todo/src/components/Todo.jsx:10-12 | the typed text becomes the task |
| TodoList.TodoApp.HandleAddTask | mc-round/04-react-todo/src/components/Todo.jsx:15-28 | a blank task changes nothing; otherwise one open todo holding the untrimmed task is appended, the earlier todos are unchanged, and the task is cleared |
| TodoList.TodoApp.HandleKeyDown | mc-round/04-react-todo/src/components/Todo.jsx:31-35 | Enter adds the task; any other key changes nothing |
| TodoList.TodoApp.HandleDelete | mc-round/04-react-todo/src/components/Todo.jsx:38-40 | the list becomes the delete of the old list |
| TodoList.TodoApp.HandleComplete | mc-round/04-react-todo/src/components/Todo.jsx:43-49 | the list becomes the complete of the old list |
| Spreadsheet.EditChangesOneCell | mc-round/11-Excel/src/App.jsx:14-17 | editing changes exactly the cell (row, field); the row count, the columns, the row's other fields and all other rows are unchanged |
| Spreadsheet.AddRowAppends | mc-round/11-Excel/src/App.jsx:20-26 | one row is appended and the others are kept; it has a key for every column, set to `''`, except `id`, which is the old row count plus one |
| Spreadsheet.AddColumnRejected | mc-round/11-Excel/src/App.jsx:31 | a cancelled prompt, an empty name or an existing name changes nothing |
| Spreadsheet.AddColumnAddsField | mc-round/11-Excel/src/App.jsx:31-36 | otherwise the name is appended to the columns, and every row gains the field as `''` and keeps its other fields |
| Spreadsheet.DeleteRowRemovesId | mc-round/11-Excel/src/App.jsx:40-43 | delete-row keeps, in order, exactly the rows whose id differs, each as often as before |
| Spreadsheet.DeleteRowAbsentIsNoOp | mc-round/11-Excel/src/App.jsx:41 | delete-row leaves the sheet equal exactly when no row has the id |
| Spreadsheet.DeleteColumnRemovesField | mc-round/11-Excel/src/App.jsx:45-53 | the name leaves the columns, the other columns keep their order, and every row loses exactly that field |
| Spreadsheet.AddRowAfterDeleteRowDuplicatesId | mc-round/11-Excel/src/App.jsx:20-43 | deleting row 1 and then adding a row gives id 3 twice, and a later delete of id 3 removes both rows |
| Spreadsheet.BlankRow | mc-round/11-Excel/src/App.jsx:21-24 | a new object with `''` under every column and no other key |
| Spreadsheet.KeptRows | mc-round/11-Excel/src/App.jsx:41 | the rows kept by the id filter are distinct objects taken from the old list, and their fields are exactly the filtered fields |
| Spreadsheet.Sheet.constructor | mc-round/11-Excel/src/App.jsx:5-12 | the three initial rows as separate objects, and the keys of the first row as columns |
| Spreadsheet.Sheet.HandleInputChange | mc-round/11-Excel/src/App.jsx:14-18 | the shared row object is written in place, giving the one-cell edit; an index with no row throws a TypeError and changes nothing |
| Spreadsheet.Sheet.AddRow | mc-round/11-Excel/src/App.jsx:20-27 | a new row object, blank under every column and then given its id, is appended; the old rows are kept |
| Spreadsheet.Sheet.AddColumn | mc-round/11-Excel/src/App.jsx:29-38 | the sheet's value becomes the add-column of the old one; a rejected name keeps the same row objects, an accepted one replaces every row by a new object |
| Spreadsheet.Sheet.DeleteRow | mc-round/11-Excel/src/App.jsx:40-43 | the surviving row objects are old ones, and the value is the delete-row of the old one |
| Spreadsheet.Sheet.DeleteColumn | mc-round/11-Excel/src/App.jsx:45-53 | the sheet's value becomes the delete-column of the old one, and every row is a distinct new object |
| Toasts.AddAppends | mc-round/05-react-toast/src/components/ToastContainer.jsx:9-16 | one toast is appended and the earlier ones are kept; the timer handle is recorded under the new id and the other entries are kept |
| Toasts.CloseRemoves | mc-round/05-react-toast/src/components/ToastContainer.jsx:19-29 | close drops every toast with the id and keeps the others with their multiplicity and order; it deletes only that id's timer entry |
| Toasts.CloseUnknownKeepsList | mc-round/05-react-toast/src/components/ToastContainer.jsx:23-28 | closing leaves the list unchanged exactly when no toast has the id |
| Toasts.AddThenCloseRestores | mc-round/05-react-toast/src/components/ToastContainer.jsx:9-29 | adding under a fresh id and then closing it cancels that timer and restores the list and the timer record |
| Toasts.SameInstantSharesId | mc-round/05-react-toast/src/components/ToastContainer.jsx:10-15 | two toasts added at the same clock reading share an id: the second handle replaces the first, and one close removes both toasts |
| Toasts.ToastContainer.constructor | mc-round/05-react-toast/src/components/ToastContainer.jsx:5-6 | no toasts and no timers |
| Toasts.ToastContainer.HandleAdd | mc-round/05-react-toast/src/components/ToastContainer.jsx:9-16 | the state becomes the add of the old state |
| Toasts.ToastContainer.HandleClose | mc-round/05-react-toast/src/components/ToastContainer.jsx:19-29 | the recorded handle is the one cancelled, and the state becomes the close of the old state |
| SearchBar.LowerIdempotent | mc-round/09-Search-bar/src/components/SearchBar.jsx:10 | lower-casing twice is lower-casing once |
| SearchBar.LowerKeepsContains | mc-round/09-Search-bar/src/components/SearchBar.jsx:14 | lower-casing keeps a substring a substring |
| SearchBar.ContainsTransitive | mc-round/09-Search-bar/src/components/SearchBar.jsx:14 | a substring of a substring is a substring |
| SearchBar.SearchIsSubsequence | mc-round/09-Search-bar/src/components/SearchBar.jsx:13-15 | the result is an order-preserving subsequence of the data |
| SearchBar.SearchKeepsMatches | mc-round/09-Search-bar/src/components/SearchBar.jsx:10-15 | an item is listed exactly when it is in the data and its lower-case form contains the lower-cased input |
| SearchBar.EmptyInputKeepsAll | mc-round/09-Search-bar/src/components/SearchBar.jsx:5-15 | the empty input keeps every item, and clearing the input gives the initial state |
| SearchBar.CaseInsensitive | mc-round/09-Search-bar/src/components/SearchBar.jsx:10-14 | inputs that differ only in letter case give the same state |
| SearchBar.LongerInputNarrows | mc-round/09-Search-bar/src/components/SearchBar.jsx:13-15 | when the longer input contains the shorter, the longer input's result is a subsequence of the shorter's |
| SearchBar.StoredTermIsLowerCase | mc-round/09-Search-bar/src/components/SearchBar.jsx:10-11 | the stored term has the input's length, each capital letter `A`-`Z` lowered to its small letter and every other character kept |

## Left out

- Serialization of cache keys: the key is the argument list itself, which treats `JSON.stringify` as injective on JSON-shaped arguments. The collapsing of undefined, NaN and functions to `null` and the throw on cyclic values are not modelled. Object properties have no order in the model, so two objects with the same properties in different insertion orders are one key here, where `JSON.stringify` makes two and runs `fn` again.
- Floating point: numbers are integers, so there is no NaN, no rounding and no `-0`.
- `this` and prototype mechanics: patching `Function.prototype` and `Array.prototype` is not modelled. The target function, the receiver and the wrapper's `this` are explicit parameters, and `typeof this !== "function"` is a test on the target value.
- A primitive `context` is modelled for sloppy-mode code, where the write `context.fn = this` is silently dropped; in strict mode that write throws a TypeError at once. Properties inherited from the primitive's prototype are not modelled.
- The text of the thrown `Error`s (`this + "not callable"` and the array message) is not modelled; they are the exception kinds `NotCallable` and `NotAnArray`.
- Side effects of a target function: it receives a snapshot of the receiver's fields, so writes it makes to its own `this` and calls back into the polyfills are not modelled.
- MapPolyfill.MyMap: the callback cannot throw, cannot resize or write the array, and does not see holes; with those assumptions, re-reading `this.length` on each iteration does not change anything.
- The demonstration code at the bottom of each polyfill file is not modelled: the car records, the `purchaseCar` calls and `console.time`/`console.log`. The busy loop in `clumsyProduct` is time only, and that demo calls the unwrapped `clumsyProduct`, not the memoized one.
- Memoize.RunInvocationsAreNewKeys and Memoize.AtMostOneInvocationPerKey assume `fn` always returns a truthy value. A falsy result is recomputed on every call, as FalsyEntryIsRecomputed states.
- The reducer's default `state = initialState` is not modelled, because the state module is not part of this model. The action-type constants are taken to be the strings the components dispatch.
- Rendering, DOM events and React wiring are not modelled: JSX, `key` props, CSS classes, `handleDragOver`'s `preventDefault`, `useEffect`, React batching and stale closures. Each handler is a function of the current state.
- Carousel intervals are not modelled: `setInterval`/`clearInterval` and the mouse enter/leave pauses. The image count `n` is a parameter, and a tick of the interval is one `Next`.
- The todo list's `localStorage` read and `JSON.parse` are not modelled: the restored list is a constructor parameter. `new Date().getTime()` is the `now` parameter. `console.log` and `Item.jsx` are not part of this model.
- The todo input is uncontrolled, so clearing `task` does not clear the text box. That is rendering and is not modelled.
- The spreadsheet's `prompt` is a parameter (`None` for a cancelled prompt). A non-integer row index is not modelled.
- Timers in the toast container are not modelled: `setTimeout` returns the `handle` parameter, its callback firing after 5000 ms is a call of `HandleClose`, and `clearTimeout`'s effect is the handle `HandleClose` returns.
- SearchBar.Lower: only the letters A to Z are lowered, not the full Unicode case mapping of `toLowerCase`; the fixed data list is ASCII.

## Findings

| source | as written | input that shows it | evidently intended | confidence | as-written member | corrected member |
|---|---|---|---|---|---|---|
| PolyFills/memoize.js:8 | `fn.call(context \|\| this, ...args)` reads `context`, which is not declared anywhere, so every miss throws a ReferenceError before the assignment and nothing is ever cached | the first call of `myMemoize(clumsyProduct)` with (3, 4) throws instead of returning 12 | `fn.call(this, ...args)`: the result is computed, stored under the key and returned | high; not executed | Memoize.AsWrittenMissThrows | Memoize.MissStoresResult |
| mc-round/10-Drag-and-drop/src/App.jsx:17-22 | `handleDrop` uses `dragabbleIndex` without checking that a drag started on a list item. When it is `null`, `newItems[null]` is undefined and `splice(null, 1)` removes the first item | a drop on position 2 of the initial list with no drag start before it (something dragged in from outside the list) gives [Item 2, Item 3, undefined, Item 4] | a drop with no list item being dragged leaves the list as it was | medium; not executed | DragAndDrop.DropWithoutDragCorruptsList | DragAndDrop.DropWithoutDragIsNoOp |
