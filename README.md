# Shopping list page: a Dafny model of its state

The shopping-list page (`app/page.tsx`, component `Home`) has a search box
that looks up item names after a debounce delay. The matching names appear in a
dropdown, and choosing one adds it to a checkable, deletable list. This project
models the page's state and its handlers, lifted out of React:

- `shopping.dfy`, module `ShoppingList`, holds the values and the pure operations.
  The values are a list entry `Item(id, itemName)` and a dropdown entry
  `SearchResult(name, isAdded)`. The operations build each new piece of state:
  - `RemoveById` is the filter a delete applies.
  - `MarkAdded` is the map an add applies to the results.
  - `FreshResults` is the map that turns looked-up names into results.
  - `Toggle` flips one id's membership in the checked set.

  The module also holds the two projections the page renders: `Dropdown` (the
  first five results, only when the dropdown is open and there is a result) and
  `RenderList` (a placeholder for an empty list, otherwise one row per entry with
  its checked state). The lemmas about these operations are in the same module.
- `home.dfy`, module `HomeComponent`, holds the class `Home`. Its five fields are
  the page's five pieces of state, and each handler is a method that overwrites
  them. Each method's postcondition gives the new state as one of the pure
  operations applied to the old state. `Valid()` says that no two entries share an
  id, and every handler preserves it. Two client methods replay two scenarios: a
  search followed by a selection, and the deletion of an unchecked item.

`deleteItem` (`app/page.tsx:58-65`) does not remove the id from the checked set:
it calls `toggleCheckedItem`, so deleting an unchecked item puts its id INTO the
set. `Home.DeleteItem` models this toggle.
- `DeleteUncheckedLeavesStaleId` shows the id that is left over.
- `DeleteUnchecked` replays the case "A unchecked, B checked, delete A": the list
  becomes `[B]` and the checked set `{A, B}`.
- `DeleteRendersAsRemove` and `ToggleDeletedIsInvisible` show that the list
  rendered right after the delete is the one a removal would give.

The left-over id also stays hidden in every later state. `Home` keeps a ghost set
`seen` of every id that has been in the list or the checked set, and `Valid()`
requires both to be inside it. Each handler either leaves the list's ids alone,
removes one id (`DeleteItem`), or adds one id that was never seen (`AddItem`,
whose fresh id stands for a new uuid). So an id that has left the list never comes
back, and by `RenderIgnoresOtherIds` its membership in the checked set never
affects the rendered list. For the same reason a new entry is always unchecked.
`StaleIdStaysHidden` replays the delete above followed by adding C: the list
renders as B checked and C unchecked.

## Model

| member | source | states |
|---|---|---|
| `ShoppingList.RemoveById` | app/page.tsx:59-63 | after a delete no entry has the id; an entry survives iff it was in the list and has another id; the list does not grow |
| `ShoppingList.RemoveByIdKeepsOrder` | app/page.tsx:59-63 | the surviving entries are a subsequence of the original list, in their original order |
| `ShoppingList.RemoveByIdCounts` | app/page.tsx:59-63 | every entry with another id survives as many times as it occurred; entries with the id occur zero times |
| `ShoppingList.RemoveAbsentId` | app/page.tsx:58-63 | deleting an id that no entry has leaves the list unchanged |
| `ShoppingList.RemovePresentId` | app/page.tsx:58-63 | when ids are unique, deleting an id that is present shortens the list by exactly one |
| `ShoppingList.RemoveByIdIds` | app/page.tsx:59-63 | after a delete the ids of the list are the old ids minus the deleted one |
| `ShoppingList.RemoveByIdKeepsUnique` | app/page.tsx:58-63 | a delete keeps the list's ids unique |
| `ShoppingList.AppendKeepsUnique` | app/page.tsx:78 | appending an entry whose id is new keeps the ids unique |
| `ShoppingList.AppendIds` | app/page.tsx:78 | after an append the ids of the list are the old ids plus the new entry's id |
| `ShoppingList.AppendCountsName` | app/page.tsx:78 | no dedup: appending an entry named `name` raises the count of entries with that name by one |
| `ShoppingList.Toggle` | app/page.tsx:67-75 | the id is in the result iff it was not in the set; every other id keeps its membership |
| `ShoppingList.ToggleTwice` | app/page.tsx:67-75 | toggling the same id twice restores the original set |
| `ShoppingList.ToggleCommutes` | app/page.tsx:67-75 | toggles of two ids give the same set in either order |
| `ShoppingList.FreshResults` | app/page.tsx:38-42 | a completed lookup gives one result per returned name, none of them marked added |
| `ShoppingList.FreshResultsNames` | app/page.tsx:38-42 | the fresh results carry exactly the returned names, in order |
| `ShoppingList.MarkAdded` | app/page.tsx:79-87 | the results keep their length and names; an entry is added iff it already was or its name is the added name |
| `ShoppingList.MarkAddedKeepsOthers` | app/page.tsx:79-87 | a result with another name is left exactly as it was |
| `ShoppingList.MarkAddedAbsent` | app/page.tsx:79-87 | adding a name that no result carries leaves the results unchanged |
| `ShoppingList.MarkAddedIdempotent` | app/page.tsx:79-87 | marking the same name twice gives the same results as marking it once |
| `ShoppingList.MarkAddedNames` | app/page.tsx:79-87 | marking leaves the sequence of names unchanged |
| `ShoppingList.Dropdown` | app/page.tsx:105-110 | the dropdown is rendered iff it is open and there is a result; it then shows a prefix of the results of length min(5, number of results) |
| `ShoppingList.RenderList` | app/page.tsx:140-162 | an empty list renders the placeholder; otherwise there is one row per entry, in order, with that entry's id and name, checked iff its id is in the checked set |
| `ShoppingList.RenderIgnoresOtherIds` | app/page.tsx:147-160 | two checked sets that agree on the ids of the entries render the same list |
| `ShoppingList.ToggleDeletedIsInvisible` | app/page.tsx:58-75 | after a delete, toggling the deleted id again does not change the rendered list |
| `ShoppingList.DeleteRendersAsRemove` | app/page.tsx:58-75 | a delete that toggles renders the same list as a delete that removes the id from the checked set |
| `ShoppingList.DeleteUncheckedLeavesStaleId` | app/page.tsx:58-75 | deleting an unchecked id leaves that id in the checked set, with no entry carrying it |
| `ShoppingList.DeleteCheckedKeepsCheckedOnList` | app/page.tsx:58-75 | if every checked id is on the list and the deleted id is checked, every checked id is still on the list afterwards |
| `ShoppingList.ToggleListedKeepsCheckedOnList` | app/page.tsx:67-75 | if every checked id is on the list, toggling the id of a listed entry keeps every checked id on the list |
| `ShoppingList.AppendKeepsCheckedOnList` | app/page.tsx:78 | if every checked id is on the list, appending an entry keeps every checked id on the list |
| `HomeComponent.Home.constructor` | app/page.tsx:22-26 | the initial state: empty list, empty query, empty checked set, closed dropdown, no results, and no id seen yet |
| `HomeComponent.Home.SetSearchQuery` | app/page.tsx:99 | typing replaces the query |
| `HomeComponent.Home.Focus` | app/page.tsx:100 | focusing the input opens the dropdown |
| `HomeComponent.Home.ClickOutside` | hooks/useDetectClickOutside.tsx:10-14 | a press outside the dropdown region closes the dropdown |
| `HomeComponent.Home.FireDebounce` | app/page.tsx:45-51 | a query of two or more characters issues a lookup keyed by the query and leaves the results as they are; a shorter query issues none and clears the results |
| `HomeComponent.Home.ReceiveResults` | app/page.tsx:38-42 | a completed lookup replaces the results with the returned names, in order, none marked added |
| `HomeComponent.Home.ToggleCheckedItem` | app/page.tsx:67-75 | the checked set becomes the toggle of the old one: the id flips and no other id changes; the invariant holds and the id is recorded as seen |
| `HomeComponent.Home.DeleteItem` | app/page.tsx:58-65 | the list becomes the filter of the old one, keeps unique ids, loses exactly the id from its ids, loses exactly one entry when the id was present and is unchanged otherwise; the id is toggled in the checked set, not removed |
| `HomeComponent.Home.AddItem` | app/page.tsx:77-88 | for an id never seen before (a new uuid): the list becomes the old list plus `{freshId, item}` at the end, gains exactly that id, keeps unique ids, and has one more entry of that name; the results become the old ones with that name marked added; the new entry is unchecked, which follows from the invariant that every checked id was seen |
| `HomeComponent.SearchAndSelect` | app/page.tsx:38-88 | query "appl", results "apple" and "applesauce": a lookup keyed "appl" is issued; after "apple" is selected the list is one "apple" entry and the dropdown shows "apple" added and "applesauce" not |
| `HomeComponent.DeleteUnchecked` | app/page.tsx:58-75 | A unchecked and B checked; deleting A leaves a valid page whose list is [B] and whose checked set is {A, B} |
| `HomeComponent.StaleIdStaysHidden` | app/page.tsx:58-88 | after that delete, adding C with a fresh id renders B checked and C unchecked; the left-over id A shows nowhere |

## Left out

- The `fetch` call, `res.json()` parsing and the endpoint URL (`app/page.tsx:34-37`) are network I/O. `FireDebounce` returns the query a lookup is keyed by, and `ReceiveResults` takes the returned names as a parameter. A failed request or a malformed body (which the page does not handle) is not modelled.
- `setTimeout`/`clearTimeout` and the effect cleanup (`app/page.tsx:45-55`) are not modelled: there is no wall-clock debounce and no cancelling of earlier timers. Only the branch that runs when the timer fires is modelled. `ReceiveResults` may be called at any time, so a stale response that arrives out of order is allowed but not singled out.
- `uuidv4()` (`app/page.tsx:78`) is a foreign call. `AddItem` takes the new id as a parameter and requires that it is not in the ghost set `seen`, which holds every id that has been in the list or the checked set.
- `structuredClone` (`app/page.tsx:68`) is not needed: Dafny sets are values, so `ToggleCheckedItem` works on a copy as the page does.
- React's batching of setters and the closures that read the state of the last render are not modelled. Each handler runs to completion on the current state, and its two updates touch different fields.
- `HomeComponent.Home.FireDebounce`: the page compares `searchQuery.length`, which counts UTF-16 code units, with 1. The model counts Dafny characters, so a query made of one character outside the Basic Multilingual Plane issues a lookup in the page but clears the results in the model.
- The choice of an option in the Combobox (`app/page.tsx:95`, `113-114`) is modelled as a call to `AddItem` with that option's name. The library's keyboard and pointer handling is not modelled.
- The listener registration and the DOM `contains` test in `hooks/useDetectClickOutside.tsx` are not modelled. `ClickOutside` stands for a press whose target is outside the dropdown region.
- JSX markup, icons, CSS classes, `Spacer` and the Combobox and Radix components are presentation only.
