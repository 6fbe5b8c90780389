# Food dashboard: state reconciliation

A model, in Dafny, of the listing page of a small food-menu admin application.
The page (`Dashboard`, a React class component) owns the list of foods, the
record currently being edited and two flags that show or hide the add and edit
forms. Its handlers call a REST backend (`/foods`) and then bring the local list
in line with what the server answered:

- on mount it loads the whole list;
- after a create it appends the record the server returned;
- after an update it swaps the returned record in for every entry with the same id;
- after a delete it filters out every entry with the deleted id;
- two toggles flip the form flags, and choosing a food for editing stores it and opens the edit form.

The project has three modules:

- `FoodModel` (`food_model.dfy`): the `Food` record; `PartialFood`, an object
  literal over the same keys where any key may be missing (what the forms submit,
  and the `{}` placeholder the page starts with); the object spread
  `{...base, ...top}` as `Overlay`; and the two request bodies the page builds.
- `FoodLists` (`food_lists.dfy`): the three new-list computations as pure
  functions over `seq<Food>` (`Appended`, `ReplaceById`, `RemoveById`), with
  lemmas on length, order, survivors, multiplicities, idempotence, unique ids and
  how the three interact.
- `DashboardPage` (`dashboard_page.dfy`): the class `Dashboard` with the four
  state fields and one method per handler, each tying the new state to the old
  one through the functions above, plus three client methods that chain handlers.

Every HTTP call is a parameter of the handler that awaits it: `Reply<T>`
(`Success(value)` or `Failure`) for GET, POST and PUT, and `DeleteReply`
(`Ok` or `Rejected`) for DELETE. Each handler is one atomic step from the
current state.

Points where the model takes a position:

- `componentDidMount` and `handleDeleteFood` have no error handler. When their
  request rejects, execution never reaches `setState`, so the model leaves the
  state unchanged. For delete, this follows the code: the list is filtered only
  after the DELETE resolves, so a failed delete removes nothing locally.
- The input type of `handleAddFood` is `Omit<FoodModel, 'id | available'>`. This
  names one key, `'id | available'`, which no record has, so it removes no key
  from the type. The add input is therefore modelled as a `PartialFood` that may
  carry any key. Only the explicit `available: true` written after the spread
  changes the body.
- The update request goes to `editingFood.id`. Until a food has been chosen,
  `editingFood` is the empty placeholder, so the model's target is `None` (the
  page would send `/foods/undefined`). The list swap matches on the id of the
  record the server returned, not on `editingFood.id`.
- The price is an abstract type with equality only. The page only copies it.

## Model

| member | source | states |
|---|---|---|
| `DashboardPage.Dashboard.constructor` | src/pages/Dashboard/index.tsx:23-31 | the initial state has no foods, the empty `{}` as edited record, and both forms closed |
| `DashboardPage.Dashboard.ComponentDidMount` | src/pages/Dashboard/index.tsx:33-37 | a successful GET replaces `foods` with exactly the fetched sequence; a failed one changes nothing; no other field changes |
| `DashboardPage.Dashboard.HandleAddFood` | src/pages/Dashboard/index.tsx:39-52 | the POST body is the input with `available` forced to true and every other key as given; on success `foods` becomes the old list with the returned record appended; on failure the state is unchanged; the other fields never change |
| `DashboardPage.Dashboard.HandleUpdateFood` | src/pages/Dashboard/index.tsx:54-71 | the PUT targets the stored record's id with the stored record overlaid by the submitted keys; on success every entry with the returned id is replaced and the rest stay; on failure the state is unchanged; the other fields never change |
| `DashboardPage.Dashboard.HandleDeleteFood` | src/pages/Dashboard/index.tsx:73-81 | an accepted DELETE filters out the entries with the id; a rejected one leaves `foods` as it was; the other fields never change |
| `DashboardPage.Dashboard.ToggleModal` | src/pages/Dashboard/index.tsx:83-87 | `modalOpen` is negated and nothing else changes |
| `DashboardPage.Dashboard.ToggleEditModal` | src/pages/Dashboard/index.tsx:89-93 | `editModalOpen` is negated and nothing else changes |
| `DashboardPage.Dashboard.HandleEditFood` | src/pages/Dashboard/index.tsx:95-97 | the chosen record becomes the edited record, and reads back as that record; the edit form opens; `foods` and `modalOpen` are untouched |
| `DashboardPage.ToggleTwiceRestores` | src/pages/Dashboard/index.tsx:83-93 | toggling each form twice restores the whole state |
| `DashboardPage.EditThenSave` | src/pages/Dashboard/index.tsx:54-67 | after choosing a food and saving a form that submits no id, the PUT goes to the chosen id, the body is a whole record with that id, the ids of the list are unchanged, and an answer under the chosen id lands at every position holding that id |
| `DashboardPage.AddThenDelete` | src/pages/Dashboard/index.tsx:39-80 | creating a record under an id the list does not hold and then deleting that id restores the list |
| `FoodModel.AddRequest` | src/pages/Dashboard/index.tsx:43-46 | the create body has `available` true whatever the input said, and agrees with the input on every other key |
| `FoodModel.Overlay` | src/pages/Dashboard/index.tsx:60 | a spread under a complete object is that object; a spread over a complete object stays complete |
| `FoodModel.OverlayBlank` | src/pages/Dashboard/index.tsx:60 | spreading into or from `{}` is the identity |
| `FoodModel.UpdateRequest` | src/pages/Dashboard/index.tsx:58-61 | key by key, a submitted key wins over the stored one and a key not submitted keeps the stored value |
| `FoodModel.UpdateRequestOfWhole` | src/pages/Dashboard/index.tsx:58-61 | overlaying a stored whole record yields a whole record with the stored id |
| `FoodModel.Whole` | src/pages/Dashboard/index.tsx:96 | a record stored as the edited object has every key |
| `FoodModel.AsFood` | src/pages/Dashboard/index.tsx:17 | an object reads back as a record exactly when no key is missing |
| `FoodModel.WholeRoundTrip` | src/pages/Dashboard/index.tsx:96 | storing a record and reading it back gives the record |
| `FoodLists.Ids` | src/pages/Dashboard/index.tsx:63-65 | the ids of a list, one per entry, position by position |
| `FoodLists.Appended` | src/pages/Dashboard/index.tsx:48 | appending grows the list by exactly one, keeps the old list as a prefix, and puts the new record last |
| `FoodLists.ReplaceById` | src/pages/Dashboard/index.tsx:63-65 | the length is kept; every entry with another id stays in place unchanged; every entry with the id becomes the returned record |
| `FoodLists.ReplaceKeepsIds` | src/pages/Dashboard/index.tsx:63-65 | the swap never changes which id sits at which position |
| `FoodLists.ReplaceAbsentIsIdentity` | src/pages/Dashboard/index.tsx:63-65 | a returned record whose id is not in the list changes nothing |
| `FoodLists.ReplaceIdempotent` | src/pages/Dashboard/index.tsx:63-65 | swapping the same record in twice is swapping it once |
| `FoodLists.ReplaceContents` | src/pages/Dashboard/index.tsx:63-65 | the returned record is in the new list exactly when its id was in the old one, and the new list holds only old entries and the returned record |
| `FoodLists.ReplaceKeepsUnique` | src/pages/Dashboard/index.tsx:63-65 | the swap keeps ids unique |
| `FoodLists.RemoveById` | src/pages/Dashboard/index.tsx:78 | the list never grows; no entry with the id survives; every entry with another id does |
| `FoodLists.SurvivorsIncrease` | src/pages/Dashboard/index.tsx:78 | the picked positions strictly increase |
| `FoodLists.RemoveIsSubsequence` | src/pages/Dashboard/index.tsx:78 | the filtered list is the subsequence of exactly the entries with other ids, in their original relative order |
| `FoodLists.RemoveCounts` | src/pages/Dashboard/index.tsx:78 | no entry with the id remains, and every other entry remains as many times as it occurred |
| `FoodLists.RemoveConcat` | src/pages/Dashboard/index.tsx:78 | filtering a concatenation is concatenating the filtered parts |
| `FoodLists.RemoveAbsentIsIdentity` | src/pages/Dashboard/index.tsx:78 | deleting an id the list does not hold changes nothing |
| `FoodLists.RemoveIdempotent` | src/pages/Dashboard/index.tsx:78 | deleting twice is deleting once |
| `FoodLists.RemoveUniqueLength` | src/pages/Dashboard/index.tsx:78 | with unique ids, a delete shortens the list by one when the id is present and by none otherwise |
| `FoodLists.RemoveKeepsUnique` | src/pages/Dashboard/index.tsx:78 | filtering keeps ids unique |
| `FoodLists.AppendFreshKeepsUnique` | src/pages/Dashboard/index.tsx:48 | appending a record under a new id keeps ids unique |
| `FoodLists.RemoveUndoesAppend` | src/pages/Dashboard/index.tsx:48-78 | deleting the appended record's id gives what deleting it from the old list gives, and the old list itself when the id was new |
| `FoodLists.RemoveAfterReplace` | src/pages/Dashboard/index.tsx:63-78 | deleting an id after swapping in a record under it is deleting it directly |

## Left out

- `render` and its JSX: the header, the two form modals and the food cards (src/pages/Dashboard/index.tsx:99-130). This is presentation only.
- The edit form component (src/components/ModalEditFood/index.tsx). On submit it starts `handleUpdateFood` without awaiting it, then calls `onRequestClose()` (src/components/ModalEditFood/index.tsx:21-24). The page never passes `onRequestClose`; it passes `setIsOpen` instead (src/pages/Dashboard/index.tsx:112). So that call throws a TypeError and the submit handler rejects. The form does not close and `editModalOpen` stays true, while the update request is already under way. This is UI wiring. The model takes what the form submits as a `PartialFood` argument, and no handler of the model closes the edit form after a save.
- The HTTP client and the backend. The model only sees each request's outcome, given as a parameter.
- Overlapping handlers. Each handler reads `this.state` before its `await`, so two requests in flight can lose an update. That is concurrency; the model treats every handler as one atomic step.
- The React lifecycle (mount runs once), `setState` batching, routing props and the `console.log` calls in the error branches.
- JavaScript's distinction between a missing key and a key set to `undefined` in a spread. A submitted key is either present with a value or absent.
- The numeric representation of `price`. It is an abstract type with equality only.
