# Hollixton storefront state, modelled in Dafny

The storefront keeps everything the page shows in one mutable `state`
record: the product catalog (`store`), the active tab, the open modal, the
search text, the signed-in user, the selected product and the shopping bag.
`setState` is the only write path: it merges a partial record into the state
and re-renders the whole page from it. On top of it sit the bag operations
(`addToBag`, `removeFromBag`), the session operations (`signIn`,
`signOut`) and the patches that the page's click and submit listeners
issue. The renderer derives two things worth stating precisely: the list of
products to show (tab filter, then case-insensitive search, with a "no
matches" notice) and the bag total.

The Dafny project has five modules:

- `Types` (`types.dfy`): the records of `src/types.ts`. Prices are whole
  pence. `Item.type` is called `category` because `type` is a Dafny keyword.
  A `discountedPrice` of 0 stands for "no discount". The source only ever tests
  that field for truthiness or uses it in `||`, where 0, `null` and a missing
  field behave the same.
- `Filters` (`filters.dfy`): the order-preserving `Array.prototype.filter`
  that both the catalog view and bag removal use, with its laws: exact
  membership and multiplicity, subsequence, idempotence, composition.
- `Bag` (`bag.dfy`): the new bag lists that `addToBag` and `removeFromBag`
  build, and the bag invariant. The invariant says ids are pairwise distinct
  and quantities are at least 1. It holds for every run of adds and removes.
- `Catalog` (`catalog.dfy`): the product list of `ProductCards` and its
  "no matches" notice. Also the body of `BagModal`, whose accumulating loop
  is a method checked against a recursive `BagTotal`, and the "NEW!" rule
  over integer timestamps.
- `Shop` (`shop.dfy`): the `Shop` class holding `state`. `SetState` is the
  shallow merge. The bag, session and event methods call it, and each one
  states its whole new state as a field update of the old one, so it also
  says which fields stay unchanged. A ghost log `syncs` records each user
  record that `addToBag`/`removeFromBag` ask the remote store to save.

Details that the model takes from src/types.ts and src/main.ts:

- The `Tab` union of src/types.ts has `""` besides the four named tabs.
  Like `Home`, it applies no filter.
- `discountedPrice` is a plain `number` in src/types.ts, not an optional
  field.
- The bag is an ordered list of entries, not a set.
- A bag containing an id that is missing from the catalog is not handled
  by src/main.ts:568-572: the total dereferences the missing item. So the
  total requires every id to be present.
- The sign-in form's listener (src/main.ts:453-459) does not sign anyone
  in; see "Findings".

## Model

| member | source | states |
|---|---|---|
| `Filters.Filter` | src/main.ts:298-300 | the filtered list keeps exactly the input elements the predicate accepts, and is no longer than the input |
| `Filters.FilterCount` | src/main.ts:298-300 | each accepted element occurs in the filtered list exactly as often as in the input, each rejected one not at all |
| `Filters.FilterIsSubsequence` | src/main.ts:314-316 | a filtered list is an order-preserving subsequence of its input |
| `Filters.FilterIdempotent` | src/main.ts:307-310 | filtering twice with the same predicate equals filtering once |
| `Bag.Incremented` | src/main.ts:24-28 | the `map` keeps length and ids; entries with the id get quantity + 1, every other entry keeps its quantity |
| `Bag.AddedBagIds` | src/main.ts:21-32 | the bag after `addToBag(id)` has the same length when an entry already carried the id and one more entry otherwise; its ids are the old ids plus `id` |
| `Bag.RemovedBagIds` | src/main.ts:44 | the bag after `removeFromBag(id)` holds exactly the old entries whose id differs; its ids are the old ids minus `id` |
| `Bag.AddExisting` | src/main.ts:21-29 | when entry k has the id, `addToBag` gives the old bag with only entry k's quantity raised by exactly 1: same length, same order |
| `Bag.AddNew` | src/main.ts:30-32 | when no entry has the id, `addToBag` appends `{id, quantity: 1}` at the end and keeps every earlier entry |
| `Bag.AddPreservesWellFormed` | src/main.ts:20-33 | adding keeps ids pairwise distinct and quantities at least 1 |
| `Bag.RemovePreservesWellFormed` | src/main.ts:43-44 | removing keeps ids pairwise distinct and quantities at least 1 |
| `Bag.RemoveDeletes` | src/main.ts:44 | after `removeFromBag(id)` no entry carries the id and its quantity is 0 (deleted, not decremented); every other id keeps its quantity |
| `Bag.RemoveKeepsOrder` | src/main.ts:44 | the remaining entries keep their original order |
| `Bag.RemoveIdempotent` | src/main.ts:44 | removing an id twice equals removing it once |
| `Bag.RemoveThenAdd` | src/main.ts:20-44 | remove then add of an id gives quantity exactly 1, whatever it was before |
| `Bag.AddQuantity` | src/main.ts:20-33 | adding an id raises its quantity by exactly 1 and leaves every other id's quantity unchanged |
| `Bag.AddedTimesQuantity` | src/main.ts:20-33 | k consecutive adds of one id raise its quantity by k and keep the bag well formed, so from an empty bag the quantity is k |
| `Bag.RunQuantity` | src/main.ts:20-48 | in any run of adds and removes with no remove of an id, adds and removes of other ids interleaved freely, that id's quantity grows by exactly the number of its adds |
| `Bag.CountIsDistinctIds` | src/main.ts:228 | for a well-formed bag the header count `bag.length` equals the number of distinct ids |
| `Bag.RunPreservesWellFormed` | src/main.ts:20-48 | any sequence of adds and removes from a well-formed (e.g. empty) bag yields a well-formed bag |
| `Bag.AddAddRemoveExample` | src/main.ts:20-48 | add(5), add(5), remove(5) from an empty bag leaves it empty |
| `Catalog.TabFiltered` | src/main.ts:296-311 | the tab step keeps each item the tab accepts exactly as often as the catalog holds it, and no other item |
| `Catalog.LowerCase` | src/main.ts:315 | `toLowerCase` keeps the length, maps each ASCII capital to its lower-case letter (code + 32), leaves no ASCII capital and changes no other character |
| `Catalog.Contains` | src/main.ts:315 | `includes`: a contained needle is no longer than the text; the empty needle and the text itself are contained |
| `Catalog.MatchesSearch` | src/main.ts:315 | the empty search matches every item; a match is no longer than the name; a name equal to the search up to case matches |
| `Catalog.SearchFiltered` | src/main.ts:313-317 | the search step keeps each matching item exactly as often as its input holds it, everything for the empty search, and no other item |
| `Catalog.ProductsToRender` | src/main.ts:296-317 | the rendered list holds each item that passes tab and search exactly as often as the catalog does, and no other item |
| `Catalog.ShowsNoMatches` | src/main.ts:313-322 | the "no products matched" notice shows exactly when the search is non-empty and no catalog item passes both tab and search |
| `Catalog.TabFilteredSpec` | src/main.ts:296-311 | the tab step equals one `filter` of the catalog by the tab test: exactly the `Girls`/`Guys` items of that category, the truthy-discount items for `Sale`, everything for other tabs, each as often as in the catalog and in catalog order |
| `Catalog.SearchFilteredSpec` | src/main.ts:313-317 | the search step equals one `filter` by "search empty, or lowercased name contains lowercased search": exactly those items, with their multiplicity, in order |
| `Catalog.ProductsToRenderSpec` | src/main.ts:296-317 | the rendered list equals one `filter` of the catalog by "passes the tab and the search": an order-preserving subsequence holding exactly those items, each as often as in the catalog |
| `Catalog.EmptySearchIsIdentity` | src/main.ts:313 | with an empty search the rendered list is the tab-filtered list |
| `Catalog.ProductsToRenderIdempotent` | src/main.ts:296-316 | re-applying the same tab and search to the rendered list changes nothing |
| `Catalog.TabKeepsAll` | src/main.ts:296-311 | the tab step is the identity on a list the tab already accepts |
| `Catalog.SaleTabExample` | src/main.ts:307-311 | the `Sale` tab over a 20.00 undiscounted and a 30.00/15.00 item keeps only the discounted one |
| `Catalog.NoMatchesExample` | src/main.ts:318-322 | tab `Girls` with search "zz" over that catalog shows the notice |
| `Catalog.Find` | src/main.ts:568-570 | a found item is the first catalog item with the asked id; nothing is found exactly when no catalog item has that id |
| `Catalog.UnitPrice` | src/main.ts:572 | the unit price is the discounted price when that is non-zero, otherwise the full price; it is 0 only when both are |
| `Catalog.BagTotalAppend` | src/main.ts:565-573 | appending an entry adds its (discounted-or-full price × quantity) to the total |
| `Catalog.BagModalContents` | src/main.ts:559-583 | an empty bag shows exactly the empty message; otherwise the accumulating loop's total equals the sum over entries of unit price × quantity |
| `Catalog.AddedBagTotal` | src/main.ts:20-33 | adding a catalog item to a well-formed bag raises the total by that item's unit price |
| `Catalog.IncrementedTotal` | src/main.ts:24-28 | bumping an id present in a well-formed bag raises the total by one unit price |
| `Catalog.RemovedBagTotal` | src/main.ts:43-44 | removing an id from a well-formed bag lowers the total by that entry's unit price × quantity |
| `Catalog.BagTotalNonNegative` | src/main.ts:565-573 | with no negative price and no negative quantity the total is not negative |
| `Catalog.TotalExample` | src/main.ts:572 | two of the 30.00 item discounted to 15.00 total 30.00 |
| `Catalog.DaysSince` | src/main.ts:106-110 | `daysSince` is the number of whole days elapsed: that many days of milliseconds fit into the elapsed time and one more does not |
| `Catalog.IsNewIff` | src/main.ts:106-120 | the "NEW!" test `floor(elapsed / day) < 10` holds exactly when fewer than ten days of milliseconds have elapsed |
| `Shop.Merge` | src/main.ts:15-16 | every field the patch carries takes the patch's value; every other field keeps its old value |
| `Shop.MergeLaws` | src/main.ts:15-16 | two merges in a row equal one merge of the combined patch, the later one winning; the empty patch changes nothing; a patch applied twice equals it applied once |
| `Shop.SyncFor` | src/main.ts:35-47 | after a bag change exactly one record is saved when a user is signed in and none otherwise; it is the signed-in user with the new bag |
| `Shop.SignInFormFinding` | src/main.ts:453-459 | with the sign-in form open, the intended sign-in changes the state (a user is signed in and the form closes), unlike the listener as written |
| `Shop.Shop.constructor` | src/main.ts:5-13 | the state starts with an empty catalog, tab `Home`, no modal, empty search, no user, no selection, an empty bag |
| `Shop.Shop.SetState` | src/main.ts:15-18 | the new state is the old state merged with the patch |
| `Shop.Shop.AddToBag` | src/main.ts:20-41 | only the bag changes, to the added bag; well-formedness is kept; a signed-in user's record is queued for saving with the new bag |
| `Shop.Shop.RemoveFromBag` | src/main.ts:43-48 | only the bag changes, to the bag without that id; well-formedness is kept; a signed-in user's record is queued for saving with the new bag |
| `Shop.Shop.SignIn` | src/main.ts:50-53 | the bag becomes the user's stored bag and the user is stored without its bag field; nothing else changes |
| `Shop.Shop.SignOut` | src/main.ts:55-58 | the user becomes null and the bag empty; nothing else changes |
| `Shop.Shop.StoreLoaded` | src/main.ts:644 | the fetched catalog replaces `store`; nothing else changes |
| `Shop.Shop.ClickProductImage` | src/main.ts:134-136 | the clicked item becomes the selected item |
| `Shop.Shop.ClickLogo` | src/main.ts:176-178 | tab becomes `Home` and the selection is cleared; nothing else changes |
| `Shop.Shop.ClickTab` | src/main.ts:185-190 | the clicked menu tab is set and the selection is cleared |
| `Shop.Shop.ClickSearchIcon` | src/main.ts:204-206 | the search modal opens |
| `Shop.Shop.ClickProfileIcon` | src/main.ts:210-212 | the profile modal opens if a user is signed in, otherwise the sign-in modal |
| `Shop.Shop.ClickBagIcon` | src/main.ts:219-221 | the bag modal opens |
| `Shop.Shop.ClickAddToBag` | src/main.ts:270-275 | with a selection, the selected id is added to the bag and the selection cleared; without one the state is unchanged |
| `Shop.Shop.ClickClearSearch` | src/main.ts:350-352 | the search text becomes empty |
| `Shop.Shop.SubmitSearch` | src/main.ts:402-405 | the search is set, the modal closes and the selection is cleared |
| `Shop.Shop.SignInSucceeded` | src/main.ts:50-53 | the intended success branch of the sign-in form: the record's bag and user are adopted as `signIn` does, and the modal closes |
| `Shop.Shop.SubmitSignInAsWritten` | src/main.ts:453-459 | as written, a submitted sign-in changes nothing: a rejected reply only alerts, an accepted one makes `signIn` throw before any state update |
| `Shop.Shop.SubmitSignIn` | src/main.ts:453-459 | as intended, an accepted reply signs its record in and closes the form; a rejected one changes nothing |
| `Shop.Shop.ClickSignOut` | src/main.ts:481-484 | signing out clears user and bag and closes the modal |
| `Shop.Shop.ClickBagItemName` | src/main.ts:507-509 | the modal closes and the catalog item with the line's id (or nothing) becomes selected |
| `Shop.Shop.ClickRemove` | src/main.ts:539-542 | the bag line's id is removed from the bag |
| `Shop.Shop.CloseModal` | src/main.ts:613-615 | the modal closes |

## Left out

- DOM construction, CSS classes and the whole re-render (`ProductCard`, `Header*`, `ProductDetails`, `Main`, `Footer`, the modal builders, `Modal`, `render`): view plumbing. Only the product list, the notice and the bag total are modelled, as functions of the state.
- Network I/O: `getStore`, `getUser`, `getSignedInUser`, `serverSignIn` and `init` talk to an HTTP server and are not modelled. The catalog's arrival is `StoreLoaded`. The session restored at start-up (src/main.ts:645) is `SignIn`. The sign-in form's reply is a `SignInReply` parameter of `SubmitSignInAsWritten`/`SubmitSignIn`; the password comparison that produces it and the `alert` are not modelled.
- `updateUser` is not sent anywhere. Each request appears only as an entry of the ghost log `syncs`; its success or failure is not modelled.
- `localStorage` writes in `signIn`/`signOut`: client storage, not modelled.
- Floating-point prices and `toFixed(2)`: prices and totals are integer pence.
- `toLowerCase` lowers ASCII letters only; Unicode case mapping is not modelled.
- `daysSince` takes two integer millisecond timestamps; `Date.now` and `Date.parse` are not modelled.
- The `setTimeout` focus of the search box and the `alert` on a failed sign-in: asynchronous UI effects.
- The `null` member of the state's `modal` type: no code path assigns it, so `Modal` has only the five string values.
- Shop.Shop.SignIn: requires the user to carry a bag. In the source a user without one puts `undefined` into `state.bag`, and the render that `setState` triggers then fails on `state.bag.length`; that failing path is not modelled. The same holds for `Shop.Shop.SignInSucceeded` and for an accepted reply in `Shop.Shop.SubmitSignIn`.
- Catalog.BagModalContents: requires every bag id to be in the catalog; the source dereferences a missing item and throws, and that path is not modelled.
- Shop.Shop.ClickRemove: requires the line's item to be in the catalog, for the same reason.
- Shop.Shop.AddToBag: well-formedness is promised only for a bag that was well formed before; a bag adopted from a user record at sign-in is not checked.

## Findings

| source | as written | input that shows it | evidently intended | confidence | as-written member | corrected member |
|---|---|---|---|---|---|---|
| src/main.ts:456 | `signIn(data.user)` reads `user` from what `serverSignIn` resolves with, but that is the bare user record (src/main.ts:98), so the argument is `undefined`; destructuring it in `signIn` (src/main.ts:50) throws, and `setState({ modal: '' })` never runs | a registered email with its correct password, submitted from the open sign-in form: the state is unchanged and the form stays open | `signIn(data)`: adopt the record's bag and user, then close the form | not executed | `Shop.Shop.SubmitSignInAsWritten`, `Shop.SignInFormFinding` | `Shop.Shop.SubmitSignIn` |
