# Accessible product reader: product state model

A Dafny model of the client-side product state of an accessible barcode
reader web app. Users scan a product barcode. The app looks the code up in a
public food-product database and shows the product. It keeps favourites and a
scan history in the browser's key-value storage. A separate tool lets users
compare one product's price across stores. The model covers three parts:

- **The product store** (`src/hooks/useProductStorage.ts`), in modules
  `ProductLists` (the pure list expressions) and `ProductStorage` (the class
  `ProductStore` with its `favorites` and `history` fields, plus the key-value
  storage `LocalStorage` it writes through to).
  - Favourites are unique by code. Adding a product drops any entry with its
    code and appends the product.
  - History puts the newest entry first, keeps one entry per code and holds at
    most 50 entries.
  - Every change writes the new list under `"favorites"` or `"history"`.
    Clearing the history deletes its key.
  - `ProductStore.Synced()` states the write-through invariant: the lists in
    memory are always exactly what a fresh load would find.
- **The price comparison ledger** (`src/components/PriceComparison.tsx`), in
  modules `PriceLedger` (values, best price, display order) and
  `PriceComparison` (the component state as class `Ledger`).
  - Adding is refused when either input field is empty.
  - Removing deletes every entry with the id.
  - The best price is the left-to-right strict-`<` reduce, so the earliest of
    the cheapest entries wins.
  - The render sorts the component's own price array in place by ascending
    price. `SortByPrice` is a stable insertion sort that serves as the
    reference definition. Lemmas prove it is sorted, a permutation, and stable:
    for every price, the entries at that price keep their order.
    `SortInPlace` is proved to compute it on the array.
  - Because the sort is stable, sorting never changes which entry is the best
    price (`BestPriceUnchangedBySort`).
- **The page controller** (`src/pages/Index.tsx`), module `IndexPage`, class
  `App`. Its state is the displayed product, the scanning flag and the
  current view (scanner, favorites, history, compare). The handlers are scan,
  reset, toggle-favourite, select and navigate, and they call the store's
  methods. The display rule is `CurrentScreen`.

Prices are integer cents. A product record carries an optional `scannedAt`.
The source types a history entry as a product plus `scannedAt`. Structural
typing lets such an entry become the displayed product and then a favourite,
timestamp included, so one record type covers both.

In four places the code does something a reader might not expect; the model follows the code:

- **Stored data.** Stored lists are loaded with an unguarded `JSON.parse`
  (`useProductStorage.ts:36,40`), so malformed data would throw, not load as
  empty. The model holds stored values already decoded and does not model a
  fail-open load.
- **Lookup failures.** A "not found" answer and a failed request end in the
  same `catch` block with the same message (`Index.tsx:40-73`). The model
  treats them alike (`Lookup.NotFound`, `Lookup.Failed`).
- **Price validation.** The code refuses only empty input strings
  (`PriceComparison.tsx:21`). A negative price is accepted, so `PriceEntry.price`
  is any integer.
- **Display sort.** The sort reorders the ledger's own state array, not a copy
  (`PriceComparison.tsx:136`). `Ledger.Render` models that mutation: entries
  added later are appended after the sorted order.

## Model

| member | source | states |
|---|---|---|
| `ProductLists.WithoutCode` | src/hooks/useProductStorage.ts:51 | the filter drops exactly the entries with the code: none remains, an entry is kept iff its code differs, and a list without the code is returned unchanged |
| `ProductLists.WithoutCodeConcat` | src/hooks/useProductStorage.ts:51 | filtering by code distributes over concatenation, so the kept entries stay in their relative order |
| `ProductLists.WithoutCodeKeepsUnique` | src/hooks/useProductStorage.ts:51 | removing a code from a list with unique codes leaves the codes unique |
| `ProductLists.ContainsCode` | src/hooks/useProductStorage.ts:56-58 | `some(p => p.code === code)` holds iff some index carries the code |
| `ProductLists.WithFavorite` | src/hooks/useProductStorage.ts:45 | after adding `p`, `p` is the last entry and no earlier entry has `p`'s code, so exactly one entry has it |
| `ProductLists.AddFavoriteKeepsOthers` | src/hooks/useProductStorage.ts:45 | every favourite with another code survives, in its original relative order |
| `ProductLists.AddFavoriteKeepsUnique` | src/hooks/useProductStorage.ts:45 | adding a favourite keeps codes unique |
| `ProductLists.AddFavoriteReplaces` | src/hooks/useProductStorage.ts:45 | adding two records with one code in a row equals adding only the second, so adding the same product twice equals adding it once |
| `ProductLists.AddThenRemoveFavorite` | src/hooks/useProductStorage.ts:44-54 | adding an absent code and then removing it restores the favourites exactly |
| `ProductLists.Toggle` | src/pages/Index.tsx:87-91 | the favourite button flips whether the product's code is a favourite |
| `ProductLists.ToggleTwice` | src/pages/Index.tsx:85-93 | two toggles restore the code's membership, and restore the whole list when the code was absent |
| `ProductLists.WithHistoryEntry` | src/hooks/useProductStorage.ts:60-66 | the new entry is first, no later entry has its code, there are at most 50 entries, the rest is a prefix of the old history without that code, and nothing is cut while under 50 |
| `ProductLists.AddHistoryKeepsUnique` | src/hooks/useProductStorage.ts:66 | history codes that were pairwise distinct stay pairwise distinct |
| `ProductLists.AddHistoryEvictsOldest` | src/hooks/useProductStorage.ts:66 | a new code scanned into a full history of 50 distinct codes evicts exactly the oldest entry |
| `ProductLists.HistoryWithoutNewest` | src/hooks/useProductStorage.ts:66 | filtering a fresh history by the newest code leaves exactly its tail |
| `ProductLists.AddHistoryReplaces` | src/hooks/useProductStorage.ts:60-66 | re-scanning a code gives the history a single scan would give, so the code appears once, first, with the later timestamp |
| `ProductStorage.LocalStorage.constructor` | src/hooks/useProductStorage.ts:32-33 | the storage starts with the given key-value contents |
| `ProductStorage.LocalStorage.SetItem` | src/hooks/useProductStorage.ts:47 | writing a key replaces that key's value and leaves the other keys as they were |
| `ProductStorage.LocalStorage.RemoveItem` | src/hooks/useProductStorage.ts:73 | removing a key deletes it and leaves the other keys as they were |
| `ProductStorage.ProductStore.Load` | src/hooks/useProductStorage.ts:27-42 | an absent key leaves its list empty, a present key sets the list to the stored value, and the store starts in sync with the storage |
| `ProductStorage.ProductStore.IsFavorite` | src/hooks/useProductStorage.ts:56-58 | true iff some favourite has the code |
| `ProductStorage.ProductStore.AddToFavorites` | src/hooks/useProductStorage.ts:44-48 | favourites become `WithFavorite` of the old list, the code is then a favourite, history is untouched, `"favorites"` stores the new list and the store stays in sync |
| `ProductStorage.ProductStore.RemoveFromFavorites` | src/hooks/useProductStorage.ts:50-54 | favourites become the old list without the code, the code is then not a favourite, history is untouched, `"favorites"` stores the new list |
| `ProductStorage.ProductStore.AddToHistory` | src/hooks/useProductStorage.ts:60-69 | history becomes `WithHistoryEntry` of the old history with the product stamped at `now`, favourites are untouched, `"history"` stores the new list |
| `ProductStorage.ProductStore.ClearHistory` | src/hooks/useProductStorage.ts:71-74 | history becomes empty and the `"history"` key is deleted, not set to an empty list; favourites and other keys are untouched |
| `PriceLedger.WithoutId` | src/components/PriceComparison.tsx:40 | after removal no entry has the id, an entry is kept iff its id differs, and an unknown id leaves the ledger unchanged |
| `PriceLedger.WithoutIdConcat` | src/components/PriceComparison.tsx:40 | removal by id distributes over concatenation, so remaining entries keep their order |
| `PriceLedger.BestPrice` | src/components/PriceComparison.tsx:53-55 | the best price is null iff the ledger is empty |
| `PriceLedger.MinByPriceFindsFirstMinimum` | src/components/PriceComparison.tsx:54 | continuing the reduce from the first minimum of a prefix yields the first minimum of the whole ledger |
| `PriceLedger.BestPriceIsFirstMinimum` | src/components/PriceComparison.tsx:53-55 | a non-empty ledger's best price is one of its entries, no entry is cheaper, and it is the earliest entry at the minimum price |
| `PriceLedger.InsertByPricePermutes` | src/components/PriceComparison.tsx:136 | one insertion step adds exactly the inserted entry |
| `PriceLedger.SortByPrice` | src/components/PriceComparison.tsx:136 | the display order is a permutation of the ledger |
| `PriceLedger.WithPrice` | src/components/PriceComparison.tsx:136 | the entries at a given price are exactly the ledger's entries with that price |
| `PriceLedger.InsertByPriceSorted` | src/components/PriceComparison.tsx:136 | inserting into an ascending list keeps it ascending |
| `PriceLedger.SortByPriceSorted` | src/components/PriceComparison.tsx:136 | the display order is non-decreasing by price |
| `PriceLedger.WithPriceSnoc` | src/components/PriceComparison.tsx:136 | selecting a price distributes over appending one entry |
| `PriceLedger.InsertByPriceStable` | src/components/PriceComparison.tsx:136 | an insertion step puts the new entry after every entry of equal price |
| `PriceLedger.SortByPriceStable` | src/components/PriceComparison.tsx:136 | the sort is stable: for every price, the entries at that price appear in the same order as in the ledger |
| `PriceLedger.FirstWithPrice` | src/components/PriceComparison.tsx:136 | the first entry at a price heads the entries selected at that price |
| `PriceLedger.BestPriceUnchangedBySort` | src/components/PriceComparison.tsx:53-55 | sorting the ledger for display does not change its best price |
| `PriceLedger.TiedLedgerBestPrice` | src/components/PriceComparison.tsx:53-55 | for stores priced 10.00, 9.50, 9.50 in that order, the best price is the first 9.50 entry |
| `PriceLedger.SortTwoDescending` | src/components/PriceComparison.tsx:136 | two entries in descending price are swapped by the sort |
| `PriceLedger.TiedLedgerDisplayOrder` | src/components/PriceComparison.tsx:136 | stores A 10.00, B 9.50, C 9.50 are displayed B, C, A |
| `PriceComparison.InsertByPriceAt` | src/components/PriceComparison.tsx:136 | the insertion step places the new entry right after the last entry not dearer than it, when every later entry is dearer |
| `PriceComparison.InsertIntoPrefix` | src/components/PriceComparison.tsx:136 | shifting the next entry left in place yields the insertion step on the sorted prefix and leaves the rest of the array alone |
| `PriceComparison.SortInPlace` | src/components/PriceComparison.tsx:136 | the in-place array sort leaves the array equal to `SortByPrice` of its old contents |
| `PriceComparison.Ledger.constructor` | src/components/PriceComparison.tsx:15-17 | the component starts with no prices and both inputs empty |
| `PriceComparison.Ledger.SetStoreName` | src/components/PriceComparison.tsx:77 | typing sets the store-name input and nothing else |
| `PriceComparison.Ledger.SetPriceInput` | src/components/PriceComparison.tsx:96 | typing sets the price input and nothing else |
| `PriceComparison.Ledger.AddPrice` | src/components/PriceComparison.tsx:20-36 | with either input empty nothing changes; otherwise a new list holds the old entries followed by exactly one entry with the typed name and price, and both inputs are cleared |
| `PriceComparison.Ledger.RemovePrice` | src/components/PriceComparison.tsx:38-44 | a new list holds the old entries without the id, in order, and the inputs are untouched |
| `PriceComparison.Ledger.Render` | src/components/PriceComparison.tsx:53-55 | the best price is computed from the list as it stands, the list is then sorted in place into `SortByPrice` order, and the best price is the same for the shown order |
| `IndexPage.App.constructor` | src/pages/Index.tsx:25-29 | the page starts with no product, not scanning, in the scanner view, with the store loaded and in sync |
| `IndexPage.App.CurrentScreen` | src/pages/Index.tsx:122-153 | in the scanner view the scanner is shown iff no product is displayed, otherwise the product with its favourite state; the other views show their own content |
| `IndexPage.App.BeginScan` | src/pages/Index.tsx:33 | a scan sets the scanning flag before the lookup and changes nothing else |
| `IndexPage.App.FinishScan` | src/pages/Index.tsx:40-76 | a found answer displays a record whose code is the barcode and puts it first in the history; any other answer leaves the product, the history and the storage unchanged; scanning stops on every outcome |
| `IndexPage.App.HandleScan` | src/pages/Index.tsx:32-77 | a whole scan: the found and not-found outcomes as above, favourites untouched, the view kept, and the flag false at the end |
| `IndexPage.App.HandleReset` | src/pages/Index.tsx:79-83 | from any state, the product becomes none and the view becomes scanner, so the scanner is shown |
| `IndexPage.App.HandleToggleFavorite` | src/pages/Index.tsx:85-93 | without a product nothing changes; otherwise favourites become `Toggle` of the old list, which flips whether the code is a favourite; history is untouched |
| `IndexPage.App.HandleSelectProduct` | src/pages/Index.tsx:95-98 | the selected record is displayed as stored in the scanner view, with no lookup and no history change |
| `IndexPage.App.Navigate` | src/pages/Index.tsx:158 | navigation sets the view; the product, the scanning flag, favourites and history are untouched (the compare view's ledger is not part of `App`) |

## Left out

- The request to the product database and `response.json()` (`src/pages/Index.tsx:37-38`) are external I/O. The scan takes the lookup answer as a `Lookup` parameter.
- JSON encoding and decoding of stored lists (`src/hooks/useProductStorage.ts:36,40,47,68`) are not modelled. Storage holds decoded lists, and a malformed stored value, which would throw in the source, is not modelled.
- Storage write failures (quota exceeded) are browser behaviour and are not modelled. Every write succeeds.
- `Date.now()` ids, `new Date().toISOString()` timestamps and `parseFloat` are runtime services. They are parameters (`id`, `now`, `cents`).
- PriceComparison.Ledger.AddPrice: takes the parsed price in integer cents, so floating-point prices, `NaN` and `parseFloat` of non-numeric text are not modelled.
- Speech, tones and `speechSynthesis.cancel` (`useAudioFeedback.ts`, `AccessibleButton.tsx`, all `speak` calls, `src/pages/Index.tsx:82`), toasts, and `Intl.NumberFormat`/`toLocaleString` formatting are browser output. Nothing is announced or formatted.
- The random demo barcode and timers in `BarcodeScanner.tsx` are nondeterministic. A scan takes its barcode as a parameter.
- The rendering components (`Navigation.tsx`, `FavoritesList.tsx`, `HistoryList.tsx`, `ProductInfo.tsx`) are presentation only. `CurrentScreen` states only which content the main area shows.
- IndexPage.App.HandleScan: is one atomic step. The source awaits the lookup between `BeginScan` and `FinishScan`, so a reset or navigation can run in between and a late result is still applied. The model makes no claim about such interleavings.
- React's render cycle is not modelled: state updates take effect at once, not batched, and there is no first render before the load effect runs.
- `handleSelectProduct` accepts any value. The model takes a `Product`.
- The price ledger exists only while the compare view is shown (`src/pages/Index.tsx:151-153`): navigating away unmounts it and discards its entries and inputs. `App` holds no `Ledger`, and `Navigate` makes no claim about the ledger's lifetime.
