/** The page controller: the displayed product, the scanning flag and the
    current view, with the handlers that change them and drive the product
    store. The product database is not called: a scan is given its answer. */
module IndexPage {
  import opened Products
  import opened ProductLists
  import opened ProductStorage

  datatype View = Scanner | Favorites | History | Compare

  /** What a lookup of a barcode came back with: a product the database
      knows (`status` 1), an answer with any other status, or a request that
      failed. The page treats the last two alike. */
  datatype Lookup = Found(fields: ProductFields) | NotFound | Failed

  /** What the main area of the page shows. */
  datatype Screen =
    | ScannerScreen(isScanning: bool)
    | ProductScreen(product: Product, isFavorite: bool)
    | FavoritesScreen(favorites: seq<Product>)
    | HistoryScreen(history: seq<Product>)
    | CompareScreen

  /** The record a found lookup becomes: the scanned barcode is its code. */
  function ProductFromLookup(barcode: string, f: ProductFields): Product {
    Product(barcode, f.productName, f.brands, f.categories,
            f.ingredientsText, f.quantity, f.nutriscoreGrade, f.imageUrl, None)
  }

  class App {
    var product: Option<Product>
    var isScanning: bool
    var currentView: View
    const store: ProductStore

    ghost predicate Valid()
      reads this, store, store.storage
    {
      store.Synced()
    }

    /** Opening the page: nothing displayed, not scanning, the scanner view,
        and the store loaded from `storage`. */
    constructor (storage: LocalStorage)
      ensures Valid() && fresh(store) && store.storage == storage
      ensures product == None && !isScanning && currentView == Scanner
      ensures store.favorites == Loaded(storage.items, FavoritesKey)
      ensures store.history == Loaded(storage.items, HistoryKey)
    {
      product := None;
      isScanning := false;
      currentView := Scanner;
      store := new ProductStore.Load(storage);
    }

    /** The display rule: the scanner view shows the scanner exactly when no
        product is displayed and the product otherwise; the other views show
        their lists or the price comparison whatever the product. */
    function CurrentScreen(): (s: Screen)
      reads this, store
      ensures s.ScannerScreen? <==> currentView == Scanner && product.None?
      ensures s.ProductScreen? <==> currentView == Scanner && product.Some?
      ensures s.ScannerScreen? ==> s.isScanning == isScanning
      ensures s.ProductScreen? ==> s.product == product.value && s.isFavorite == store.IsFavorite(product.value.code)
      ensures s.FavoritesScreen? <==> currentView == Favorites
      ensures s.HistoryScreen? <==> currentView == History
    {
      match currentView
      case Scanner =>
        if product.None? then ScannerScreen(isScanning)
        else ProductScreen(product.value, store.IsFavorite(product.value.code))
      case Favorites => FavoritesScreen(store.favorites)
      case History => HistoryScreen(store.history)
      case Compare => CompareScreen
    }

    /** The start of a scan, before the lookup is awaited. */
    method BeginScan()
      modifies this
      ensures isScanning
      ensures product == old(product) && currentView == old(currentView)
    {
      isScanning := true;
    }

    /** The end of a scan, once the lookup has answered; `now` is the time
        stamped on the history entry. A found product is displayed and
        recorded first in the history; any other answer changes neither.
        Either way scanning stops. */
    method FinishScan(barcode: string, answer: Lookup, now: string)
      requires Valid()
      modifies this, store, store.storage
      ensures Valid() && !isScanning && currentView == old(currentView)
      ensures store.favorites == old(store.favorites)
      ensures answer.Found? ==>
        && product == Some(ProductFromLookup(barcode, answer.fields))
        && product.value.code == barcode
        && store.history == WithHistoryEntry(old(store.history), Stamp(product.value, now))
        && store.history[0].code == barcode
        && store.storage.items == old(store.storage.items)[HistoryKey := store.history]
      ensures !answer.Found? ==>
        && product == old(product)
        && store.history == old(store.history)
        && store.storage.items == old(store.storage.items)
    {
      if answer.Found? {
        var p := ProductFromLookup(barcode, answer.fields);
        product := Some(p);
        store.AddToHistory(p, now);
      }
      isScanning := false;
    }

    /** A whole scan, taken as one step: scanning starts, the answer is
        applied, scanning stops. */
    method HandleScan(barcode: string, answer: Lookup, now: string)
      requires Valid()
      modifies this, store, store.storage
      ensures Valid() && !isScanning && currentView == old(currentView)
      ensures store.favorites == old(store.favorites)
      ensures answer.Found? ==>
        && product == Some(ProductFromLookup(barcode, answer.fields))
        && store.history == WithHistoryEntry(old(store.history), Stamp(product.value, now))
        && store.history[0].code == barcode
        && store.storage.items == old(store.storage.items)[HistoryKey := store.history]
      ensures !answer.Found? ==>
        && product == old(product)
        && store.history == old(store.history)
        && store.storage.items == old(store.storage.items)
    {
      BeginScan();
      FinishScan(barcode, answer, now);
    }

    /** Back to the scanner from any state: no product, the scanner view. */
    method HandleReset()
      modifies this
      ensures product == None && currentView == Scanner && isScanning == old(isScanning)
      ensures CurrentScreen() == ScannerScreen(isScanning)
    {
      product := None;
      currentView := Scanner;
    }

    /** The favourite button: nothing without a displayed product; otherwise
        the displayed product's code leaves the favourites if it was there
        and the product joins them if not. */
    method HandleToggleFavorite()
      requires Valid()
      modifies store, store.storage
      ensures Valid() && store.history == old(store.history)
      ensures product.None? ==>
        store.favorites == old(store.favorites) && store.storage.items == old(store.storage.items)
      ensures product.Some? ==>
        && store.favorites == Toggle(old(store.favorites), product.value)
        && store.IsFavorite(product.value.code) == !old(store.IsFavorite(product.value.code))
        && store.storage.items == old(store.storage.items)[FavoritesKey := store.favorites]
    {
      if product.Some? {
        var p := product.value;
        if store.IsFavorite(p.code) {
          store.RemoveFromFavorites(p.code);
        } else {
          store.AddToFavorites(p);
        }
      }
    }

    /** Choosing an entry from the favourites or the history: it is displayed
        as stored, without a lookup, in the scanner view. */
    method HandleSelectProduct(selected: Product)
      modifies this
      ensures product == Some(selected) && currentView == Scanner && isScanning == old(isScanning)
      ensures CurrentScreen() == ProductScreen(selected, store.IsFavorite(selected.code))
    {
      product := Some(selected);
      currentView := Scanner;
    }

    /** The navigation bar: of the page's own state only the view changes.
        The price ledger, mounted only in the compare view, is not held here. */
    method Navigate(view: View)
      modifies this
      ensures currentView == view
      ensures product == old(product) && isScanning == old(isScanning)
    {
      currentView := view;
    }
  }

  /** Pressing the favourite button twice restores whether the displayed
      product is a favourite, and restores the list itself when it was not
      one. */
  method ToggleFavoriteTwice(app: App)
    requires app.Valid() && app.product.Some?
    modifies app.store, app.store.storage
  {
    var p := app.product.value;
    var before := app.store.favorites;
    var was := app.store.IsFavorite(p.code);
    app.HandleToggleFavorite();
    app.HandleToggleFavorite();
    assert app.store.IsFavorite(p.code) == was;
    ProductLists.ToggleTwice(before, p);
    assert !was ==> app.store.favorites == before;
  }
}
