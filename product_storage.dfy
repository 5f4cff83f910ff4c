/** The persistent product store: the favourites and the scan history, each
    written through to the browser's key-value storage under its own key. */
module ProductStorage {
  import opened Products
  import opened ProductLists

  const FavoritesKey := "favorites"
  const HistoryKey := "history"

  /** The browser's key-value storage. Values are held already decoded: the
      JSON text and its parsing are not part of this model. */
  class LocalStorage {
    var items: map<string, seq<Product>>

    constructor (items: map<string, seq<Product>>)
      ensures this.items == items
    {
      this.items := items;
    }

    method SetItem(key: string, value: seq<Product>)
      modifies this
      ensures items == old(items)[key := value]
    {
      items := items[key := value];
    }

    method RemoveItem(key: string)
      modifies this
      ensures items == old(items) - {key}
    {
      items := items - {key};
    }
  }

  /** The list a load finds under `key`: the stored list, or none at all when
      the key is absent. */
  function Loaded(items: map<string, seq<Product>>, key: string): seq<Product> {
    if key in items then items[key] else []
  }

  class ProductStore {
    var favorites: seq<Product>
    var history: seq<Product>
    const storage: LocalStorage

    /** Write-through: the lists in memory are exactly what loading the
        storage afresh would give. */
    ghost predicate Synced()
      reads this, storage
    {
      && favorites == Loaded(storage.items, FavoritesKey)
      && history == Loaded(storage.items, HistoryKey)
    }

    /** Mounting the store: both lists start empty and each is replaced by
        its stored value when the key is present. Nothing is written. */
    constructor Load(storage: LocalStorage)
      ensures this.storage == storage
      ensures favorites == (if FavoritesKey in storage.items then storage.items[FavoritesKey] else [])
      ensures history == (if HistoryKey in storage.items then storage.items[HistoryKey] else [])
      ensures Synced()
    {
      this.storage := storage;
      var favs: seq<Product> := [];
      var hist: seq<Product> := [];
      if FavoritesKey in storage.items {
        favs := storage.items[FavoritesKey];
      }
      if HistoryKey in storage.items {
        hist := storage.items[HistoryKey];
      }
      favorites := favs;
      history := hist;
    }

    /** Whether some favourite has `code`. */
    function IsFavorite(code: string): (b: bool)
      reads this
      ensures b <==> exists i :: 0 <= i < |favorites| && favorites[i].code == code
    {
      ContainsCode(favorites, code)
    }

    method AddToFavorites(p: Product)
      requires Synced()
      modifies this, storage
      ensures Synced()
      ensures favorites == WithFavorite(old(favorites), p) && history == old(history)
      ensures storage.items == old(storage.items)[FavoritesKey := favorites]
      ensures IsFavorite(p.code)
    {
      var updated := WithFavorite(favorites, p);
      favorites := updated;
      storage.SetItem(FavoritesKey, updated);
    }

    method RemoveFromFavorites(code: string)
      requires Synced()
      modifies this, storage
      ensures Synced()
      ensures favorites == WithoutCode(old(favorites), code) && history == old(history)
      ensures storage.items == old(storage.items)[FavoritesKey := favorites]
      ensures !IsFavorite(code)
    {
      var updated := WithoutCode(favorites, code);
      favorites := updated;
      storage.SetItem(FavoritesKey, updated);
    }

    /** Records `p`, stamped with the time `now`, as the newest history entry. */
    method AddToHistory(p: Product, now: string)
      requires Synced()
      modifies this, storage
      ensures Synced()
      ensures history == WithHistoryEntry(old(history), Stamp(p, now)) && favorites == old(favorites)
      ensures storage.items == old(storage.items)[HistoryKey := history]
    {
      var updated := WithHistoryEntry(history, Stamp(p, now));
      history := updated;
      storage.SetItem(HistoryKey, updated);
    }

    /** Empties the history and deletes its key instead of storing an empty list. */
    method ClearHistory()
      requires Synced()
      modifies this, storage
      ensures Synced()
      ensures history == [] && favorites == old(favorites)
      ensures storage.items == old(storage.items) - {HistoryKey}
    {
      history := [];
      storage.RemoveItem(HistoryKey);
    }
  }

  /** Clearing the history and loading the store again finds no history,
      while the favourites survive the reload. */
  method ClearThenReload(storage: LocalStorage)
    modifies storage
  {
    var store := new ProductStore.Load(storage);
    var favs := store.favorites;
    store.ClearHistory();
    var reloaded := new ProductStore.Load(storage);
    assert reloaded.history == [];
    assert reloaded.favorites == favs;
  }
}
