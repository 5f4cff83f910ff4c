/** The price comparison component's state and handlers: the list of prices,
    the two input fields, adding and removing entries, and the render step
    that computes the best price and sorts the list for display. */
module PriceComparison {
  import opened Products
  import opened PriceLedger

  /** Where `InsertByPrice` puts `x`: right after the last entry not dearer
      than it, when every entry from `j` on is dearer. */
  lemma {:induction false} InsertByPriceAt(s: seq<PriceEntry>, j: int, x: PriceEntry)
    requires 0 <= j <= |s|
    requires j == 0 || s[j - 1].price <= x.price
    requires forall k :: j <= k < |s| ==> s[k].price > x.price
    ensures InsertByPrice(s, x) == s[..j] + [x] + s[j..]
    decreases |s|
  {
    if j == |s| {
      assert s[..j] == s && s[j..] == [];
    } else {
      var init := s[..|s| - 1];
      InsertByPriceAt(init, j, x);
      assert init[..j] == s[..j];
      assert init[j..] + [s[|s| - 1]] == s[j..];
    }
  }

  /** Shifts `a[i]` left past every dearer entry of the sorted prefix `a[..i]`. */
  method InsertIntoPrefix(a: array<PriceEntry>, i: int)
    requires 0 <= i < a.Length
    modifies a
    ensures a[..i + 1] == InsertByPrice(old(a[..i]), old(a[i]))
    ensures forall k :: i < k < a.Length ==> a[k] == old(a[k])
  {
    ghost var sorted := a[..i];
    var x := a[i];
    var j := i;
    while j > 0 && a[j - 1].price > x.price
      invariant 0 <= j <= i
      invariant forall k :: 0 <= k < j ==> a[k] == sorted[k]
      invariant forall k :: j < k <= i ==> a[k] == sorted[k - 1]
      invariant forall k :: i < k < a.Length ==> a[k] == old(a[k])
      invariant forall k :: j <= k < i ==> sorted[k].price > x.price
    {
      a[j] := a[j - 1];
      j := j - 1;
    }
    a[j] := x;
    InsertByPriceAt(sorted, j, x);
    ghost var t := sorted[..j] + [x] + sorted[j..];
    assert a[..i + 1] == t by {
      forall k | 0 <= k <= i ensures a[k] == t[k] {
        if k > j {
          assert t[k] == sorted[j..][k - j - 1];
        }
      }
    }
  }

  /** Sorts `a` by ascending price in place, keeping equal prices in their
      order: the array sort the render applies with comparator
      `a.price - b.price`, which the JavaScript engine performs stably. */
  method SortInPlace(a: array<PriceEntry>)
    modifies a
    ensures a[..] == SortByPrice(old(a[..]))
  {
    ghost var s := a[..];
    var i := 0;
    while i < a.Length
      invariant 0 <= i <= a.Length
      invariant a[..i] == SortByPrice(s[..i])
      invariant forall k :: i <= k < a.Length ==> a[k] == s[k]
    {
      InsertIntoPrefix(a, i);
      assert s[..i + 1][..i] == s[..i];
      i := i + 1;
    }
    assert a[..] == a[..a.Length] && s == s[..a.Length];
  }

  class Ledger {
    var prices: array<PriceEntry>
    var storeName: string
    var priceInput: string

    /** A new component: no prices, both inputs empty. */
    constructor ()
      ensures fresh(prices) && prices.Length == 0
      ensures storeName == "" && priceInput == ""
    {
      prices := new PriceEntry[0];
      storeName := "";
      priceInput := "";
    }

    method SetStoreName(text: string)
      modifies this
      ensures storeName == text
      ensures prices == old(prices) && priceInput == old(priceInput)
    {
      storeName := text;
    }

    method SetPriceInput(text: string)
      modifies this
      ensures priceInput == text
      ensures prices == old(prices) && storeName == old(storeName)
    {
      priceInput := text;
    }

    /** The add button. `id` is the fresh id the component takes from the
        clock and `cents` the value the price input parses to. Either input
        empty: nothing changes. Otherwise a new list holds the old entries
        followed by the new one, and both inputs are cleared. */
    method AddPrice(id: string, cents: int)
      modifies this
      ensures old(storeName) == "" || old(priceInput) == "" ==>
        prices == old(prices) && storeName == old(storeName) && priceInput == old(priceInput)
      ensures old(storeName) != "" && old(priceInput) != "" ==>
        && fresh(prices)
        && prices[..] == old(prices[..]) + [PriceEntry(id, old(storeName), cents)]
        && storeName == "" && priceInput == ""
    {
      if storeName == "" || priceInput == "" {
        return;
      }
      var next := prices[..] + [PriceEntry(id, storeName, cents)];
      prices := new PriceEntry[|next|](i requires 0 <= i < |next| => next[i]);
      storeName := "";
      priceInput := "";
    }

    /** The remove button: a new list without the entries carrying `id`. */
    method RemovePrice(id: string)
      modifies this
      ensures fresh(prices) && prices[..] == WithoutId(old(prices[..]), id)
      ensures storeName == old(storeName) && priceInput == old(priceInput)
    {
      var next := WithoutId(prices[..], id);
      prices := new PriceEntry[|next|](i requires 0 <= i < |next| => next[i]);
    }

    /** One render: the best price of the list as it stands, then the list
        sorted in place for display. The sort reorders the component's own
        list, so later additions are appended to the sorted order. */
    method Render() returns (best: Option<PriceEntry>, shown: seq<PriceEntry>)
      modifies prices
      ensures best == BestPrice(old(prices[..]))
      ensures prices[..] == SortByPrice(old(prices[..])) && shown == prices[..]
      ensures best == BestPrice(shown)
    {
      best := BestPrice(prices[..]);
      SortInPlace(prices);
      shown := prices[..];
      BestPriceUnchangedBySort(old(prices[..]));
    }
  }
}
