/** The price comparison ledger as values: entries, removal by id, the best
    (lowest) price, and the ascending order the list is displayed in. */
module PriceLedger {
  import opened Products

  /** One store's price for the product; `price` is in integer cents. */
  datatype PriceEntry = PriceEntry(id: string, storeName: string, price: int)

  /** The entries whose id is not `id`, in their original order. */
  function WithoutId(s: seq<PriceEntry>, id: string): (r: seq<PriceEntry>)
    ensures forall i :: 0 <= i < |r| ==> r[i].id != id
    ensures forall x :: x in r <==> x in s && x.id != id
    ensures (forall i :: 0 <= i < |s| ==> s[i].id != id) ==> r == s
  {
    if s == [] then []
    else if s[0].id == id then WithoutId(s[1..], id)
    else [s[0]] + WithoutId(s[1..], id)
  }

  /** Removing by id keeps relative order: it distributes over concatenation. */
  lemma {:induction false} WithoutIdConcat(a: seq<PriceEntry>, b: seq<PriceEntry>, id: string)
    ensures WithoutId(a + b, id) == WithoutId(a, id) + WithoutId(b, id)
  {
    if a != [] {
      assert (a + b)[0] == a[0];
      assert (a + b)[1..] == a[1..] + b;
      WithoutIdConcat(a[1..], b, id);
    } else {
      assert a + b == b;
    }
  }

  /** The running minimum of the reduce: a later entry replaces the current
      one only when its price is strictly lower. */
  function MinByPrice(current: PriceEntry, rest: seq<PriceEntry>): PriceEntry
    decreases rest
  {
    if rest == [] then current
    else MinByPrice(if rest[0].price < current.price then rest[0] else current, rest[1..])
  }

  /** The best price: none for an empty ledger, otherwise the reduce over the
      entries starting from the first. */
  function BestPrice(s: seq<PriceEntry>): (r: Option<PriceEntry>)
    ensures r.None? <==> s == []
  {
    if s == [] then None else Some(MinByPrice(s[0], s[1..]))
  }

  /** `s[k]` has the lowest price in `s` and every entry before it is dearer. */
  ghost predicate IsFirstMinimum(s: seq<PriceEntry>, k: int) {
    && 0 <= k < |s|
    && (forall j :: 0 <= j < |s| ==> s[k].price <= s[j].price)
    && (forall j :: 0 <= j < k ==> s[j].price > s[k].price)
  }

  lemma {:induction false} MinByPriceFindsFirstMinimum(s: seq<PriceEntry>, i: nat, k: nat)
    requires k < i <= |s|
    requires IsFirstMinimum(s[..i], k)
    ensures exists m :: IsFirstMinimum(s, m) && MinByPrice(s[k], s[i..]) == s[m]
    decreases |s| - i
  {
    if i == |s| {
      assert s[..i] == s;
      assert s[i..] == [];
    } else {
      assert s[i..][0] == s[i];
      assert s[i..][1..] == s[i + 1..];
      var prefix := s[..i + 1];
      assert forall j :: 0 <= j < i ==> prefix[j] == s[..i][j];
      if s[i].price < s[k].price {
        assert IsFirstMinimum(prefix, i);
        MinByPriceFindsFirstMinimum(s, i + 1, i);
      } else {
        assert IsFirstMinimum(prefix, k);
        MinByPriceFindsFirstMinimum(s, i + 1, k);
      }
    }
  }

  /** A non-empty ledger's best price is one of its entries, no entry is
      cheaper, and on a tie it is the earliest of the cheapest. */
  lemma BestPriceIsFirstMinimum(s: seq<PriceEntry>)
    requires s != []
    ensures exists k :: IsFirstMinimum(s, k) && BestPrice(s) == Some(s[k])
    ensures BestPrice(s).value in s
    ensures forall j :: 0 <= j < |s| ==> BestPrice(s).value.price <= s[j].price
  {
    assert IsFirstMinimum(s[..1], 0);
    MinByPriceFindsFirstMinimum(s, 1, 0);
  }


  /** Entries in ascending price order. */
  ghost predicate SortedByPrice(s: seq<PriceEntry>) {
    forall i, j :: 0 <= i < j < |s| ==> s[i].price <= s[j].price
  }

  /** `x` placed after every entry at or below its price, scanning from the
      end of `s`: one step of a stable insertion sort. */
  function InsertByPrice(s: seq<PriceEntry>, x: PriceEntry): seq<PriceEntry> {
    if s == [] || s[|s| - 1].price <= x.price then s + [x]
    else InsertByPrice(s[..|s| - 1], x) + [s[|s| - 1]]
  }

  /** Inserting adds exactly `x`. */
  lemma {:induction false} InsertByPricePermutes(s: seq<PriceEntry>, x: PriceEntry)
    ensures multiset(InsertByPrice(s, x)) == multiset(s) + multiset{x}
  {
    if !(s == [] || s[|s| - 1].price <= x.price) {
      assert s == s[..|s| - 1] + [s[|s| - 1]];
      InsertByPricePermutes(s[..|s| - 1], x);
    }
  }

  /** The display order: the entries sorted by ascending price with equal
      prices kept in ledger order. */
  function SortByPrice(s: seq<PriceEntry>): (r: seq<PriceEntry>)
    ensures multiset(r) == multiset(s)
  {
    if s == [] then []
    else
      assert s == s[..|s| - 1] + [s[|s| - 1]];
      InsertByPricePermutes(SortByPrice(s[..|s| - 1]), s[|s| - 1]);
      InsertByPrice(SortByPrice(s[..|s| - 1]), s[|s| - 1])
  }

  /** The entries of `s` priced exactly `v`, in order. */
  function WithPrice(s: seq<PriceEntry>, v: int): (r: seq<PriceEntry>)
    ensures forall x :: x in r <==> x in s && x.price == v
  {
    if s == [] then []
    else
      assert s == s[..|s| - 1] + [s[|s| - 1]];
      WithPrice(s[..|s| - 1], v) + (if s[|s| - 1].price == v then [s[|s| - 1]] else [])
  }

  lemma {:induction false} InsertByPriceSorted(s: seq<PriceEntry>, x: PriceEntry)
    requires SortedByPrice(s)
    ensures SortedByPrice(InsertByPrice(s, x))
  {
    if !(s == [] || s[|s| - 1].price <= x.price) {
      var init, last := s[..|s| - 1], s[|s| - 1];
      assert SortedByPrice(init);
      InsertByPriceSorted(init, x);
      var front := InsertByPrice(init, x);
      InsertByPricePermutes(init, x);
      forall y | y in front ensures y.price <= last.price {
        assert y in multiset(front);
        if y != x {
          assert y in init;
        }
      }
      var r := front + [last];
      forall i, j | 0 <= i < j < |r| ensures r[i].price <= r[j].price {
        if j == |r| - 1 {
          assert r[i] in front;
        } else {
          assert r[i] == front[i] && r[j] == front[j];
        }
      }
    }
  }

  /** The display order is ascending by price. */
  lemma {:induction false} SortByPriceSorted(s: seq<PriceEntry>)
    ensures SortedByPrice(SortByPrice(s))
  {
    if s != [] {
      SortByPriceSorted(s[..|s| - 1]);
      InsertByPriceSorted(SortByPrice(s[..|s| - 1]), s[|s| - 1]);
    }
  }

  lemma WithPriceSnoc(s: seq<PriceEntry>, y: PriceEntry, v: int)
    ensures WithPrice(s + [y], v) == WithPrice(s, v) + (if y.price == v then [y] else [])
  {
    assert (s + [y])[..|s|] == s;
  }

  lemma {:induction false} InsertByPriceStable(s: seq<PriceEntry>, x: PriceEntry, v: int)
    ensures WithPrice(InsertByPrice(s, x), v) == WithPrice(s, v) + (if x.price == v then [x] else [])
  {
    if s == [] || s[|s| - 1].price <= x.price {
      WithPriceSnoc(s, x, v);
    } else {
      var init, last := s[..|s| - 1], s[|s| - 1];
      var front := InsertByPrice(init, x);
      assert InsertByPrice(s, x) == front + [last];
      assert s == init + [last];
      WithPriceSnoc(front, last, v);
      WithPriceSnoc(init, last, v);
      InsertByPriceStable(init, x, v);
    }
  }

  /** The sort is stable: for every price, the entries at that price appear
      in the display order exactly as they appear in the ledger. */
  lemma {:induction false} SortByPriceStable(s: seq<PriceEntry>, v: int)
    ensures WithPrice(SortByPrice(s), v) == WithPrice(s, v)
  {
    if s != [] {
      SortByPriceStable(s[..|s| - 1], v);
      InsertByPriceStable(SortByPrice(s[..|s| - 1]), s[|s| - 1], v);
    }
  }

  /** The first entry at price `v` heads the entries priced `v`. */
  lemma {:induction false} FirstWithPrice(s: seq<PriceEntry>, k: int, v: int)
    requires 0 <= k < |s| && s[k].price == v
    requires forall j :: 0 <= j < k ==> s[j].price != v
    ensures WithPrice(s, v) != [] && WithPrice(s, v)[0] == s[k]
  {
    var init := s[..|s| - 1];
    if k < |s| - 1 {
      FirstWithPrice(init, k, v);
    }
  }

  /** Sorting the ledger for display does not change its best price: the
      stable sort keeps the earliest of the cheapest entries ahead of the
      others at that price. */
  lemma BestPriceUnchangedBySort(s: seq<PriceEntry>)
    ensures BestPrice(SortByPrice(s)) == BestPrice(s)
  {
    var t := SortByPrice(s);
    if s != [] {
      assert |t| > 0 by {
        assert s[0] in multiset(s);
      }
      BestPriceIsFirstMinimum(s);
      BestPriceIsFirstMinimum(t);
      var k :| IsFirstMinimum(s, k) && BestPrice(s) == Some(s[k]);
      var m :| IsFirstMinimum(t, m) && BestPrice(t) == Some(t[m]);
      assert s[k] in multiset(t);
      var a :| 0 <= a < |t| && t[a] == s[k];
      assert t[m] in multiset(s);
      var b :| 0 <= b < |s| && s[b] == t[m];
      assert t[m].price == s[k].price;
      FirstWithPrice(s, k, s[k].price);
      FirstWithPrice(t, m, s[k].price);
      SortByPriceStable(s, s[k].price);
    }
  }

  /** Three stores priced 10.00, 9.50 and 9.50, added in that order: the
      first of the tied pair is the best price. */
  lemma TiedLedgerBestPrice(a: PriceEntry, b: PriceEntry, c: PriceEntry)
    requires a.price == 1000 && b.price == 950 && c.price == 950
    ensures BestPrice([a, b, c]) == Some(b)
  {
    assert [a, b, c][1..] == [b, c] && [b, c][1..] == [c] && [c][1..] == [];
    assert MinByPrice(a, [b, c]) == MinByPrice(b, [c]) == b;
  }

  lemma SortTwoDescending(a: PriceEntry, b: PriceEntry)
    requires b.price < a.price
    ensures SortByPrice([a, b]) == [b, a]
  {
    assert SortByPrice([a]) == [a] by {
      assert [a][..0] == [];
    }
    assert [a, b][..1] == [a];
    assert InsertByPrice([a], b) == [b, a] by {
      assert [a][..0] == [];
    }
  }

  /** The same three stores are displayed B, C, A: ascending, and the tied
      pair in the order they were added. */
  lemma TiedLedgerDisplayOrder(a: PriceEntry, b: PriceEntry, c: PriceEntry)
    requires a.price == 1000 && b.price == 950 && c.price == 950
    ensures SortByPrice([a, b, c]) == [b, c, a]
  {
    SortTwoDescending(a, b);
    assert [a, b, c][..2] == [a, b];
    assert InsertByPrice([b, a], c) == [b, c, a] by {
      assert [b, a][..1] == [b];
      assert InsertByPrice([b], c) == [b, c];
    }
  }
}
