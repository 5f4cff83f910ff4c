/** The list expressions the product store is built from: the favourites
    filter-and-append, the membership test, and the history
    prepend-filter-truncate. Each is a pure function of the old list; the
    store (module ProductStorage) assigns the result and persists it. */
module ProductLists {
  import opened Products

  /** How many entries the history keeps. */
  const HistoryLimit: nat := 50

  /** No two entries share a code. */
  ghost predicate UniqueCodes(s: seq<Product>) {
    forall i, j :: 0 <= i < j < |s| ==> s[i].code != s[j].code
  }

  /** The entries of `s` whose code is not `code`, in their original order. */
  function WithoutCode(s: seq<Product>, code: string): (r: seq<Product>)
    ensures |r| <= |s|
    ensures forall i :: 0 <= i < |r| ==> r[i].code != code
    ensures forall x :: x in r <==> x in s && x.code != code
    ensures (forall i :: 0 <= i < |s| ==> s[i].code != code) ==> r == s
  {
    if s == [] then []
    else if s[0].code == code then WithoutCode(s[1..], code)
    else [s[0]] + WithoutCode(s[1..], code)
  }

  /** Whether some entry of `s` has `code`. */
  function ContainsCode(s: seq<Product>, code: string): (b: bool)
    ensures b <==> exists i :: 0 <= i < |s| && s[i].code == code
  {
    s != [] && (s[0].code == code || ContainsCode(s[1..], code))
  }

  /** The favourites after adding `p`: any entry with `p`'s code is dropped
      and `p` goes at the end. */
  function WithFavorite(s: seq<Product>, p: Product): (r: seq<Product>)
    ensures |r| > 0 && r[|r| - 1] == p
    ensures forall i :: 0 <= i < |r| - 1 ==> r[i].code != p.code
  {
    WithoutCode(s, p.code) + [p]
  }

  /** What the favourite button does to the list: remove `p`'s code when it
      is present, add `p` otherwise. */
  function Toggle(s: seq<Product>, p: Product): (r: seq<Product>)
    ensures ContainsCode(r, p.code) == !ContainsCode(s, p.code)
  {
    if ContainsCode(s, p.code) then WithoutCode(s, p.code) else WithFavorite(s, p)
  }

  /** A history entry: the product's fields with the scan time stamped on. */
  function Stamp(p: Product, at: string): Product {
    p.(scannedAt := Some(at))
  }

  /** The history after recording `e`: `e` first, then the old entries with
      another code, cut to the first `HistoryLimit`. */
  function WithHistoryEntry(h: seq<Product>, e: Product): (r: seq<Product>)
    ensures 0 < |r| <= HistoryLimit
    ensures r[0] == e
    ensures forall i :: 1 <= i < |r| ==> r[i].code != e.code
    ensures r[1..] <= WithoutCode(h, e.code)
    ensures |r| < HistoryLimit ==> r[1..] == WithoutCode(h, e.code)
  {
    var all := [e] + WithoutCode(h, e.code);
    if |all| <= HistoryLimit then all else all[..HistoryLimit]
  }

  /** Filtering distributes over concatenation, so it keeps relative order. */
  lemma {:induction false} WithoutCodeConcat(a: seq<Product>, b: seq<Product>, code: string)
    ensures WithoutCode(a + b, code) == WithoutCode(a, code) + WithoutCode(b, code)
  {
    if a != [] {
      assert (a + b)[0] == a[0];
      assert (a + b)[1..] == a[1..] + b;
      WithoutCodeConcat(a[1..], b, code);
    } else {
      assert a + b == b;
    }
  }

  /** Filtering never creates a duplicate code. */
  lemma {:induction false} WithoutCodeKeepsUnique(s: seq<Product>, code: string)
    requires UniqueCodes(s)
    ensures UniqueCodes(WithoutCode(s, code))
  {
    if s != [] {
      assert UniqueCodes(s[1..]) by {
        forall i, j | 0 <= i < j < |s[1..]| ensures s[1..][i].code != s[1..][j].code {
          assert s[1..][i] == s[i + 1] && s[1..][j] == s[j + 1];
        }
      }
      WithoutCodeKeepsUnique(s[1..], code);
      var rest := WithoutCode(s[1..], code);
      if s[0].code != code {
        forall j | 0 <= j < |rest| ensures rest[j].code != s[0].code {
          assert rest[j] in s[1..];
          var k :| 0 <= k < |s[1..]| && s[1..][k] == rest[j];
          assert s[k + 1] == rest[j];
        }
        var r := [s[0]] + rest;
        forall i, j | 0 <= i < j < |r| ensures r[i].code != r[j].code {
          if i > 0 {
            assert r[i] == rest[i - 1] && r[j] == rest[j - 1];
          } else {
            assert r[j] == rest[j - 1];
          }
        }
      }
    }
  }

  /** Adding a favourite leaves every entry with another code where it was:
      filtering the new list by `p`'s code gives the old list so filtered. */
  lemma AddFavoriteKeepsOthers(s: seq<Product>, p: Product)
    ensures WithoutCode(WithFavorite(s, p), p.code) == WithoutCode(s, p.code)
  {
    WithoutCodeConcat(WithoutCode(s, p.code), [p], p.code);
  }

  /** Adding a favourite keeps codes unique. */
  lemma AddFavoriteKeepsUnique(s: seq<Product>, p: Product)
    requires UniqueCodes(s)
    ensures UniqueCodes(WithFavorite(s, p))
  {
    WithoutCodeKeepsUnique(s, p.code);
  }

  /** Adding two snapshots of one code in a row leaves only the second, as if
      the first had never been added; adding the same product twice is the
      same as adding it once. */
  lemma AddFavoriteReplaces(s: seq<Product>, p: Product, q: Product)
    requires p.code == q.code
    ensures WithFavorite(WithFavorite(s, p), q) == WithFavorite(s, q)
  {
    AddFavoriteKeepsOthers(s, p);
  }

  /** Adding an absent code and then removing it restores the list exactly. */
  lemma AddThenRemoveFavorite(s: seq<Product>, p: Product)
    requires !ContainsCode(s, p.code)
    ensures WithoutCode(WithFavorite(s, p), p.code) == s
  {
    AddFavoriteKeepsOthers(s, p);
  }

  /** Two toggles of one product restore whether its code is a favourite;
      starting from a list without it they restore the list itself. */
  lemma ToggleTwice(s: seq<Product>, p: Product)
    ensures ContainsCode(Toggle(Toggle(s, p), p), p.code) == ContainsCode(s, p.code)
    ensures !ContainsCode(s, p.code) ==> Toggle(Toggle(s, p), p) == s
  {
    if !ContainsCode(s, p.code) {
      AddThenRemoveFavorite(s, p);
    }
  }

  /** Recording a history entry keeps codes unique. */
  lemma AddHistoryKeepsUnique(h: seq<Product>, e: Product)
    requires UniqueCodes(h)
    ensures UniqueCodes(WithHistoryEntry(h, e))
  {
    WithoutCodeKeepsUnique(h, e.code);
    var w := WithoutCode(h, e.code);
    var r := WithHistoryEntry(h, e);
    forall i, j | 0 <= i < j < |r| ensures r[i].code != r[j].code {
      if i > 0 {
        assert r[i] == r[1..][i - 1] == w[i - 1];
        assert r[j] == r[1..][j - 1] == w[j - 1];
      }
    }
  }

  /** Scanning a new code into a full history of distinct codes drops exactly
      the oldest entry. */
  lemma AddHistoryEvictsOldest(h: seq<Product>, e: Product)
    requires |h| == HistoryLimit && !ContainsCode(h, e.code)
    ensures WithHistoryEntry(h, e) == [e] + h[..HistoryLimit - 1]
  {
  }

  /** Filtering a fresh history by the code just recorded leaves its tail. */
  lemma HistoryWithoutNewest(h: seq<Product>, e: Product)
    ensures WithoutCode(WithHistoryEntry(h, e), e.code) == WithHistoryEntry(h, e)[1..]
  {
    var r := WithHistoryEntry(h, e);
    assert r == [e] + r[1..];
    WithoutCodeConcat([e], r[1..], e.code);
  }

  /** Re-scanning a code replaces its entry: the history after two entries
      with one code is the history after the second alone, so the code appears
      once, first, with the later timestamp. */
  lemma AddHistoryReplaces(h: seq<Product>, e: Product, f: Product)
    requires e.code == f.code
    ensures WithHistoryEntry(WithHistoryEntry(h, e), f) == WithHistoryEntry(h, f)
  {
    var w := WithoutCode(h, e.code);
    var r := WithHistoryEntry(h, e);
    HistoryWithoutNewest(h, e);
    assert WithHistoryEntry(r, f) == [f] + r[1..];
    if |w| + 1 <= HistoryLimit {
      assert r[1..] == w;
    } else {
      assert r[1..] == w[..HistoryLimit - 1];
      assert ([f] + w)[..HistoryLimit] == [f] + w[..HistoryLimit - 1];
    }
  }
}
