/** The header search box (src/components/search/SearchBar.tsx): the result
    list computed from the debounced query, and the keyboard cursor and
    open/closed state of the drop-down. */
module SearchBar {
  import opened JsValues
  import Seqs
  import opened Inventory

  /** What a result row shows: `Pick<Product, "id" | "name" | "category">`. */
  datatype SearchItem = SearchItem(id: string, name: string, category: string)

  function ItemOf(p: Product): SearchItem {
    SearchItem(p.id, p.name, p.category)
  }

  /** The most results the drop-down shows. */
  const MaxResults: nat := 8

  /** `debounced.trim().length > 0`. */
  predicate HasQuery(debounced: string) {
    |Trim(debounced)| > 0
  }

  /** `debounced.trim().toLowerCase()`. */
  function Term(h: Host, debounced: string): string {
    h.toLower(Trim(debounced))
  }

  /** A product is found by its exact (lower-cased) id or by a lower-cased
      name containing the term. */
  predicate Hit(h: Host, term: string, p: Product) {
    h.toLower(p.id) == term || Contains(h.toLower(p.name), term)
  }

  /** The products the term finds, in product order. */
  function Hits(h: Host, products: seq<Product>, term: string): (r: seq<Product>)
    ensures forall p :: p in r <==> p in products && Hit(h, term, p)
    ensures forall p :: multiset(r)[p] == if Hit(h, term, p) then multiset(products)[p] else 0
    ensures Seqs.IsSubsequence(r, products)
  {
    Seqs.Filter((p: Product) => Hit(h, term, p), products)
  }

  function Items(ps: seq<Product>): (r: seq<SearchItem>)
    ensures |r| == |ps| && forall i :: 0 <= i < |ps| ==> r[i] == ItemOf(ps[i])
  {
    seq(|ps|, i requires 0 <= i < |ps| => ItemOf(ps[i]))
  }

  /** `products.filter(hit).slice(0, 8).map(toItem)`: the items of the first
      eight hits, or of all of them when there are fewer. */
  function SearchResults(h: Host, products: seq<Product>, term: string): (r: seq<SearchItem>)
    ensures var hits := Hits(h, products, term);
      && |r| == (if |hits| <= MaxResults then |hits| else MaxResults)
      && forall i :: 0 <= i < |r| ==> r[i] == ItemOf(hits[i])
  {
    var hits := Hits(h, products, term);
    Items(if |hits| <= MaxResults then hits else hits[..MaxResults])
  }

  /** At most eight results, and every one of them is a hit. */
  lemma ResultsAreHits(h: Host, products: seq<Product>, term: string)
    ensures var r := SearchResults(h, products, term);
      && |r| <= MaxResults
      && forall i :: 0 <= i < |r| ==> exists p :: p in products && Hit(h, term, p) && r[i] == ItemOf(p)
  {
    var hits := Hits(h, products, term);
    var r := SearchResults(h, products, term);
    forall i | 0 <= i < |r| ensures exists p :: p in products && Hit(h, term, p) && r[i] == ItemOf(p) {
      assert hits[i] in hits;
    }
  }

  /** With fewer than eight results, every hit is among them. */
  lemma FewResultsShowAllHits(h: Host, products: seq<Product>, term: string)
    ensures |SearchResults(h, products, term)| < MaxResults ==>
      forall p :: p in products && Hit(h, term, p) ==> ItemOf(p) in SearchResults(h, products, term)
  {
    var hits := Hits(h, products, term);
    var r := SearchResults(h, products, term);
    forall p | |r| < MaxResults && p in products && Hit(h, term, p) ensures ItemOf(p) in r {
      var k :| 0 <= k < |hits| && hits[k] == p;
      assert r[k] == ItemOf(p);
    }
  }

  /** A prefix of a subsequence is a subsequence. */
  lemma {:induction false} PrefixOfSubsequence<T>(a: seq<T>, b: seq<T>, k: nat)
    requires Seqs.IsSubsequence(a, b) && k <= |a|
    ensures Seqs.IsSubsequence(a[..k], b)
    decreases |b|
  {
    if k == 0 {
    } else if a[0] == b[0] {
      PrefixOfSubsequence(a[1..], b[1..], k - 1);
      assert a[..k][1..] == a[1..][..k - 1];
    } else {
      PrefixOfSubsequence(a, b[1..], k);
      assert a[..k][0] != b[0];
    }
  }

  /** The results keep the order of the product list: they are the items of a
      subsequence of the products. */
  lemma ResultsInProductOrder(h: Host, products: seq<Product>, term: string)
    ensures exists ps :: Seqs.IsSubsequence(ps, products) && SearchResults(h, products, term) == Items(ps)
  {
    var hits := Hits(h, products, term);
    var shown := if |hits| <= MaxResults then hits else hits[..MaxResults];
    PrefixOfSubsequence(hits, products, |shown|);
    assert hits[..|shown|] == shown;
    assert SearchResults(h, products, term) == Items(shown);
  }

  // ---------------------------------------------------------------------------
  // The cursor

  /** JavaScript's `a % n` on integers: the sign follows `a` (truncated
      division), and NaN when `n` is 0. */
  function JsRemainder(a: int, n: int): (r: Option<int>)
    ensures n == 0 <==> r == None
    ensures r.Some? && a >= 0 ==> 0 <= r.value < if n < 0 then -n else n
    ensures r.Some? && a < 0 ==> 0 >= r.value > if n < 0 then n else -n
  {
    if n == 0 then None
    else if a >= 0 then Some(a % n)
    else Some(-((-a) % n))
  }

  lemma ModOfSmall(a: int, n: int)
    requires 0 <= a < n
    ensures a % n == a
  {
    assert a == n * 0 + a;
  }

  lemma ModOfWrapped(a: int, n: int)
    requires 0 < n <= a < 2 * n
    ensures a % n == a - n
  {
    assert a == n * 1 + (a - n);
  }

  lemma RemainderBelow(a: int, n: int)
    requires 0 <= a < n
    ensures JsRemainder(a, n) == Some(a)
  {
    ModOfSmall(a, n);
  }

  lemma RemainderWrap(a: int, n: int)
    requires 0 < n <= a < 2 * n
    ensures JsRemainder(a, n) == Some(a - n)
  {
    ModOfWrapped(a, n);
  }

  /** ArrowDown: `(i + 1) % results.length`. */
  function CursorDown(i: int, n: nat): Option<int> {
    JsRemainder(i + 1, n)
  }

  /** ArrowUp: `(i - 1 + results.length) % results.length`. */
  function CursorUp(i: int, n: nat): Option<int> {
    JsRemainder(i - 1 + n, n)
  }

  /** With `n` results and the cursor on one of them, both keys keep it on
      one of them, wrapping at the ends. */
  lemma CursorWraps(i: int, n: nat)
    requires 0 <= i < n
    ensures CursorDown(i, n) == Some(if i == n - 1 then 0 else i + 1)
    ensures CursorUp(i, n) == Some(if i == 0 then n - 1 else i - 1)
  {
    if i == n - 1 { RemainderWrap(i + 1, n); } else { RemainderBelow(i + 1, n); }
    if i == 0 { RemainderBelow(i - 1 + n, n); } else { RemainderWrap(i - 1 + n, n); }
  }

  /** The two keys undo each other. */
  lemma CursorUpUndoesDown(i: int, n: nat)
    requires 0 <= i < n
    ensures CursorDown(i, n).Some? && CursorUp(CursorDown(i, n).value, n) == Some(i)
    ensures CursorUp(i, n).Some? && CursorDown(CursorUp(i, n).value, n) == Some(i)
  {
    CursorWraps(i, n);
    var d := CursorDown(i, n).value;
    var u := CursorUp(i, n).value;
    CursorWraps(d, n);
    CursorWraps(u, n);
  }

  /** With no results the remainder divides by zero: the cursor becomes NaN
      and stays NaN. */
  lemma CursorWithoutResults(i: int)
    ensures CursorDown(i, 0) == None && CursorUp(i, 0) == None
  {
  }

  // ---------------------------------------------------------------------------
  // The component's state

  class SearchBox {
    var q: string
    var results: seq<SearchItem>
    var open: bool
    /** `activeIdx`; `None` stands for NaN. */
    var activeIdx: Option<int>

    /** The cursor is NaN only while there are no results, never negative,
        and on a result whenever there are results. */
    predicate Valid()
      reads this
    {
      && (activeIdx.None? ==> results == [])
      && (activeIdx.Some? ==> 0 <= activeIdx.value && (results != [] ==> activeIdx.value < |results|))
    }

    constructor ()
      ensures Valid()
      ensures q == "" && results == [] && !open && activeIdx == Some(0)
    {
      q := "";
      results := [];
      open := false;
      activeIdx := Some(0);
    }

    /** The input's `onChange`. */
    method Type(text: string)
      requires Valid()
      modifies this
      ensures Valid()
      ensures q == text && results == old(results) && open == old(open) && activeIdx == old(activeIdx)
    {
      q := text;
    }

    /** The search effect, run on the debounced query: a blank query empties
        and closes the list; any other query shows its results, opens the
        list and puts the cursor on the first row. */
    method RunSearch(h: Host, products: seq<Product>, debounced: string)
      requires Valid()
      modifies this
      ensures Valid()
      ensures q == old(q)
      ensures !HasQuery(debounced) ==> results == [] && !open && activeIdx == old(activeIdx)
      ensures HasQuery(debounced) ==>
        results == SearchResults(h, products, Term(h, debounced)) && open && activeIdx == Some(0)
    {
      if !HasQuery(debounced) {
        results := [];
        open := false;
      } else {
        var found := SearchResults(h, products, Term(h, debounced));
        results := found;
        open := true;
        activeIdx := Some(0);
      }
    }

    /** `goToItem`: the navigation target is the caller's; the list closes
        and the query is cleared. */
    method GoToItem(item: SearchItem) returns (target: SearchItem)
      requires Valid()
      modifies this
      ensures Valid()
      ensures target == item
      ensures !open && q == "" && results == old(results) && activeIdx == old(activeIdx)
    {
      target := item;
      open := false;
      q := "";
    }

    /** The input's `onFocus`: reopens the list when it has results. */
    method Focus()
      requires Valid()
      modifies this
      ensures Valid()
      ensures open == (old(open) || results != [])
      ensures q == old(q) && results == old(results) && activeIdx == old(activeIdx)
    {
      if |results| > 0 {
        open := true;
      }
    }

    /** `onMouseEnter` of the `i`-th result row. */
    method Hover(i: nat)
      requires Valid() && i < |results|
      modifies this
      ensures Valid()
      ensures activeIdx == Some(i)
      ensures q == old(q) && results == old(results) && open == old(open)
    {
      activeIdx := Some(i);
    }

    /** `handleKey`. The returned item is the one navigated to, if any. */
    method HandleKey(key: string) returns (selected: Option<SearchItem>)
      requires Valid()
      modifies this
      ensures Valid()
      ensures results == old(results)
      // closed: ArrowDown or Enter with results only opens the list
      ensures !old(open) && old(results) != [] && (key == "ArrowDown" || key == "Enter") ==>
        open && selected == None && q == old(q) && activeIdx == old(activeIdx)
      // closed: anything else does nothing
      ensures !old(open) && !(old(results) != [] && (key == "ArrowDown" || key == "Enter")) ==>
        !open && selected == None && q == old(q) && activeIdx == old(activeIdx)
      ensures old(open) && key == "ArrowDown" ==>
        open && selected == None && q == old(q) &&
        activeIdx == (if old(activeIdx).Some? then CursorDown(old(activeIdx).value, |results|) else None)
      ensures old(open) && key == "ArrowUp" ==>
        open && selected == None && q == old(q) &&
        activeIdx == (if old(activeIdx).Some? then CursorUp(old(activeIdx).value, |results|) else None)
      ensures old(open) && key == "Escape" ==>
        !open && selected == None && q == old(q) && activeIdx == old(activeIdx)
      // open: Enter goes to the highlighted result, if there is one
      ensures old(open) && key == "Enter" && old(results) != [] ==>
        selected == Some(results[old(activeIdx).value]) && !open && q == "" && activeIdx == old(activeIdx)
      ensures old(open) && key == "Enter" && old(results) == [] ==>
        selected == None && open && q == old(q) && activeIdx == old(activeIdx)
      ensures old(open) && key !in {"ArrowDown", "ArrowUp", "Escape", "Enter"} ==>
        open && selected == None && q == old(q) && activeIdx == old(activeIdx)
    {
      selected := None;
      if !open && |results| > 0 && (key == "ArrowDown" || key == "Enter") {
        open := true;
        return;
      }
      if !open {
        return;
      }
      if key == "ArrowDown" {
        if activeIdx.Some? {
          CursorStaysOnResults(activeIdx.value, |results|);
          activeIdx := CursorDown(activeIdx.value, |results|);
        }
      }
      if key == "ArrowUp" {
        if activeIdx.Some? {
          CursorStaysOnResults(activeIdx.value, |results|);
          activeIdx := CursorUp(activeIdx.value, |results|);
        }
      }
      if key == "Escape" {
        open := false;
      }
      if key == "Enter" {
        if activeIdx.Some? && activeIdx.value < |results| {
          var item := results[activeIdx.value];
          var target := GoToItem(item);
          selected := Some(target);
        }
      }
    }
  }

  /** The cursor keys keep `Valid`: a cursor on a result stays on one, and
      with no results it becomes NaN. */
  lemma CursorStaysOnResults(i: int, n: nat)
    requires 0 <= i && (n > 0 ==> i < n)
    ensures n == 0 ==> CursorDown(i, n) == None && CursorUp(i, n) == None
    ensures n > 0 ==> CursorDown(i, n).Some? && 0 <= CursorDown(i, n).value < n
    ensures n > 0 ==> CursorUp(i, n).Some? && 0 <= CursorUp(i, n).value < n
  {
    if n > 0 {
      CursorWraps(i, n);
    }
  }

  // ---------------------------------------------------------------------------
  // Sequences of handler calls

  /** A search followed by Enter goes to the first result, then closes the
      list and clears the query; with no result nothing is selected and the
      list stays open. */
  method SearchThenEnter(h: Host, products: seq<Product>, debounced: string)
    returns (selected: Option<SearchItem>, open: bool, q: string)
    requires HasQuery(debounced)
    ensures var r := SearchResults(h, products, Term(h, debounced));
      (r != [] ==> selected == Some(r[0]) && !open && q == "") &&
      (r == [] ==> selected == None && open && q == debounced)
  {
    var box := new SearchBox();
    box.Type(debounced);
    box.RunSearch(h, products, debounced);
    selected := box.HandleKey("Enter");
    open := box.open;
    q := box.q;
  }

  /** ArrowUp right after a search wraps to the last result; with no results
      the cursor becomes NaN. */
  method SearchThenArrowUp(h: Host, products: seq<Product>, debounced: string)
    returns (activeIdx: Option<int>)
    requires HasQuery(debounced)
    ensures var n := |SearchResults(h, products, Term(h, debounced))|;
      activeIdx == if n == 0 then None else Some(n - 1)
  {
    var box := new SearchBox();
    box.RunSearch(h, products, debounced);
    CursorStaysOnResults(0, |box.results|);
    if |box.results| > 0 {
      CursorWraps(0, |box.results|);
    }
    var _ := box.HandleKey("ArrowUp");
    activeIdx := box.activeIdx;
  }

  /** Clearing the query empties and closes the list; a key press other than
      ArrowDown or Enter then changes nothing, and neither do those two since
      there are no results. */
  method ClearThenKeys(h: Host, products: seq<Product>, blank: string, key: string)
    returns (open: bool, count: nat, selected: Option<SearchItem>)
    requires !HasQuery(blank)
    ensures !open && count == 0 && selected == None
  {
    var box := new SearchBox();
    box.RunSearch(h, products, blank);
    selected := box.HandleKey(key);
    open := box.open;
    count := |box.results|;
  }
}
