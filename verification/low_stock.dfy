/** The dashboard's low-stock alert (src/components/dashboard/LowStockAlert.tsx):
    the products whose stock level is low or out, sorted by quantity, and the
    text of each row's badge. */
module LowStockAlert {
  import opened JsValues
  import opened Validators
  import Seqs
  import opened Inventory

  /** The stored quantity as `getStockLevel` and `-` see it. */
  function Qty(h: Host, p: Product): Num {
    ToNumber(h, p.quantity)
  }

  /** `['low', 'out'].includes(getStockLevel(product.quantity))`. */
  predicate IsLowStock(h: Host, p: Product) {
    GetStockLevel(Qty(h, p)) in {Low, Out}
  }

  /** Low or out of stock means a quantity of at most 5 (or minus infinity). */
  lemma LowStockMeansAtMostFive(h: Host, p: Product)
    ensures IsLowStock(h, p) <==> LessEq(Qty(h, p), Fin(5.0))
  {
  }

  /** The comparator `(a, b) => a.quantity - b.quantity` as the sort reads
      it: a NaN difference counts as 0, so `a` may stay before `b` exactly
      when the difference is not positive. */
  predicate QtyLe(h: Host, a: Product, b: Product) {
    match Sub(Qty(h, a), Qty(h, b))
    case NaN => true
    case PosInf => false
    case NegInf => true
    case Fin(d) => d <= 0.0
  }

  /** On low-stock products the comparator is exactly "quantity at most". */
  lemma QtyLeOnLowStock(h: Host, a: Product, b: Product)
    requires IsLowStock(h, a) && IsLowStock(h, b)
    ensures QtyLe(h, a, b) <==> LessEq(Qty(h, a), Qty(h, b))
  {
  }

  /** `lowStockProducts`: a permutation of the low-stock products. */
  function LowStockProducts(h: Host, products: seq<Product>): (r: seq<Product>)
    ensures multiset(r) == multiset(Seqs.Filter((p: Product) => IsLowStock(h, p), products))
    ensures forall p :: p in r <==> p in products && IsLowStock(h, p)
    ensures forall p :: multiset(r)[p] == if IsLowStock(h, p) then multiset(products)[p] else 0
    ensures |r| <= |products|
  {
    var low := Seqs.Filter((p: Product) => IsLowStock(h, p), products);
    var r := Seqs.SortBy((a: Product, b: Product) => QtyLe(h, a, b), low);
    assert forall p :: p in r <==> p in multiset(low);
    r
  }

  /** On low-stock products the comparator is a total preorder. */
  lemma QtyLePreorder(h: Host, dom: set<Product>)
    requires forall p :: p in dom ==> IsLowStock(h, p)
    ensures Seqs.TotalPreorder((a: Product, b: Product) => QtyLe(h, a, b), dom)
  {
    forall a, b | a in dom && b in dom ensures QtyLe(h, a, b) <==> LessEq(Qty(h, a), Qty(h, b)) {
      QtyLeOnLowStock(h, a, b);
    }
  }

  /** The list runs from the smallest quantity to the largest. */
  lemma LowStockSorted(h: Host, products: seq<Product>)
    ensures var r := LowStockProducts(h, products);
      forall i, j :: 0 <= i < j < |r| ==> LessEq(Qty(h, r[i]), Qty(h, r[j]))
  {
    var low := Seqs.Filter((p: Product) => IsLowStock(h, p), products);
    var dom := set p | p in low;
    QtyLePreorder(h, dom);
    Seqs.SortBySorted((a: Product, b: Product) => QtyLe(h, a, b), dom, low);
    var r := LowStockProducts(h, products);
    forall i, j | 0 <= i < j < |r| ensures LessEq(Qty(h, r[i]), Qty(h, r[j])) {
      assert r[i] in r && r[j] in r;
      QtyLeOnLowStock(h, r[i], r[j]);
    }
  }

  /** So the out-of-stock products come before the low ones. */
  lemma OutBeforeLow(h: Host, products: seq<Product>)
    ensures var r := LowStockProducts(h, products);
      forall i, j :: 0 <= i < j < |r| ==>
        LevelOrder(GetStockLevel(Qty(h, r[i]))) <= LevelOrder(GetStockLevel(Qty(h, r[j])))
  {
    LowStockSorted(h, products);
    var r := LowStockProducts(h, products);
    forall i, j | 0 <= i < j < |r|
      ensures LevelOrder(GetStockLevel(Qty(h, r[i]))) <= LevelOrder(GetStockLevel(Qty(h, r[j])))
    {
      StockLevelMonotone(Qty(h, r[i]), Qty(h, r[j]));
    }
  }

  // ---------------------------------------------------------------------------
  // What the card shows

  datatype AlertView = WellStocked | Listing(count: nat, rows: seq<Product>)

  /** The card: the "All products are well stocked" branch for an empty
      list, otherwise the rows under a count badge. */
  function View(h: Host, products: seq<Product>): (v: AlertView)
    ensures v == WellStocked <==> forall p :: p in products ==> !IsLowStock(h, p)
    ensures v.Listing? ==> v.count == |v.rows| > 0 && v.rows == LowStockProducts(h, products)
  {
    var list := LowStockProducts(h, products);
    if |list| == 0 then
      WellStocked
    else
      assert list[0] in list;
      Listing(|list|, list)
  }

  /** The badge of a row: `quantity === 0 ? 'Out of stock' : `${quantity} left``. */
  function BadgeText(h: Host, quantity: Value): string {
    if quantity == Number(Fin(0.0)) then "Out of stock" else h.show(quantity) + " left"
  }

  /** The badge says "Out of stock" exactly for the number 0 and otherwise
      ends in " left", whatever the quantity renders as. */
  lemma BadgeOutOfStockIffZero(h: Host, quantity: Value)
    ensures BadgeText(h, quantity) == "Out of stock" <==> quantity == Number(Fin(0.0))
    ensures quantity != Number(Fin(0.0)) ==>
      var t := BadgeText(h, quantity);
      |t| >= 5 && t[|t| - 5..] == " left"
  {
    if quantity != Number(Fin(0.0)) {
      var t := BadgeText(h, quantity);
      assert t[|t| - 5..] == " left";
      assert "Out of stock"[7..] == "stock";
    }
  }

  /** A negative quantity is out of stock by level but its badge still reads
      "<q> left"; so does a stored string "0", which `===` does not equate
      with the number 0. */
  lemma OutLevelWithLeftBadge(h: Host, r: real)
    requires r < 0.0
    requires h.stringToNumber("0") == Fin(0.0)
    ensures GetStockLevel(ToNumber(h, Number(Fin(r)))) == Out
    ensures BadgeText(h, Number(Fin(r))) == h.show(Number(Fin(r))) + " left"
    ensures GetStockLevel(ToNumber(h, Str("0"))) == Out
    ensures BadgeText(h, Str("0")) == h.show(Str("0")) + " left"
  {
  }
}
