/** The in-memory product store (src/contexts/InventoryContext.tsx). */
module Inventory {
  import opened JsValues
  import opened Validators
  import Seqs

  /** The product fields a caller can update. */
  datatype Field = Name | Quantity | Price | Category | Image

  /** The property name of a field. */
  function Key(f: Field): string {
    match f
    case Name => "name"
    case Quantity => "quantity"
    case Price => "price"
    case Category => "category"
    case Image => "image"
  }

  /** A product. `quantity`, `price` and `image` hold whatever JavaScript value
      was stored: an inline edit commits the raw input text, so a quantity can
      be the string "20" as well as the number 20. */
  datatype Product = Product(
    id: string,
    name: string,
    quantity: Value,
    price: Value,
    category: string,
    image: Value,
    createdAt: Stamp,
    updatedAt: Stamp)

  /** What `addProduct` is given: a product without id and timestamps. */
  datatype NewProduct = NewProduct(name: string, quantity: Value, price: Value, category: string, image: Value)

  /** One entry of an `updates` object, in `Object.entries` order. */
  type Update = (Field, Value)

  /** The value of a field of a product, as a JavaScript value. */
  function FieldValue(p: Product, f: Field): Value {
    match f
    case Name => Str(p.name)
    case Quantity => p.quantity
    case Price => p.price
    case Category => Str(p.category)
    case Image => p.image
  }

  /** `validateProduct(key, value)` for a product field, dispatched on the
      field rather than on its property name. */
  function ValidateEntry(h: Host, f: Field, v: Value): (r: Option<ValidationError>)
    ensures r.Some? ==> r.value.field == Key(f)
    ensures f == Image ==> r == None
  {
    match f
    case Name => ValidateName(v)
    case Quantity => ValidateQuantity(h, v)
    case Price => ValidatePrice(h, v)
    case Category => ValidateCategory(v)
    case Image => None
  }

  /** Dispatching on the field is validating its property name. */
  lemma ValidateEntryAgrees(h: Host, f: Field, v: Value)
    ensures ValidateEntry(h, f, v) == ValidateProduct(h, Key(f), v)
  {
  }

  predicate UpdateValid(h: Host, u: Update) {
    ValidateEntry(h, u.0, u.1) == None
  }

  predicate UpdatesValid(h: Host, updates: seq<Update>) {
    forall i :: 0 <= i < |updates| ==> UpdateValid(h, updates[i])
  }

  /** The errors `updateProduct` collects: one per failing entry, in entry order. */
  function UpdateErrors(h: Host, updates: seq<Update>): (r: seq<ValidationError>)
    ensures |r| <= |updates|
    ensures r == [] <==> UpdatesValid(h, updates)
  {
    if updates == [] then []
    else
      var n := |updates| - 1;
      var init := UpdateErrors(h, updates[..n]);
      assert forall i :: 0 <= i < n ==> updates[..n][i] == updates[i];
      match ValidateEntry(h, updates[n].0, updates[n].1)
      case None => init
      case Some(e) => init + [e]
  }

  /** Every error reported is the error of one of the entries. */
  lemma {:induction false} UpdateErrorsFromEntries(h: Host, updates: seq<Update>)
    ensures forall e :: e in UpdateErrors(h, updates) ==>
      exists i :: 0 <= i < |updates| && ValidateEntry(h, updates[i].0, updates[i].1) == Some(e)
  {
    if updates != [] {
      var n := |updates| - 1;
      UpdateErrorsFromEntries(h, updates[..n]);
      assert forall i :: 0 <= i < n ==> updates[..n][i] == updates[i];
    }
  }

  /** One more entry adds its own error, if any, at the end. */
  lemma UpdateErrorsStep(h: Host, updates: seq<Update>, i: nat)
    requires i < |updates|
    ensures UpdateErrors(h, updates[..i + 1]) ==
      UpdateErrors(h, updates[..i]) +
      match ValidateProduct(h, Key(updates[i].0), updates[i].1) case None => [] case Some(e) => [e]
  {
    assert updates[..i + 1][..i] == updates[..i];
    ValidateEntryAgrees(h, updates[i].0, updates[i].1);
  }

  /** An update of a single field yields at most one error, about that field. */
  lemma SingleUpdateErrors(h: Host, f: Field, v: Value)
    ensures |UpdateErrors(h, [(f, v)])| <= 1
    ensures forall e :: e in UpdateErrors(h, [(f, v)]) ==> e.field == Key(f)
  {
    assert [(f, v)][..0] == [];
  }

  function ApplyUpdate(h: Host, p: Product, u: Update): Product
    requires UpdateValid(h, u)
  {
    match u.0
    case Name => p.(name := u.1.s)
    case Quantity => p.(quantity := u.1)
    case Price => p.(price := u.1)
    case Category => p.(category := u.1.s)
    case Image => p.(image := u.1)
  }

  function ApplyAll(h: Host, p: Product, updates: seq<Update>): Product
    requires UpdatesValid(h, updates)
    decreases updates
  {
    if updates == [] then p else ApplyAll(h, ApplyUpdate(h, p, updates[0]), updates[1..])
  }

  /** `{ ...product, ...updates, updatedAt: now }`. */
  function Merge(h: Host, p: Product, updates: seq<Update>, now: Stamp): Product
    requires UpdatesValid(h, updates)
  {
    ApplyAll(h, p, updates).(updatedAt := now)
  }

  /** The value the last entry for `f` sets, if any. */
  function LastUpdate(updates: seq<Update>, f: Field): Option<Value> {
    if updates == [] then None
    else
      match LastUpdate(updates[1..], f)
      case Some(v) => Some(v)
      case None => if updates[0].0 == f then Some(updates[0].1) else None
  }

  /** Merging sets every updated field to its (last) new value, keeps every
      other field, keeps id and creation time, and stamps the update time. */
  lemma {:induction false} MergeFields(h: Host, p: Product, updates: seq<Update>, now: Stamp, f: Field)
    requires UpdatesValid(h, updates)
    ensures FieldValue(Merge(h, p, updates, now), f) ==
      match LastUpdate(updates, f)
      case Some(v) => v
      case None => FieldValue(p, f)
    ensures Merge(h, p, updates, now).id == p.id
    ensures Merge(h, p, updates, now).createdAt == p.createdAt
    ensures Merge(h, p, updates, now).updatedAt == now
  {
    ApplyAllFields(h, p, updates, f);
  }

  lemma {:induction false} ApplyAllFields(h: Host, p: Product, updates: seq<Update>, f: Field)
    requires UpdatesValid(h, updates)
    ensures FieldValue(ApplyAll(h, p, updates), f) ==
      match LastUpdate(updates, f)
      case Some(v) => v
      case None => FieldValue(p, f)
    ensures ApplyAll(h, p, updates).id == p.id
    ensures ApplyAll(h, p, updates).createdAt == p.createdAt
    decreases updates
  {
    if updates != [] {
      var q := ApplyUpdate(h, p, updates[0]);
      assert UpdatesValid(h, updates[1..]) by {
        forall i | 0 <= i < |updates[1..]| ensures UpdateValid(h, updates[1..][i]) {
          assert updates[1..][i] == updates[i + 1];
        }
      }
      ApplyAllFields(h, q, updates[1..], f);
    }
  }

  /** The product list after a successful `updateProduct(id, updates)`. */
  function UpdateAll(h: Host, products: seq<Product>, id: string, updates: seq<Update>, now: Stamp): (r: seq<Product>)
    requires UpdatesValid(h, updates)
    ensures |r| == |products|
    ensures forall i :: 0 <= i < |r| ==>
      r[i] == if products[i].id == id then Merge(h, products[i], updates, now) else products[i]
  {
    seq(|products|, i requires 0 <= i < |products| =>
      if products[i].id == id then Merge(h, products[i], updates, now) else products[i])
  }

  /** `products.find(p => p.id === id)`: the first product with the id. */
  function Find(products: seq<Product>, id: string): (r: Option<Product>)
    ensures r.None? <==> forall i :: 0 <= i < |products| ==> products[i].id != id
    ensures r.Some? ==> r.value.id == id && exists k :: FirstWithId(products, id, k) && products[k] == r.value
  {
    if products == [] then None
    else if products[0].id == id then Some(products[0])
    else
      var r := Find(products[1..], id);
      assert forall i :: 1 <= i < |products| ==> products[1..][i - 1] == products[i];
      r
  }

  /** `k` is the first index holding a product with the id. */
  predicate FirstWithId(products: seq<Product>, id: string, k: int) {
    0 <= k < |products| && products[k].id == id && forall i :: 0 <= i < k ==> products[i].id != id
  }

  predicate MatchesQuery(h: Host, query: string, p: Product) {
    var q := h.toLower(query);
    Contains(h.toLower(p.name), q) || Contains(h.toLower(p.category), q)
  }

  /** `searchProducts(query)`. */
  function Search(h: Host, products: seq<Product>, query: string): (r: seq<Product>)
    ensures forall p :: p in r <==> p in products && MatchesQuery(h, query, p)
    ensures forall p :: multiset(r)[p] == if MatchesQuery(h, query, p) then multiset(products)[p] else 0
    ensures Seqs.IsSubsequence(r, products)
  {
    Seqs.Filter((p: Product) => MatchesQuery(h, query, p), products)
  }

  /** `filterProductsByCategory(category)`. */
  function ByCategory(products: seq<Product>, category: string): (r: seq<Product>)
    ensures category == "" ==> r == products
    ensures category != "" ==> forall p :: p in r <==> p in products && p.category == category
    ensures Seqs.IsSubsequence(r, products)
  {
    if category == "" then
      SubsequenceOfItself(products);
      products
    else Seqs.Filter((p: Product) => p.category == category, products)
  }

  lemma {:induction false} SubsequenceOfItself<T>(s: seq<T>)
    ensures Seqs.IsSubsequence(s, s)
  {
    if s != [] { SubsequenceOfItself(s[1..]); }
  }

  /** `{ ...product, id, createdAt: now, updatedAt: now }`. */
  function WithId(p: NewProduct, id: string, now: Stamp): Product {
    Product(id, p.name, p.quantity, p.price, p.category, p.image, now, now)
  }

  class InventoryStore {
    const h: Host
    var products: seq<Product>

    /** The provider after its mount effect loaded the initial products. */
    constructor (h: Host, initial: seq<Product>)
      ensures this.h == h && products == initial
    {
      this.h := h;
      products := initial;
    }

    /** `addProduct`: appends one product with the given (fresh) id, stamped `now`. */
    method AddProduct(p: NewProduct, id: string, now: Stamp)
      modifies this
      ensures products == old(products) + [WithId(p, id, now)]
    {
      products := products + [WithId(p, id, now)];
    }

    /** `validateField`: the validator itself. */
    function ValidateField(field: string, value: Value): (r: Option<ValidationError>)
      ensures r.Some? ==> r.value.field == field
    {
      ValidateProduct(h, field, value)
    }

    /** `updateProduct(id, updates)`: validates every entry; when any fails,
        returns all the errors and changes nothing; otherwise merges the
        updates into every product with the id and returns null. */
    method UpdateProduct(id: string, updates: seq<Update>, now: Stamp) returns (result: Option<seq<ValidationError>>)
      modifies this
      ensures result.Some? <==> !UpdatesValid(h, updates)
      ensures result.Some? ==> result.value == UpdateErrors(h, updates) && result.value != []
      ensures result.Some? ==> products == old(products)
      ensures result.None? ==> UpdatesValid(h, updates) && products == UpdateAll(h, old(products), id, updates, now)
    {
      var errors: seq<ValidationError> := [];
      var i := 0;
      while i < |updates|
        invariant 0 <= i <= |updates|
        invariant errors == UpdateErrors(h, updates[..i])
        invariant products == old(products)
      {
        UpdateErrorsStep(h, updates, i);
        var error := ValidateField(Key(updates[i].0), updates[i].1);
        if error.Some? {
          errors := errors + [error.value];
        }
        i := i + 1;
      }
      assert updates[..|updates|] == updates;
      if |errors| > 0 {
        return Some(errors);
      }
      products := UpdateAll(h, products, id, updates, now);
      return None;
    }

    /** `deleteProduct(id)`: keeps, in order, exactly the products with another id. */
    method DeleteProduct(id: string)
      modifies this
      ensures products == Seqs.Filter((p: Product) => p.id != id, old(products))
      ensures forall p :: p in products <==> p in old(products) && p.id != id
    {
      products := Seqs.Filter((p: Product) => p.id != id, products);
    }

    function GetProduct(id: string): (r: Option<Product>)
      reads this
      ensures r.Some? ==> r.value in products && r.value.id == id
      ensures r.Some? ==> exists k :: FirstWithId(products, id, k) && products[k] == r.value
      ensures r.None? <==> forall p :: p in products ==> p.id != id
    {
      Find(products, id)
    }

    function SearchProducts(query: string): (r: seq<Product>)
      reads this
      ensures forall p :: p in r <==> p in products && MatchesQuery(h, query, p)
    {
      Search(h, products, query)
    }

    function FilterProductsByCategory(category: string): (r: seq<Product>)
      reads this
      ensures category == "" ==> r == products
      ensures category != "" ==> forall p :: p in r <==> p in products && p.category == category
    {
      ByCategory(products, category)
    }
  }

  /** An update whose id matches no product leaves every product as it was. */
  lemma UnknownIdChangesNothing(h: Host, products: seq<Product>, id: string, updates: seq<Update>, now: Stamp)
    requires UpdatesValid(h, updates)
    requires forall p :: p in products ==> p.id != id
    ensures UpdateAll(h, products, id, updates, now) == products
  {
    var r := UpdateAll(h, products, id, updates, now);
    assert forall i :: 0 <= i < |r| ==> r[i] == products[i];
  }
}
