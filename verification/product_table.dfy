/** The product table's own inline-edit state and its row order
    (src/components/inventory/ProductTable.tsx). */
module ProductTable {
  import opened JsValues
  import opened Validators
  import opened Inventory
  import Seqs

  /** The table's `EditingState` together with the store it commits to.
      Idle is the all-null record; `originalValue` is recorded but never read. */
  class TableEditor {
    const store: InventoryStore
    var id: Option<string>
    var field: Option<Field>
    var value: Value
    var originalValue: Value
    var errors: seq<ValidationError>

    /** A cell is edited exactly when both id and field are set; errors exist
        only while a cell is edited, and there is at most one, about that
        cell's field. */
    ghost predicate Valid()
      reads this
    {
      && (id.None? <==> field.None?)
      && (id.None? ==> errors == [])
      && |errors| <= 1
      && (forall e :: e in errors ==> field.Some? && e.field == Key(field.value))
    }

    ghost predicate Idle()
      reads this
    {
      id == None && field == None && value == Null && originalValue == Null && errors == []
    }

    constructor (store: InventoryStore)
      ensures this.store == store && Valid() && Idle()
    {
      this.store := store;
      id, field, value, originalValue, errors := None, None, Null, Null, [];
    }

    method Reset()
      modifies this
      ensures Valid() && Idle()
    {
      id, field, value, originalValue, errors := None, None, Null, Null, [];
    }

    /** `startEditing(id, field, currentValue)` (a double click on a cell). */
    method StartEditing(productId: string, f: Field, currentValue: Value)
      modifies this
      ensures Valid()
      ensures id == Some(productId) && field == Some(f)
      ensures value == currentValue && originalValue == currentValue && errors == []
    {
      id, field, value, originalValue, errors := Some(productId), Some(f), currentValue, currentValue, [];
    }

    /** `handleEditChange(value)`: replaces the value and revalidates it for
        the edited field; nothing else changes. */
    method HandleEditChange(v: Value)
      requires Valid()
      modifies this
      ensures Valid()
      ensures id == old(id) && field == old(field) && originalValue == old(originalValue)
      ensures value == v
      ensures field.None? ==> errors == []
      ensures field.Some? ==>
        errors == match ValidateEntry(store.h, field.value, v) case None => [] case Some(e) => [e]
    {
      var error := if field.None? then None else store.ValidateField(Key(field.value), v);
      if field.Some? {
        ValidateEntryAgrees(store.h, field.value, v);
      }
      value := v;
      errors := if error.Some? then [error.value] else [];
    }

    /** The `editing.id && editing.field` test in `saveEdit`. */
    predicate CanCommit()
      reads this
    {
      id.Some? && id.value != "" && field.Some?
    }

    /** `saveEdit()`: with pending errors the edit is dropped and the table
        returns to idle without touching the store; otherwise the store's
        `updateProduct` is called once with `{[field]: value}`; its errors keep
        the cell in edit mode, a null result returns to idle. */
    method SaveEdit(now: Stamp)
      requires Valid()
      modifies this, store
      ensures Valid()
      ensures old(errors) != [] ==> Idle() && store.products == old(store.products)
      ensures old(errors) == [] && !old(CanCommit()) ==> Idle() && store.products == old(store.products)
      ensures old(errors) == [] && old(CanCommit()) ==>
        var u := [(old(field).value, old(value))];
        if UpdatesValid(store.h, u) then
          Idle() && store.products == UpdateAll(store.h, old(store.products), old(id).value, u, now)
        else
          && errors == UpdateErrors(store.h, u)
          && id == old(id) && field == old(field) && value == old(value) && originalValue == old(originalValue)
          && store.products == old(store.products)
    {
      if |errors| > 0 {
        Reset();
        return;
      }
      if CanCommit() {
        var u := [(field.value, value)];
        var result := store.UpdateProduct(id.value, u, now);
        if result.Some? {
          SingleUpdateErrors(store.h, field.value, value);
          errors := result.value;
          return;
        }
      }
      Reset();
    }

    /** `cancelEdit()`: back to idle from any state; nothing is restored from
        `originalValue`. */
    method CancelEdit()
      modifies this
      ensures Valid() && Idle()
    {
      Reset();
    }

    /** `handleKeyDown`: Enter saves, Escape cancels, other keys do nothing. */
    method HandleKeyDown(key: string, now: Stamp)
      requires Valid()
      modifies this, store
      ensures Valid()
      ensures key == "Enter" && old(errors) != [] ==> Idle() && store.products == old(store.products)
      ensures key == "Enter" && old(errors) == [] && !old(CanCommit()) ==>
        Idle() && store.products == old(store.products)
      ensures key == "Enter" && old(errors) == [] && old(CanCommit()) ==>
        var u := [(old(field).value, old(value))];
        if UpdatesValid(store.h, u) then
          Idle() && store.products == UpdateAll(store.h, old(store.products), old(id).value, u, now)
        else
          && errors == UpdateErrors(store.h, u)
          && id == old(id) && field == old(field) && value == old(value) && originalValue == old(originalValue)
          && store.products == old(store.products)
      ensures key == "Escape" ==> Idle() && store.products == old(store.products)
      ensures key != "Enter" && key != "Escape" ==>
        && id == old(id) && field == old(field) && value == old(value)
        && originalValue == old(originalValue) && errors == old(errors)
        && store.products == old(store.products)
    {
      if key == "Enter" {
        SaveEdit(now);
      } else if key == "Escape" {
        CancelEdit();
      }
    }

    /** The `isEditing` test of a cell. */
    predicate IsEditing(productId: string, f: Field)
      reads this
    {
      id == Some(productId) && field == Some(f)
    }
  }

  /** At most one cell of the table is in edit mode. */
  lemma AtMostOneCellEdits(t: TableEditor, p1: string, f1: Field, p2: string, f2: Field)
    requires t.IsEditing(p1, f1) && t.IsEditing(p2, f2)
    ensures p1 == p2 && f1 == f2
  {
  }

  // ---------------------------------------------------------------------------
  // Row order

  /** `levelOrder[getStockLevel(p.quantity)]`; relational operators convert the
      stored value to a number. */
  function LevelOf(h: Host, p: Product): nat {
    LevelOrder(GetStockLevel(ToNumber(h, p.quantity)))
  }

  /** The comparator of `sortedProducts`. */
  function Compare(h: Host, a: Product, b: Product): int {
    var la := LevelOf(h, a);
    var lb := LevelOf(h, b);
    if la != lb then la - lb else h.localeCompare(a.name, b.name)
  }

  /** `[...products].sort(compare)`: a rearranged copy of the products. */
  function SortedProducts(h: Host, products: seq<Product>): (r: seq<Product>)
    ensures multiset(r) == multiset(products)
  {
    Seqs.SortBy((a: Product, b: Product) => Compare(h, a, b) <= 0, products)
  }

  /** `localeCompare` orders strings consistently: total and transitive. */
  ghost predicate ConsistentCollation(cmp: (string, string) -> int) {
    && (forall a, b :: cmp(a, b) <= 0 || cmp(b, a) <= 0)
    && (forall a, b, c :: cmp(a, b) <= 0 && cmp(b, c) <= 0 ==> cmp(a, c) <= 0)
  }

  /** With a consistent collation, the table lists out-of-stock products
      first, then low, medium and high stock, and by name within a level. */
  lemma SortedProductsOrder(h: Host, products: seq<Product>)
    requires ConsistentCollation(h.localeCompare)
    ensures forall i, j :: 0 <= i < j < |SortedProducts(h, products)| ==>
      var r := SortedProducts(h, products);
      LevelOf(h, r[i]) <= LevelOf(h, r[j]) &&
      (LevelOf(h, r[i]) == LevelOf(h, r[j]) ==> h.localeCompare(r[i].name, r[j].name) <= 0)
  {
    var le := (a: Product, b: Product) => Compare(h, a, b) <= 0;
    var dom := set p | p in products;
    assert Seqs.TotalPreorder(le, dom);
    Seqs.SortBySorted(le, dom, products);
  }
}
