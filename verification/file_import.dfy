/** The row-processing loop of the spreadsheet import
    (src/components/import/FileImport.tsx). Reading and parsing the file is
    outside the model: the loop is given the parsed rows. */
module FileImport {
  import opened JsValues
  import opened Validators
  import Seqs
  import opened Inventory

  /** One parsed row: the cells by column header; a missing column reads as undefined. */
  type Row = map<string, Value>

  function Cell(row: Row, column: string): Value {
    if column in row then row[column] else Undefined
  }

  /** `row[a0] || row[a1] || ... || fallback`: the first truthy alias, else the fallback. */
  function FirstTruthy(row: Row, aliases: seq<string>, fallback: Value): (v: Value)
    ensures v == fallback || exists i :: 0 <= i < |aliases| && v == Cell(row, aliases[i]) && Truthy(v)
    ensures (forall i :: 0 <= i < |aliases| ==> !Truthy(Cell(row, aliases[i]))) ==> v == fallback
    ensures forall k ::
      (0 <= k < |aliases| && Truthy(Cell(row, aliases[k])) && forall i :: 0 <= i < k ==> !Truthy(Cell(row, aliases[i])))
      ==> v == Cell(row, aliases[k])
  {
    if aliases == [] then fallback
    else if Truthy(Cell(row, aliases[0])) then Cell(row, aliases[0])
    else
      var v := FirstTruthy(row, aliases[1..], fallback);
      assert forall i :: 1 <= i < |aliases| ==> aliases[1..][i - 1] == aliases[i];
      v
  }

  const NameAliases: seq<string> := ["name", "product_name", "product", "Name", "title", "Title"]
  const QuantityAliases: seq<string> := ["quantity", "stock", "Quantity", "Stock"]
  const PriceAliases: seq<string> := ["price", "Price"]
  const CategoryAliases: seq<string> := ["category", "Category", "type", "Type"]
  const ImageAliases: seq<string> := ["image", "Image", "imageUrl", "ImageUrl", "url", "Url"]

  /** The `productData` object built from a row, fields in insertion order. */
  datatype ProductData = ProductData(name: Value, quantity: Value, price: Value, category: Value, image: Value)

  /** Every text-valued field is its default or a truthy cell of the row;
      quantity and price are always numbers. */
  function MapRow(h: Host, row: Row): (d: ProductData)
    ensures d.name == Str("") || Truthy(d.name)
    ensures d.category == Str("Uncategorized") || Truthy(d.category)
    ensures d.image == Undefined || Truthy(d.image)
    ensures d.quantity.Number? && d.price.Number?
  {
    ProductData(
      FirstTruthy(row, NameAliases, Str("")),
      Number(h.parseInt(FirstTruthy(row, QuantityAliases, Number(Fin(0.0))))),
      Number(h.parseFloat(FirstTruthy(row, PriceAliases, Number(Fin(0.0))))),
      FirstTruthy(row, CategoryAliases, Str("Uncategorized")),
      FirstTruthy(row, ImageAliases, Undefined))
  }

  /** `Object.entries(productData)`: the keys in insertion order, each
      the field of that name (`Key`), so every field exactly once. */
  function Entries(d: ProductData): (r: seq<(Field, Value)>)
    ensures |r| == 5 && forall i, j :: 0 <= i < j < |r| ==> r[i].0 != r[j].0
  {
    [(Name, d.name), (Quantity, d.quantity), (Price, d.price), (Category, d.category), (Image, d.image)]
  }

  datatype RowError = RowError(row: nat, field: string, message: string)

  /** The record of one field of a row, if `validateProduct(key, value)`
      fails (`ValidateEntryAgrees`). */
  function FieldError(h: Host, field: Field, v: Value, rowNumber: nat): seq<RowError> {
    match ValidateEntry(h, field, v)
    case None => []
    case Some(e) => [RowError(rowNumber, e.field, e.message)]
  }

  /** The error records of one row, numbered `rowNumber`, in entry order. */
  function EntryErrors(h: Host, entries: seq<(Field, Value)>, rowNumber: nat): (r: seq<RowError>)
    ensures forall e :: e in r ==> e.row == rowNumber
  {
    Seqs.Collect((entry: (Field, Value)) => FieldError(h, entry.0, entry.1, rowNumber), entries)
  }

  /** A row's entries produce no record exactly when every entry passes. */
  lemma EntryErrorsEmpty(h: Host, entries: seq<(Field, Value)>, rowNumber: nat)
    ensures EntryErrors(h, entries, rowNumber) == [] <==>
      forall i :: 0 <= i < |entries| ==> ValidateEntry(h, entries[i].0, entries[i].1) == None
  {
    Seqs.CollectEmpty((entry: (Field, Value)) => FieldError(h, entry.0, entry.1, rowNumber), entries);
  }

  function RowErrors(h: Host, d: ProductData, rowNumber: nat): seq<RowError> {
    EntryErrors(h, Entries(d), rowNumber)
  }

  predicate RowValid(h: Host, d: ProductData) {
    RowErrors(h, d, 0) == []
  }

  /** Whether a row passes does not depend on its number. */
  lemma RowValidAt(h: Host, d: ProductData, n: nat)
    ensures RowErrors(h, d, n) == [] <==> RowValid(h, d)
  {
    EntryErrorsEmpty(h, Entries(d), n);
    EntryErrorsEmpty(h, Entries(d), 0);
  }

  /** The product `addProduct` receives for a row that passed. */
  function ToNewProduct(h: Host, d: ProductData): Inventory.NewProduct
    requires RowValid(h, d)
  {
    EntryErrorsEmpty(h, Entries(d), 0);
    assert ValidateEntry(h, Entries(d)[0].0, Entries(d)[0].1) == None;
    assert ValidateEntry(h, Entries(d)[3].0, Entries(d)[3].1) == None;
    Inventory.NewProduct(d.name.s, d.quantity, d.price, d.category.s, d.image)
  }

  /** The error records of the first `|rows|` rows, numbered from 1. */
  function ImportErrors(h: Host, rows: seq<Row>): seq<RowError> {
    if rows == [] then []
    else
      var n := |rows| - 1;
      ImportErrors(h, rows[..n]) + RowErrors(h, MapRow(h, rows[n]), n + 1)
  }

  /** What `addProduct` receives for one row: its product if the row passed,
      nothing otherwise. */
  function RowProducts(h: Host, row: Row): seq<Inventory.NewProduct> {
    var d := MapRow(h, row);
    if RowValid(h, d) then [ToNewProduct(h, d)] else []
  }

  /** The products added, in row order: one per row that passed. */
  function ImportedProducts(h: Host, rows: seq<Row>): seq<Inventory.NewProduct> {
    Seqs.Collect((row: Row) => RowProducts(h, row), rows)
  }

  /** The number of rows that passed. */
  function CountValid(h: Host, rows: seq<Row>): nat {
    if rows == [] then 0
    else
      var n := |rows| - 1;
      CountValid(h, rows[..n]) + (if RowValid(h, MapRow(h, rows[n])) then 1 else 0)
  }

  /** One more entry adds that entry's record, if any. */
  lemma EntryErrorsStep(h: Host, entries: seq<(Field, Value)>, k: nat, rowNumber: nat)
    requires k < |entries|
    ensures EntryErrors(h, entries[..k + 1], rowNumber) ==
      EntryErrors(h, entries[..k], rowNumber) + FieldError(h, entries[k].0, entries[k].1, rowNumber)
  {
    assert entries[..k + 1][..k] == entries[..k];
  }

  /** The inner loop over `Object.entries(productData)`: one record per
      failing entry, in entry order. */
  method ValidateEntries(h: Host, entries: seq<(Field, Value)>, rowNumber: nat) returns (rowErrors: seq<RowError>)
    ensures rowErrors == EntryErrors(h, entries, rowNumber)
  {
    rowErrors := [];
    var k := 0;
    while k < |entries|
      invariant 0 <= k <= |entries|
      invariant rowErrors == EntryErrors(h, entries[..k], rowNumber)
    {
      EntryErrorsStep(h, entries, k, rowNumber);
      var error := ValidateEntry(h, entries[k].0, entries[k].1);
      if error.Some? {
        rowErrors := rowErrors + [RowError(rowNumber, error.value.field, error.value.message)];
      }
      k := k + 1;
    }
    assert entries[..k] == entries;
  }

  /** One more row extends the records, the count and the products by that
      row's share. */
  lemma ImportStep(h: Host, rows: seq<Row>, index: nat)
    requires index < |rows|
    ensures var d := MapRow(h, rows[index]);
      && ImportErrors(h, rows[..index + 1]) == ImportErrors(h, rows[..index]) + RowErrors(h, d, index + 1)
      && CountValid(h, rows[..index + 1]) == CountValid(h, rows[..index]) + (if RowValid(h, d) then 1 else 0)
      && ImportedProducts(h, rows[..index + 1]) ==
           ImportedProducts(h, rows[..index]) + (if RowValid(h, d) then [ToNewProduct(h, d)] else [])
  {
    assert rows[..index + 1][..index] == rows[..index];
  }

  datatype ImportStatus = ImportStatus(totalRows: nat, processed: nat, successful: nat, failed: nat, errors: seq<RowError>)

  /** The loop of `processFile`: maps and validates each row, records every
      failing field with its 1-based row number, hands each passing row to
      `addProduct` (returned here, in call order) and counts the outcomes. */
  method ProcessRows(h: Host, rows: seq<Row>) returns (status: ImportStatus, added: seq<Inventory.NewProduct>)
    ensures status.totalRows == |rows| && status.processed == |rows|
    ensures status.successful + status.failed == status.processed
    ensures status.successful == CountValid(h, rows) == |added|
    ensures status.errors == ImportErrors(h, rows)
    ensures added == ImportedProducts(h, rows)
  {
    status := ImportStatus(|rows|, 0, 0, 0, []);
    added := [];
    var index := 0;
    while index < |rows|
      invariant 0 <= index <= |rows|
      invariant status.totalRows == |rows| && status.processed == index
      invariant status.successful + status.failed == index
      invariant status.successful == CountValid(h, rows[..index]) == |added|
      invariant status.errors == ImportErrors(h, rows[..index])
      invariant added == ImportedProducts(h, rows[..index])
    {
      ImportStep(h, rows, index);
      var data := MapRow(h, rows[index]);
      var rowErrors := ValidateEntries(h, Entries(data), index + 1);
      var hasErrors := rowErrors != [];
      RowValidAt(h, data, index + 1);
      status := status.(errors := status.errors + rowErrors);
      if hasErrors {
        status := status.(failed := status.failed + 1);
      } else {
        added := added + [ToNewProduct(h, data)];
        status := status.(successful := status.successful + 1);
      }
      status := status.(processed := status.processed + 1);
      index := index + 1;
    }
    assert rows[..|rows|] == rows;
  }

  // ---------------------------------------------------------------------------
  // Properties of the import

  /** A row's records come in field order name, quantity, price, category,
      at most one per field, and the image never fails. */
  lemma RowErrorsInFieldOrder(h: Host, d: ProductData, n: nat)
    ensures RowErrors(h, d, n) ==
      FieldError(h, Name, d.name, n) + FieldError(h, Quantity, d.quantity, n) +
      FieldError(h, Price, d.price, n) + FieldError(h, Category, d.category, n)
  {
    var f := (entry: (Field, Value)) => FieldError(h, entry.0, entry.1, n);
    var es := Entries(d);
    assert es == [es[0]] + [es[1]] + [es[2]] + [es[3]] + [es[4]];
    Seqs.CollectConcat(f, [es[0]] + [es[1]] + [es[2]] + [es[3]], [es[4]]);
    Seqs.CollectConcat(f, [es[0]] + [es[1]] + [es[2]], [es[3]]);
    Seqs.CollectConcat(f, [es[0]] + [es[1]], [es[2]]);
    Seqs.CollectConcat(f, [es[0]], [es[1]]);
    assert forall x :: Seqs.Collect(f, [x]) == f(x) by {
      forall x ensures Seqs.Collect(f, [x]) == f(x) {
        assert [x][..0] == [];
      }
    }
    assert FieldError(h, Image, d.image, n) == [];
  }

  /** Every record names one of the four ruled fields. */
  lemma RowErrorFields(h: Host, d: ProductData, n: nat)
    ensures forall e :: e in RowErrors(h, d, n) ==> e.field in {"name", "quantity", "price", "category"}
  {
    RowErrorsInFieldOrder(h, d, n);
    var a, b, c, e := FieldError(h, Name, d.name, n), FieldError(h, Quantity, d.quantity, n),
      FieldError(h, Price, d.price, n), FieldError(h, Category, d.category, n);
    assert forall r :: r in a ==> r.field == "name";
    assert forall r :: r in b ==> r.field == "quantity";
    assert forall r :: r in c ==> r.field == "price";
    assert forall r :: r in e ==> r.field == "category";
  }

  /** Every record carries the 1-based number of an existing row, and the
      records are ordered by row. */
  lemma {:induction false} ImportErrorsOrdered(h: Host, rows: seq<Row>)
    ensures forall e :: e in ImportErrors(h, rows) ==> 1 <= e.row <= |rows|
    ensures forall i, j :: 0 <= i < j < |ImportErrors(h, rows)| ==>
      ImportErrors(h, rows)[i].row <= ImportErrors(h, rows)[j].row
  {
    if rows != [] {
      var n := |rows| - 1;
      ImportErrorsOrdered(h, rows[..n]);
      var init: seq<RowError> := ImportErrors(h, rows[..n]);
      var last: seq<RowError> := RowErrors(h, MapRow(h, rows[n]), n + 1);
      assert ImportErrors(h, rows) == init + last;
      forall i: int, j: int | 0 <= i < j < |init + last| ensures (init + last)[i].row <= (init + last)[j].row {
        if j >= |init| {
          assert (init + last)[j] in last;
          if i < |init| { assert (init + last)[i] in init; } else { assert (init + last)[i] in last; }
        }
      }
    }
  }

  /** One product is added per passing row, so the counters add up. */
  lemma {:induction false} AddedCountsValidRows(h: Host, rows: seq<Row>)
    ensures |ImportedProducts(h, rows)| == CountValid(h, rows) <= |rows|
  {
    if rows != [] {
      AddedCountsValidRows(h, rows[..|rows| - 1]);
    }
  }

  /** `p` is what the import adds for `row`. */
  predicate AddedFor(h: Host, row: Row, p: Inventory.NewProduct) {
    var d := MapRow(h, row);
    RowValid(h, d) && p == ToNewProduct(h, d)
  }

  /** Every product added comes from a row all of whose fields pass. */
  lemma RowProductsAdded(h: Host, row: Row, p: Inventory.NewProduct)
    requires p in RowProducts(h, row)
    ensures AddedFor(h, row, p)
  {
  }

  lemma AddedOnlyValidRows(h: Host, rows: seq<Row>)
    ensures forall p :: p in ImportedProducts(h, rows) ==> exists i :: 0 <= i < |rows| && AddedFor(h, rows[i], p)
  {
    forall p | p in ImportedProducts(h, rows)
      ensures exists i :: 0 <= i < |rows| && AddedFor(h, rows[i], p)
    {
      var i :| 0 <= i < |rows| && p in RowProducts(h, rows[i]);
      RowProductsAdded(h, rows[i], p);
    }
  }

  /** No alias of a row without truthy cells holds a truthy value. */
  lemma NoTruthyAlias(row: Row, aliases: seq<string>)
    requires forall c :: c in row ==> !Truthy(row[c])
    ensures forall i :: 0 <= i < |aliases| ==> !Truthy(Cell(row, aliases[i]))
  {
  }

  /** Where no alias column holds a truthy value, the name is '', the
      category is 'Uncategorized', quantity and price are parsed from 0 and
      the image is undefined. */
  lemma MissingColumnsDefaults(h: Host, row: Row)
    requires forall c :: c in row ==> !Truthy(row[c])
    ensures MapRow(h, row).name == Str("")
    ensures MapRow(h, row).category == Str("Uncategorized")
    ensures MapRow(h, row).quantity == Number(h.parseInt(Number(Fin(0.0))))
    ensures MapRow(h, row).price == Number(h.parseFloat(Number(Fin(0.0))))
    ensures MapRow(h, row).image == Undefined
  {
    NoTruthyAlias(row, NameAliases);
    NoTruthyAlias(row, QuantityAliases);
    NoTruthyAlias(row, PriceAliases);
    NoTruthyAlias(row, CategoryAliases);
    NoTruthyAlias(row, ImageAliases);
  }

  /** So such a row's first record is "Name is required". */
  lemma MissingNameFirstError(h: Host, row: Row)
    requires forall c :: c in row ==> !Truthy(row[c])
    ensures RowErrors(h, MapRow(h, row), 1) != []
    ensures RowErrors(h, MapRow(h, row), 1)[0] == RowError(1, "name", "Name is required")
  {
    var d := MapRow(h, row);
    MissingColumnsDefaults(h, row);
    RowErrorsInFieldOrder(h, d, 1);
    assert FieldError(h, Name, d.name, 1) == [RowError(1, "name", "Name is required")];
  }
}
