# Storigo inventory dashboard: verified model of its front-end logic

This project models the logic behind the Storigo inventory dashboard's React
front end, written in Dafny:

- the product validation rules and the stock-level classifier;
- the product and user stores (the two React contexts);
- the reusable inline-edit hook and the product table's own cell editor;
- the row loop of the spreadsheet import;
- the header search box with its keyboard cursor;
- the dashboard's low-stock alert;
- the placeholder QR grid and the barcode caption of the label generator.

Each store, hook or component whose state React updates is a `class`. Its
fields are the component's state variables, and its methods are the
handlers, each with the whole new state in its `ensures`. Pure computations
(validation, filtering, sorting, the QR grid) are functions. Lemmas state
what the components promise about them.

JavaScript values are modelled in `JsValues`:

- a `Value` is undefined, null, a boolean, a number, a string or an object;
- a number is NaN, an infinity, or an exact real.

The rules look at values only through the engine's conversions:

- `Number(string)`;
- `toLowerCase` and `toUpperCase`;
- `localeCompare`;
- `parseInt` and `parseFloat`;
- template-literal formatting.

These conversions are fields of a `Host` value that every operation takes as
a parameter, so every property holds for every engine. A property that needs
an assumption about one of them states it as a `requires`. For example,
`SortedProductsOrder` requires a collation that is total and transitive.

Calls into code owned by the caller are handled the same way:

- The `onSave` callback is reported by the method that makes it (`SaveCall`), and its reply is a parameter.
- Navigation is reported as the selected item.
- Ids and clocks are parameters.

The spreadsheet import validates each entry with `ValidateEntry`, which
dispatches on the field. `Inventory.ValidateEntryAgrees` proves that this is
`validateProduct` applied to the field's property name.

## Model

| member | source | states |
|---|---|---|
| Validators.ValidateName | src/utils/validators.ts:8-18 | a name passes exactly when it is a string of 2 to 100 characters; an error names the field |
| Validators.ValidatePrice | src/utils/validators.ts:20-34 | a price passes exactly when it is present and converts to a finite number from 0 to 1,000,000 |
| Validators.ValidateQuantity | src/utils/validators.ts:36-50 | a quantity passes exactly when it is present and converts to a whole number from 0 to 100,000 |
| Validators.ValidateCategory | src/utils/validators.ts:52-62 | a category passes exactly when it is a string of 2 to 50 characters |
| Validators.ValidateProduct | src/utils/validators.ts:3-67 | the error always names the given field; fields without rules always pass; for each ruled field, the exact acceptance condition (both directions) |
| Validators.ValidateFollowsRules | src/utils/validators.ts:3-67 | the validator reports exactly the first rule, in the field's listed order, that the value breaks, with that rule's message |
| Validators.TextFollowsRules | src/utils/validators.ts:8-62 | the name and category cases check "required", then the minimum, then the maximum length, in that order |
| Validators.NumberFollowsRules | src/utils/validators.ts:20-50 | the price and quantity cases check presence, then the kind of number, then the sign, then the upper bound, in that order |
| Validators.QuantityExamples | src/utils/validators.ts:36-50 | -2.5 is reported as not whole (not as negative); -2 as negative; 0 and 100,000 pass; 100,001 is too high |
| Validators.PriceExamples | src/utils/validators.ts:20-34 | NaN is "not a number"; -0.01 is negative; 1,000,001 is too high; '' is missing |
| Validators.NameExamples | src/utils/validators.ts:8-18 | "A" is too short; '' and a number are missing; "AB" passes |
| Validators.GetStockLevel | src/utils/validators.ts:69-74 | out exactly for at most 0, low for (0, 5], medium for (5, 20], high above 20; minus infinity is out; plus infinity and NaN are high |
| Validators.StockLevelMonotone | src/utils/validators.ts:69-74 | a larger quantity never gets a lower stock level |
| JsValues.ToNumber | src/utils/validators.ts:24-46 | `Number(v)` keeps a number, gives 0 for null and NaN for undefined |
| JsValues.TrimDropsOnlySpace | src/components/search/SearchBar.tsx:21 | trimming removes only leading and trailing white space; the result is a slice of the input with no space at either end; it is empty exactly for all-space input |
| Inventory.ValidateEntry | src/contexts/InventoryContext.tsx:43-46 | an entry's error names that entry's field; the image is never rejected |
| Inventory.ValidateEntryAgrees | src/contexts/InventoryContext.tsx:65-67 | validating a field equals `validateProduct` on its property name |
| Inventory.UpdateErrors | src/contexts/InventoryContext.tsx:41-48 | no more errors than entries; no error exactly when every entry is valid |
| Inventory.UpdateErrorsFromEntries | src/contexts/InventoryContext.tsx:43-46 | every collected error is the error of one of the entries |
| Inventory.SingleUpdateErrors | src/contexts/InventoryContext.tsx:43-46 | updating one field yields at most one error, about that field |
| Inventory.MergeFields | src/contexts/InventoryContext.tsx:53 | after the merge, each updated field holds its last new value and every other field is unchanged; id and creation time are kept; the update time is `now` |
| Inventory.Merge | src/contexts/InventoryContext.tsx:53 | `{ ...product, ...updates, updatedAt: now }`: the entries applied in order, then the update time set; its meaning is stated by `MergeFields` |
| Inventory.UpdateAll | src/contexts/InventoryContext.tsx:50-56 | the list keeps its length; products with the id are merged and the others are left as they were |
| Inventory.UnknownIdChangesNothing | src/contexts/InventoryContext.tsx:50-56 | an update for an id no product has leaves the list unchanged |
| Inventory.Find | src/contexts/InventoryContext.tsx:69-71 | returns nothing exactly when no product has the id; otherwise the first product with the id |
| Inventory.Search | src/contexts/InventoryContext.tsx:73-79 | keeps exactly the products whose lower-cased name or category contains the lower-cased query, in list order, each as often as it occurs |
| Inventory.ByCategory | src/contexts/InventoryContext.tsx:81-84 | an empty category returns the list itself; otherwise exactly the products of that category, in order |
| Inventory.InventoryStore.constructor | src/contexts/InventoryContext.tsx:20-25 | the store starts with the initial products |
| Inventory.InventoryStore.AddProduct | src/contexts/InventoryContext.tsx:27-37 | appends exactly one product with the given id, stamped with `now` as both creation and update time |
| Inventory.InventoryStore.ValidateField | src/contexts/InventoryContext.tsx:65-67 | the error names the given field |
| Inventory.InventoryStore.UpdateProduct | src/contexts/InventoryContext.tsx:39-59 | returns errors exactly when some entry is invalid; the errors are all of them, in entry order, and the store is then unchanged; otherwise returns null and merges the updates into every product with the id |
| Inventory.InventoryStore.DeleteProduct | src/contexts/InventoryContext.tsx:61-63 | keeps, in order, exactly the products with a different id |
| Inventory.InventoryStore.GetProduct | src/contexts/InventoryContext.tsx:69-71 | the first stored product with the id, or nothing exactly when none has it |
| Inventory.InventoryStore.SearchProducts | src/contexts/InventoryContext.tsx:73-79 | exactly the stored products matching the query |
| Inventory.InventoryStore.FilterProductsByCategory | src/contexts/InventoryContext.tsx:81-84 | all products for an empty category, otherwise exactly those of the category |
| Users.ApplyToUser | src/contexts/UserContext.tsx:92 | `{ ...user, ...updates }`: the changes applied in order; its meaning is stated by `ApplyToUserFields` |
| Users.ApplyToAuth | src/contexts/UserContext.tsx:99 | `{ ...currentUser, ...updates }`: the changes applied in order; its meaning is stated by `ApplyToAuthFields` |
| Users.ApplyToUserFields | src/contexts/UserContext.tsx:92 | each of name, email, role and avatar holds the last value the updates set for it, or is unchanged when none does; id and creation time are kept |
| Users.ApplyToAuthFields | src/contexts/UserContext.tsx:99 | the same for the session user: each field takes its last updated value, and the id is kept |
| Users.MergeCommutesWithSession | src/contexts/UserContext.tsx:88-103 | merging the updates into the session user gives the session copy of the merged stored user; the id and creation time are kept |
| Users.ToAuth | src/contexts/UserContext.tsx:55-61 | the session copy of a user: its id, name, email, role and avatar |
| Users.FindByEmail | src/contexts/UserContext.tsx:52 | nothing exactly when no email matches case-insensitively; otherwise the first match |
| Users.FindById | src/contexts/UserContext.tsx:114-116 | nothing exactly when no user has the id; otherwise the first user with the id |
| Users.UpdateMatching | src/contexts/UserContext.tsx:89-95 | the list keeps its length; users with the id get the updates and the others are left as they were |
| Users.SessionFollowsUpdate | src/contexts/UserContext.tsx:88-103 | a session user that mirrors a stored user still mirrors it after that user is updated |
| Users.UserStore.constructor | src/contexts/UserContext.tsx:33-47 | the initial users are loaded and a saved session is restored; signed in exactly when one was saved |
| Users.UserStore.Login | src/contexts/UserContext.tsx:49-70 | succeeds exactly when some user's email matches case-insensitively, whatever the password; the first match becomes the session user and is saved; a failure changes nothing |
| Users.UserStore.Logout | src/contexts/UserContext.tsx:72-76 | signed out, and the saved session is cleared |
| Users.UserStore.AddUser | src/contexts/UserContext.tsx:78-86 | appends exactly one user with the given id and creation time; the session is unchanged |
| Users.UserStore.UpdateUser | src/contexts/UserContext.tsx:88-103 | users with the id are updated; the session user is merged and saved exactly when it has that id |
| Users.UserStore.DeleteUser | src/contexts/UserContext.tsx:105-112 | removes exactly the users with the id, keeping the order of the rest; signs out exactly when the session user had that id |
| Users.UserStore.GetUser | src/contexts/UserContext.tsx:114-116 | the first stored user with the id, or nothing exactly when none has it |
| InlineEditHook.InlineEdit.constructor | src/hooks/useInlineEdits.ts:21-23 | not editing, no errors, and the edited value is the prop value |
| InlineEditHook.InlineEdit.PropChanged | src/hooks/useInlineEdits.ts:32-34 | a changed prop value overwrites the edited value, even during an edit |
| InlineEditHook.InlineEdit.StartEditing | src/hooks/useInlineEdits.ts:36-40 | editing the prop value, with no errors |
| InlineEditHook.InlineEdit.CancelEdit | src/hooks/useInlineEdits.ts:42-47 | not editing; the edited value is the current prop value; no errors; `onCancel` runs exactly when given |
| InlineEditHook.InlineEdit.HandleChange | src/hooks/useInlineEdits.ts:49-53 | the edited value is the new value, and the errors are exactly its validation result |
| InlineEditHook.InlineEdit.SaveEdit | src/hooks/useInlineEdits.ts:55-63 | with pending errors nothing happens and nothing is called; otherwise `onSave(id, field, value)` is called once; a non-empty error reply keeps the edit open with those errors; null or an empty list closes it |
| InlineEditHook.InlineEdit.HandleKeyDown | src/hooks/useInlineEdits.ts:65-68 | Enter saves, Escape cancels, and any other key changes nothing |
| InlineEditHook.CancelAfterInvalidChange | src/hooks/useInlineEdits.ts:36-53 | after starting, typing an invalid value and cancelling, the prop value is back with no errors |
| InlineEditHook.SaveWithPendingErrors | src/hooks/useInlineEdits.ts:49-63 | saving an invalid typed value calls nothing and keeps the edit open with its error |
| InlineEditHook.ChangeTwice | src/hooks/useInlineEdits.ts:49-53 | typing the same value twice leaves the same state as once |
| InlineEditHook.SaveRightAfterStart | src/hooks/useInlineEdits.ts:36-63 | starting and saving at once calls `onSave` with the shown value and closes the edit |
| ProductTable.TableEditor.constructor | src/components/inventory/ProductTable.tsx:18-24 | idle: no cell is edited |
| ProductTable.TableEditor.Reset | src/components/inventory/ProductTable.tsx:18-24 | back to the all-null idle state |
| ProductTable.TableEditor.StartEditing | src/components/inventory/ProductTable.tsx:50-52 | exactly the given cell is edited, starting from its value, with no errors |
| ProductTable.TableEditor.HandleEditChange | src/components/inventory/ProductTable.tsx:54-57 | the value is replaced and the errors are its validation for the edited field; the cell is unchanged |
| ProductTable.TableEditor.SaveEdit | src/components/inventory/ProductTable.tsx:59-72 | pending errors drop the edit without touching the store; otherwise the store is updated with the one field, and the table goes idle on success or keeps the cell open with the store's errors |
| ProductTable.TableEditor.CancelEdit | src/components/inventory/ProductTable.tsx:74-76 | back to idle; nothing is restored from the original value |
| ProductTable.TableEditor.HandleKeyDown | src/components/inventory/ProductTable.tsx:78-81 | Enter saves; Escape goes idle without touching the store; any other key changes nothing |
| ProductTable.AtMostOneCellEdits | src/components/inventory/ProductTable.tsx:103 | at most one cell is in edit mode |
| ProductTable.TableEditor.IsEditing | src/components/inventory/ProductTable.tsx:103 | a cell is edited when both the edited id and the edited field are its own |
| ProductTable.SortedProducts | src/components/inventory/ProductTable.tsx:153-159 | the rows are a permutation of the products |
| ProductTable.Compare | src/components/inventory/ProductTable.tsx:153-159 | the comparator: the difference of the two stock-level ranks, or the collation of the names when the ranks are equal |
| ProductTable.SortedProductsOrder | src/components/inventory/ProductTable.tsx:153-159 | with a consistent collation: out-of-stock first, then low, medium and high, and by name within a level |
| FileImport.FirstTruthy | src/components/import/FileImport.tsx:100-106 | the first truthy alias cell, or the fallback exactly when no alias cell is truthy |
| FileImport.MapRow | src/components/import/FileImport.tsx:100-106 | each field is its first truthy alias cell or its default; so name, category and image are their default or truthy, and quantity and price are always numbers (`parseInt`, `parseFloat`) |
| FileImport.Entries | src/components/import/FileImport.tsx:110 | `Object.entries(productData)`: five entries, one per field, no field twice, in insertion order |
| FileImport.EntryErrors | src/components/import/FileImport.tsx:108-120 | every record carries the row's number |
| FileImport.EntryErrorsEmpty | src/components/import/FileImport.tsx:108-120 | no record exactly when every entry passes |
| FileImport.RowValidAt | src/components/import/FileImport.tsx:108-122 | whether a row passes does not depend on its number |
| FileImport.ValidateEntries | src/components/import/FileImport.tsx:109-120 | the loop over the entries collects exactly the row's records, in entry order |
| FileImport.ImportStep | src/components/import/FileImport.tsx:98-131 | one more row appends its own records, adds its product exactly when it passed, and counts it |
| FileImport.ProcessRows | src/components/import/FileImport.tsx:89-131 | every row is processed; successful plus failed equals processed; successful equals the number of valid rows and of products added; the errors are every row's records in order; the products added are those of the valid rows, in row order |
| FileImport.RowErrorsInFieldOrder | src/components/import/FileImport.tsx:110-120 | a row's records are name, quantity, price, category, image, in that order |
| FileImport.RowErrorFields | src/components/import/FileImport.tsx:110-120 | a record is only ever about name, quantity, price or category |
| FileImport.ImportErrorsOrdered | src/components/import/FileImport.tsx:113-117 | row numbers run from 1 to the number of rows and never decrease |
| FileImport.AddedCountsValidRows | src/components/import/FileImport.tsx:122-127 | exactly as many products are added as rows passed, never more than the rows |
| FileImport.AddedOnlyValidRows | src/components/import/FileImport.tsx:122-127 | every added product comes from a row that passed and is that row's mapped data |
| FileImport.MissingColumnsDefaults | src/components/import/FileImport.tsx:100-106 | a row with no truthy cell maps to the defaults: '' name, "Uncategorized", parsed 0 quantity and price, no image |
| FileImport.MissingNameFirstError | src/components/import/FileImport.tsx:100-117 | such a row fails, and its first record is "Name is required" for row 1 |
| SearchBar.Hits | src/components/search/SearchBar.tsx:33-38 | exactly the products whose id equals the term or whose name contains it, in product order, each as often as it occurs |
| SearchBar.Hit | src/components/search/SearchBar.tsx:35-37 | a product is found when its lower-cased id equals the term or its lower-cased name contains it |
| SearchBar.SearchResults | src/components/search/SearchBar.tsx:33-40 | the items of the first eight hits (all of them when fewer), in order |
| SearchBar.ResultsAreHits | src/components/search/SearchBar.tsx:33-40 | at most eight results, and each is the item of a hit |
| SearchBar.FewResultsShowAllHits | src/components/search/SearchBar.tsx:33-40 | when fewer than eight results are shown, every hit is among them |
| SearchBar.ResultsInProductOrder | src/components/search/SearchBar.tsx:33-40 | the results are the items of a subsequence of the products |
| SearchBar.JsRemainder | src/components/search/SearchBar.tsx:73-74 | `%` truncates: undefined (NaN) exactly for a zero divisor; the result has the dividend's sign and is smaller than the divisor |
| SearchBar.CursorDown | src/components/search/SearchBar.tsx:73 | `(i + 1) % results.length`, NaN without results; its meaning is stated by `CursorWraps` and `CursorStaysOnResults` |
| SearchBar.CursorUp | src/components/search/SearchBar.tsx:74 | `(i - 1 + results.length) % results.length`, NaN without results; its meaning is stated by `CursorWraps` and `CursorStaysOnResults` |
| SearchBar.CursorWraps | src/components/search/SearchBar.tsx:73-74 | ArrowDown moves to the next result and wraps from the last to the first; ArrowUp does the reverse |
| SearchBar.CursorUpUndoesDown | src/components/search/SearchBar.tsx:73-74 | ArrowUp undoes ArrowDown and vice versa |
| SearchBar.CursorWithoutResults | src/components/search/SearchBar.tsx:73-74 | with no results either arrow makes the cursor NaN |
| SearchBar.CursorStaysOnResults | src/components/search/SearchBar.tsx:73-74 | a cursor on a result stays on one after either arrow |
| SearchBar.SearchBox.constructor | src/components/search/SearchBar.tsx:12-16 | empty query and results, closed, cursor 0 |
| SearchBar.SearchBox.Type | src/components/search/SearchBar.tsx:92 | only the query changes |
| SearchBar.SearchBox.RunSearch | src/components/search/SearchBar.tsx:23-48 | a blank query empties and closes the list; any other query shows its results, opens the list and puts the cursor on the first row |
| SearchBar.SearchBox.GoToItem | src/components/search/SearchBar.tsx:59-64 | navigates to the item, closes the list and clears the query |
| SearchBar.SearchBox.Focus | src/components/search/SearchBar.tsx:93 | reopens the list exactly when it has results |
| SearchBar.SearchBox.Hover | src/components/search/SearchBar.tsx:114 | the cursor moves to the hovered row |
| SearchBar.SearchBox.HandleKey | src/components/search/SearchBar.tsx:66-81 | when closed, ArrowDown or Enter with results only opens the list and other keys do nothing; when open, the arrows move the cursor, Escape closes, and Enter goes to the highlighted result if there is one |
| SearchBar.SearchThenEnter | src/components/search/SearchBar.tsx:23-81 | a search followed by Enter goes to the first result, or keeps the list open when nothing was found |
| SearchBar.SearchThenArrowUp | src/components/search/SearchBar.tsx:23-74 | ArrowUp right after a search wraps to the last result, or makes the cursor NaN when there are none |
| SearchBar.ClearThenKeys | src/components/search/SearchBar.tsx:25-71 | after a blank query, no key opens the list or selects anything |
| LowStockAlert.LowStockMeansAtMostFive | src/components/dashboard/LowStockAlert.tsx:12 | low or out of stock exactly when the quantity is at most 5 |
| LowStockAlert.QtyLeOnLowStock | src/components/dashboard/LowStockAlert.tsx:13 | on low-stock products the comparator means "quantity at most" |
| LowStockAlert.QtyLe | src/components/dashboard/LowStockAlert.tsx:13 | the comparator `a.quantity - b.quantity` as the sort reads it: `a` may precede `b` when the difference is not positive, a NaN difference counting as 0 |
| LowStockAlert.LowStockProducts | src/components/dashboard/LowStockAlert.tsx:11-13 | a permutation of exactly the low- and out-of-stock products |
| LowStockAlert.LowStockSorted | src/components/dashboard/LowStockAlert.tsx:11-13 | the list runs from the smallest quantity to the largest |
| LowStockAlert.OutBeforeLow | src/components/dashboard/LowStockAlert.tsx:11-13 | out-of-stock products come before low ones |
| LowStockAlert.View | src/components/dashboard/LowStockAlert.tsx:15-43 | the "well stocked" card exactly when no product is low; otherwise a count badge equal to the number of rows |
| LowStockAlert.BadgeText | src/components/dashboard/LowStockAlert.tsx:80 | "Out of stock" for the number 0, otherwise the rendered quantity and " left"; stated by `BadgeOutOfStockIffZero` |
| LowStockAlert.BadgeOutOfStockIffZero | src/components/dashboard/LowStockAlert.tsx:75-80 | "Out of stock" exactly for the number 0; otherwise the text ends in " left" |
| LowStockAlert.OutLevelWithLeftBadge | src/components/dashboard/LowStockAlert.tsx:12-80 | a negative quantity, or the string "0", is out of stock by level yet its badge reads "… left" |
| QRBarcode.Grid | src/components/qr/QRBarcodeGenerator.tsx:16-46 | 21 rows of 21 modules |
| QRBarcode.Dark | src/components/qr/QRBarcodeGenerator.tsx:24-41 | whether one module is dark: the corner, timing and data rules, tested in that order |
| QRBarcode.CreateQRPattern | src/components/qr/QRBarcodeGenerator.tsx:16-46 | 21 rows of 21 modules, each dark exactly as the corner, timing and data rules say |
| QRBarcode.PatternIsGrid | src/components/qr/QRBarcodeGenerator.tsx:16-46 | the built pattern depends only on the text's length |
| QRBarcode.TopLeftFinder | src/components/qr/QRBarcodeGenerator.tsx:24-31 | the top-left block is a dark ring, a light ring and a dark 3 x 3 centre |
| QRBarcode.OtherCornersAreStripes | src/components/qr/QRBarcodeGenerator.tsx:24-31 | the top-right block is dark only on rows 0 and 6, and the bottom-left only on columns 0 and 6 |
| QRBarcode.TimingAlternates | src/components/qr/QRBarcodeGenerator.tsx:34-36 | outside the corners, row 6 and column 6 alternate dark and light |
| QRBarcode.DataModules | src/components/qr/QRBarcodeGenerator.tsx:38-41 | a data module depends only on its column and the text length |
| QRBarcode.GridPeriodThree | src/components/qr/QRBarcodeGenerator.tsx:38-41 | texts whose lengths differ by three get the same grid |
| QRBarcode.StripSpaces | src/components/qr/QRBarcodeGenerator.tsx:102 | stripping never lengthens the text and leaves no white space |
| QRBarcode.StripSpacesMembers | src/components/qr/QRBarcodeGenerator.tsx:102 | exactly the characters that are not white space remain |
| QRBarcode.StripSpacesIdempotent | src/components/qr/QRBarcodeGenerator.tsx:102 | stripping twice is stripping once |
| QRBarcode.StripSpacesConcat | src/components/qr/QRBarcodeGenerator.tsx:102 | stripping distributes over concatenation |
| QRBarcode.CaptionSource | src/components/qr/QRBarcodeGenerator.tsx:102 | at most 12 characters, none of them white space; the prefix of the stripped text, and all of it when shorter |
| QRBarcode.CaptionSourceIdempotent | src/components/qr/QRBarcodeGenerator.tsx:102 | taking the caption source twice is taking it once |
| QRBarcode.CaptionIgnoresSpaces | src/components/qr/QRBarcodeGenerator.tsx:102 | white space before or after the text does not change the caption |
| QRBarcode.Caption | src/components/qr/QRBarcodeGenerator.tsx:102 | the caption source, uppercased by the engine |
| QRBarcode.LabelText | src/components/qr/QRBarcodeGenerator.tsx:299-300 | the text both codes are generated for: the name, a dash and the id |
| QRBarcode.LabelCaptionSource | src/components/qr/QRBarcodeGenerator.tsx:299-300 | a product's caption source is its name and id without white space, joined by the dash, cut to twelve characters |
| Seqs.Filter | src/contexts/InventoryContext.tsx:62 | `filter` keeps exactly the elements satisfying the test, in order, each as often as in the input |
| Seqs.SortBy | src/components/dashboard/LowStockAlert.tsx:13 | `sort` returns a permutation of its input |
| Seqs.SortBySorted | src/components/inventory/ProductTable.tsx:153-159 | with a total preorder as comparator, the result is sorted |

## Left out

- `formatCurrency` (src/utils/validators.ts:76-82) is left out. It is a call to the engine's `Intl.NumberFormat`, with no logic of its own.
- Numbers are exact reals with NaN and the two infinities. IEEE rounding, `-0` and the 2^53 integer limit are not modelled.
- Strings are sequences of characters. UTF-16 code units, case mapping and collation are host functions, not definitions.
- `Number(string)`, `parseInt`, `parseFloat`, `toLowerCase`, `toUpperCase`, `localeCompare` and template-literal formatting are host parameters. A property needing a fact about one of them requires it.
- Inventory.InventoryStore.UpdateProduct: only the editable fields (name, quantity, price, category, image) can be updated. An `updates` object carrying `id`, `createdAt` or an unknown key is not modelled.
- Users.UserStore.UpdateUser: the updates are limited to name, email, role and avatar, so the session user never gains fields it does not have.
- Local storage and JSON are a `saved` field holding the session user, with exact round trips. A corrupt saved entry and its removal are not modelled.
- Random ids (`Math.random`) and `new Date()` are parameters of the methods that use them.
- Reading and parsing the file is left out: the CSV and Excel parsers, `file.text()` and `arrayBuffer()`, and the `try/catch/finally` around them. The import loop is given the parsed rows.
- The status snapshots pushed to the UI after each row (`setImportStatus`) are left out. Only the final status is modelled, and the `isProcessing` flag is not modelled.
- FileImport.ValidateEntries: the `hasErrors` flag is modelled as "the row's list of records is non-empty", which is what it records.
- The search box's `loading` flag, the 200 ms debounce, and React's effect scheduling are left out. The search effect is a method called with the debounced text.
- The route change `navigate(...)` made by `goToItem` is the returned item. Focus handling, click-outside closing and the context menu are left out.
- ProductTable.SortedProducts: stability of `Array.prototype.sort` is not stated. The model sorts with a stable insertion sort, and only the permutation and the order are proved.
- Objects are compared by the value they carry. JavaScript's reference identity of objects is not modelled.
- The product card's `onSave` callbacks for price and quantity convert the committed value with `Number(...)` before calling `updateProduct` (src/components/inventory/ProductCard.tsx:26, :35). The hook's `onSave` is left to the caller (a reported `SaveCall` plus a reply), so this conversion is not modelled.
- The barcode's random bar widths, canvas drawing and the print window are left out.
- The QR grid is modelled exactly as drawn. It is not a symbol of ISO/IEC 18004 and encodes nothing.
