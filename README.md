# autoparts catalog core in Dafny

A model of the catalog-integrity core of the autoparts backend (Go, module
`github.com/hsrvms/autoparts`) with proofs of its guarantees.

The model covers these parts:

- **Barcode codec** (`pkg/barcode/barcode.go`). `Generate` builds an
  eleven-character code `XXnnnnnnYYv`:
  - a two-letter upper-cased category prefix;
  - the item id printed with `%06d`;
  - the year modulo 100 printed with `%02d`;
  - a weighted-sum check digit (weights 3,1,3,1,…, the character codes summed, and the digit that brings the sum to a multiple of ten).

  `Validate` checks the length, the `^[A-Z]{2}\d{6}\d{2}\d{1}$` shape and the check digit.
- **Inventory service** (`internal/modules/inventory/services/service.go`):
  - item validation;
  - unique part numbers and barcodes on create and update;
  - the many-to-many compatibility relation between items and vehicle submodels, where no (item, submodel) pair appears twice;
  - the listing of active items compatible with a submodel, in part-number order.
- **Vehicle service** (`internal/modules/vehicles/services/service.go`): the make → model → submodel hierarchy.
  - A parent must exist when a child is created or moved to another parent.
  - A make with models, or a model with submodels, cannot be deleted.
  - Submodel fields and year ranges are validated.
- **Supplier service** (`internal/modules/suppliers/services/service.go`):
  - exact-name uniqueness;
  - a delete whose associated-items guard is a stub that always answers "no items".
- **Sales and purchase services** (`internal/modules/sales/services/service.go`,
  `internal/modules/purchases/services/service.go`):
  - validation against the clock;
  - uniqueness of a supplied transaction or invoice number;
  - on `Create`, the date and total defaults written back into the caller's record;
  - on `Update`, the total always recomputed.

## How the model is built

- Each core file is one Dafny module: `Barcode`, `Inventory`, `Vehicles`, `Suppliers`, `Sales`, `Purchases`.
- Shared value types live in `Common` (`common.dfy`):
  - `Result` and `Outcome` for Go's `(T, error)` and `error` returns;
  - `Option` for pointer fields;
  - `Date` for `time.Time` and its zero value.
- Each service is a class.
  - An `int`-keyed `map` stands for each repository table.
  - A next-id counter per table stands for the table's sequence.
  - Methods `modifies this` and state every error case in the order the source checks them.
  - Each method gives both directions of "succeeds if and only if".
  - A failing call provably changes nothing (`unchanged`).
  - A successful call states the whole new state.
- Each class has a `Valid()` predicate for the integrity the service keeps, and every method preserves it:
  - ids agree with their keys;
  - stored rows pass validation;
  - part numbers, supplier names, non-empty barcodes, transaction numbers and invoice numbers are unique;
  - no (item, submodel) pair is linked twice;
  - every model's make and every submodel's model is stored.
- The sales and purchase services change the caller's struct (`sale.Date = …`, `sale.TotalPrice = …`).
  - That struct is a `SaleRef` or `PurchaseRef` object, and the methods `modifies` it as well.
- The barcode functions work on bytes (`newtype byte`).
- `calculateCheckDigit` is a loop. It becomes the method `CalculateCheckDigit`, proved equal to the function `CheckDigit`, which `Generate` and `Validate` use.
- The wall clock is a parameter: `year` for `Generate` and `now` for the sales and purchase services.

Behaviours the model keeps as the code has them:

- `Sales.SaleService.Update` re-checks the transaction number whenever it differs from the stored one, including a change to the empty string.
  - Clearing the number therefore fails with `DuplicateTransactionNumber` while another sale has an empty number.
  - `Create` never checks an empty number.
  - The uniqueness invariant therefore covers only non-empty numbers.
- `Suppliers.SupplierService.Delete` never returns `SupplierHasItems`, because `checkSupplierHasItems` always answers false.
- `Inventory.InventoryService.GetCompatibilities` and `AddCompatibility` check no submodel existence. `GetCompatibilities` does not check that the item exists either.
- `Vehicles.VehicleService.CreateModel` has no id guard. A non-positive make id reaches the lookup and yields `MakeNotFound`.

## Model

| member | source | states |
|---|---|---|
| Barcode.CheckDigit | pkg/barcode/barcode.go:68-79 | the check digit is a decimal digit, and adding it to the weighted sum of the base code gives a multiple of ten |
| Barcode.CalculateCheckDigit | pkg/barcode/barcode.go:68-79 | the accumulating loop over the base code returns exactly `CheckDigit` (loop invariant: the running sum is the weighted sum of the prefix read so far) |
| Barcode.Generate | pkg/barcode/barcode.go:24-46 | fails with "category name too short" exactly when the name has fewer than two characters; otherwise the code starts with the upper-cased first two characters |
| Barcode.FormatIntFixedWidth | pkg/barcode/barcode.go:33-36 | `%0<w>d` of a non-negative number below 10^w is exactly `w` digits and denotes that number |
| Barcode.GenerateLayout | pkg/barcode/barcode.go:19-46 | for `0 <= itemID <= 999999` the code has eleven characters: prefix, then six digits denoting the id, then two digits denoting year mod 100, then the check digit of the first ten |
| Barcode.Validate | pkg/barcode/barcode.go:49-65 | accepts exactly the codes of length eleven that match the pattern and whose weighted sum with the last digit's value is a multiple of ten |
| Barcode.GenerateThenValidate | pkg/barcode/barcode.go:24-65 | round trip: a generated code validates whenever the prefix upper-cases to letters and the id has at most six digits |
| Barcode.WeightedSumUpdate | pkg/barcode/barcode.go:68-77 | replacing one character shifts the weighted sum by the change times that position's weight |
| Barcode.CheckDigitDeterminedByResidue | pkg/barcode/barcode.go:78 | two base codes have the same check digit exactly when their weighted sums agree mod 10 |
| Barcode.UpperPrefix | pkg/barcode/barcode.go:26-30 | upper-casing keeps the length and commutes with taking a prefix, so the prefix is the upper-cased first two characters of the name |
| Barcode.UpperIdempotent | pkg/barcode/barcode.go:26 | upper-casing an already upper-cased name changes nothing |
| Barcode.SingleDigitErrorDetected | pkg/barcode/barcode.go:49-79 | changing any one digit (positions 2 to 10) of a valid code to another digit makes it invalid |
| Barcode.BrakesExample | pkg/barcode/barcode.go:24-65 | category "Brakes", item 42, year 2024 gives `BR000042248`, which validates |
| Barcode.LetterSubstitutionUndetected | pkg/barcode/barcode.go:49-65 | the check digit does not catch every letter change: `LR000042248` (B→L, weight 3, code difference 10) validates as well |
| Inventory.ValidateItem | internal/modules/inventory/services/service.go:249-269 | passes exactly on items with part number, description, positive prices and non-negative stock figures; each error is reported exactly when the checks before it pass and its own fails |
| Inventory.AddLinkCompatibleItems | internal/modules/inventory/repositories/postgres_repository.go:370-385 | a new link adds exactly its item to the submodel's compatible items when the item is stored and active, and nothing otherwise |
| Inventory.LexLeTotal | internal/modules/inventory/repositories/postgres_repository.go:384 | any two part numbers are ordered one way or the other |
| Inventory.LexLeTransitive | internal/modules/inventory/repositories/postgres_repository.go:384 | the part-number order is transitive |
| Inventory.InsertSorted | internal/modules/inventory/repositories/postgres_repository.go:384 | inserting into a part-number-sorted list keeps it sorted and adds exactly that row |
| Inventory.EnumerateByPartNumber | internal/modules/inventory/repositories/postgres_repository.go:384 | lists each row of a set once, in part-number order |
| Inventory.LinksOfItemOnePerSubmodel | internal/modules/inventory/repositories/postgres_repository.go:289-300 | when no pair is linked twice, the links listed for an item name each submodel at most once |
| Inventory.RemovePairRemovesOne | internal/modules/inventory/repositories/postgres_repository.go:352-367 | when no pair is linked twice, deleting a linked pair removes exactly one row and leaves the pair unlinked |
| Inventory.InventoryService.GetItemByID | internal/modules/inventory/services/service.go:56-70 | `InvalidItemID` for ids <= 0, `ItemNotFound` for absent ids, otherwise the stored item with that id, which passes validation |
| Inventory.InventoryService.CreateItem | internal/modules/inventory/services/service.go:88-115 | validation error, then duplicate part number, then duplicate supplied barcode; succeeds exactly when none applies, inserting the item under the next id and changing nothing else; keeps `Valid` |
| Inventory.InventoryService.UpdateItem | internal/modules/inventory/services/service.go:117-160 | id, validation, existence, then a changed part number or changed supplied barcode held by a different item; succeeds exactly when none of these fails; keeping one's own part number or barcode never conflicts; success replaces just that row |
| Inventory.InventoryService.DeleteItem | internal/modules/inventory/services/service.go:162-182 | id, then existence; success removes just that item, leaves the links, and the item is then listed as compatible with no submodel |
| Inventory.InventoryService.GetCompatibilities | internal/modules/inventory/services/service.go:189-195 | `InvalidItemID` for ids <= 0, otherwise exactly the stored links of the item |
| Inventory.InventoryService.AddCompatibility | internal/modules/inventory/services/service.go:197-227 | item id, submodel id, item existence, then `CompatibilityExists` exactly when the pair is already linked (the scan loop over the item's links); success adds one link under the next id |
| Inventory.InventoryService.RemoveCompatibility | internal/modules/inventory/services/service.go:229-238 | both id guards before any change; `CompatibilityNotFound` exactly when the pair is not linked; success removes exactly that one row |
| Inventory.InventoryService.GetCompatibleItems | internal/modules/inventory/services/service.go:240-246 | `InvalidSubmodelID` for ids <= 0; otherwise exactly the active stored items linked to the submodel, each once, sorted by part number |
| Vehicles.ValidateSubmodel | internal/modules/vehicles/services/service.go:364-387 | passes exactly on submodels with name, positive start year, engine type, positive displacement, fuel, transmission and body type; each error exactly when the earlier checks pass and its own fails |
| Vehicles.VehicleService.GetMakeByID | internal/modules/vehicles/services/service.go:58-72 | `InvalidMakeID`, `MakeNotFound`, or the stored make with that id |
| Vehicles.VehicleService.CreateMake | internal/modules/vehicles/services/service.go:74-81 | fails exactly on an empty name; success inserts under the next id |
| Vehicles.VehicleService.UpdateMake | internal/modules/vehicles/services/service.go:83-102 | id, name, existence in that order; success replaces just that make |
| Vehicles.VehicleService.DeleteMake | internal/modules/vehicles/services/service.go:104-128 | id, existence, then `MakeHasModels` exactly when some model refers to the make; success removes just that make and keeps every model's make stored |
| Vehicles.VehicleService.GetModelsByMake | internal/modules/vehicles/services/service.go:135-150 | `InvalidMakeID`, `MakeNotFound`, otherwise exactly the stored models of the make |
| Vehicles.VehicleService.GetModelByID | internal/modules/vehicles/services/service.go:152-166 | `InvalidModelID`, `ModelNotFound`, or the stored model, whose make is stored |
| Vehicles.VehicleService.CreateModel | internal/modules/vehicles/services/service.go:168-184 | empty name, then absent make; success inserts under the next id |
| Vehicles.VehicleService.UpdateModel | internal/modules/vehicles/services/service.go:186-216 | id, name, existence; `MakeNotFound` exactly when the make id changed to an absent make, never when it is unchanged |
| Vehicles.VehicleService.DeleteModel | internal/modules/vehicles/services/service.go:218-242 | id, existence, then `ModelHasSubmodels` exactly when some submodel refers to the model; success removes just that model |
| Vehicles.VehicleService.GetSubmodelsByModel | internal/modules/vehicles/services/service.go:249-264 | `InvalidModelID`, `ModelNotFound`, otherwise exactly the stored submodels of the model |
| Vehicles.VehicleService.GetSubmodelByID | internal/modules/vehicles/services/service.go:266-280 | invalid id, `SubmodelNotFound`, or the stored submodel, which passes validation with a consistent year range |
| Vehicles.VehicleService.CreateSubmodel | internal/modules/vehicles/services/service.go:282-303 | validation error, absent model, then an end year before the start year; success inserts under the next id |
| Vehicles.VehicleService.UpdateSubmodel | internal/modules/vehicles/services/service.go:305-341 | id, validation, existence, a changed model id that is absent (never an unchanged one), then the year range; success replaces just that submodel |
| Vehicles.VehicleService.DeleteSubmodel | internal/modules/vehicles/services/service.go:343-361 | id, then existence; no dependency check, so every stored submodel can be deleted |
| Suppliers.ValidateSupplier | internal/modules/suppliers/services/service.go:143-149 | passes exactly on a non-empty name |
| Suppliers.CheckSupplierHasItems | internal/modules/suppliers/services/service.go:152-156 | reports no items for every supplier |
| Suppliers.SupplierService.GetByID | internal/modules/suppliers/services/service.go:40-54 | `InvalidSupplierID` for ids <= 0, `SupplierNotFound` for absent ids, otherwise the stored supplier |
| Suppliers.SupplierService.Create | internal/modules/suppliers/services/service.go:56-76 | empty name, then `DuplicateSupplierName` exactly when a stored supplier has the same name (the scan loop); success inserts under the next id and keeps names unique |
| Suppliers.SupplierService.Update | internal/modules/suppliers/services/service.go:78-113 | id, name, existence, then a changed name held by a different supplier; an unchanged name never conflicts |
| Suppliers.SupplierService.Delete | internal/modules/suppliers/services/service.go:115-140 | id, then existence; never `SupplierHasItems`; success removes just that supplier |
| Sales.ValidateSale | internal/modules/sales/services/service.go:173-194 | passes exactly on positive item id, quantity and unit price with a zero date or one not after `now`; each error exactly when the earlier checks pass and its own fails |
| Sales.WithDefaults | internal/modules/sales/services/service.go:82-90 | a zero date becomes `now`, a zero total becomes quantity × unit price, a supplied date or non-zero total is kept, and no other field changes |
| Sales.ValidSaleTotalPositive | internal/modules/sales/services/service.go:88-90 | a sale that passes validation has a positive computed total |
| Sales.DefaultsKeepValidity | internal/modules/sales/services/service.go:82-90 | filling in the defaults keeps a valid sale valid and leaves a non-zero total |
| Sales.DefaultsIdempotent | internal/modules/sales/services/service.go:82-90 | filling in the defaults a second time changes nothing |
| Sales.SaleService.GetByID | internal/modules/sales/services/service.go:49-63 | `InvalidSaleID`, `SaleNotFound`, or the stored sale |
| Sales.SaleService.Create | internal/modules/sales/services/service.go:65-93 | validation error, then `DuplicateTransactionNumber` exactly when a non-empty number is already stored; success writes the defaults into the caller's sale and stores it under the next id |
| Sales.SaleService.Update | internal/modules/sales/services/service.go:95-129 | id, validation, existence, then a changed number held by another sale; an unchanged number never conflicts; success sets the caller's total to quantity × unit price and replaces the row |
| Sales.SaleService.Delete | internal/modules/sales/services/service.go:131-146 | id, then existence; success removes just that sale |
| Purchases.ValidatePurchase | internal/modules/purchases/services/service.go:162-179 | passes exactly on positive supplier id, item id, quantity and unit cost with a zero date or one not after `now`; each error exactly when the earlier checks pass and its own fails |
| Purchases.WithDefaults | internal/modules/purchases/services/service.go:80-88 | a zero date becomes `now`, a zero total cost becomes quantity × unit cost, everything else is kept |
| Purchases.ValidPurchaseTotalPositive | internal/modules/purchases/services/service.go:85-88 | a purchase that passes validation has a positive computed total cost |
| Purchases.DefaultsKeepValidity | internal/modules/purchases/services/service.go:80-88 | filling in the defaults keeps a valid purchase valid and leaves a non-zero total cost |
| Purchases.DefaultsIdempotent | internal/modules/purchases/services/service.go:80-88 | filling in the defaults a second time changes nothing |
| Purchases.PurchaseService.GetByID | internal/modules/purchases/services/service.go:47-61 | `InvalidPurchaseID`, `PurchaseNotFound`, or the stored purchase |
| Purchases.PurchaseService.Create | internal/modules/purchases/services/service.go:63-91 | validation error, then `DuplicateInvoiceNumber` exactly when a supplied non-empty invoice is already stored; success writes the defaults into the caller's purchase and stores it |
| Purchases.PurchaseService.Update | internal/modules/purchases/services/service.go:93-128 | id, validation, existence, then a supplied invoice that is new or changed and held by another purchase; an unchanged or absent invoice never conflicts; success recomputes the caller's total cost and replaces the row |
| Purchases.PurchaseService.Delete | internal/modules/purchases/services/service.go:130-145 | id, then existence; success removes just that purchase |

## Left out

- Barcode.Generate: requires an ASCII category name. Go's Unicode `strings.ToUpper` and the byte slicing of multi-byte names are not modelled.
- Barcode.CalculateCheckDigit: walks the base code byte by byte, where Go's `range` over a string walks runes with their byte offsets. The two agree on ASCII, and only ASCII reaches it: `Validate` calls it after the pattern check, and `Generate` requires an ASCII name.
- Barcode.Generate: `time.Now().Year()` is the parameter `year` (a natural number).
- The clock in the sales and purchase services is the parameter `now`. `validateSale` and `validatePurchase` read the clock separately from the later default-date assignment. The model uses one reading for both.
- Prices, totals and displacements are `real`. IEEE rounding of `float64` is not modelled.
- Repository and database failures (connection errors, the `RowsAffected() == 0` errors of updates and deletes after a successful existence check) are not modelled. Neither is the gap between a check and the write that follows it (concurrent requests).
- Orderings the database chooses are not modelled: compatibility rows ordered by make, model and submodel name, and the orders of the model, submodel and supplier listings. Those queries return sets. `GetCompatibleItems` is sorted by part number, with character-code order standing for the database collation.
- Inventory.InventoryService.GetCompatibilities and AddCompatibility: the repository query inner-joins each link with its submodel, model and make, so a link whose submodel is missing would not be listed. The model has no vehicle tables in the inventory service and assumes every linked submodel exists. The foreign-key refusal of an insert naming an unknown submodel counts among the database failures that are not modelled.
- Inventory.InventoryService.DeleteItem: any database cascade on the item's compatibility, sale or purchase rows is not modelled (it is not in the service code). The links stay.
- Suppliers.SupplierService.Create and Update: the repository's `GetAll` search is not part of this model. The scan runs over all stored suppliers, and the service's exact-name test decides, as in the source.
- The category hierarchy is not part of this model: the cycle check, the tree view and the subcategory delete guard live in a service whose code is not available.
- Pass-through operations with no service logic are not modelled:
  - `GetAll…` and `GetItems`;
  - `GetItemByPartNumber` and `GetItemByBarcode` (an empty-argument guard, then the repository);
  - `GetLowStockItems`;
  - `GetByTransactionNumber`, `GetItemSales` and `GetCustomerSales`;
  - `GetSupplierPurchases` and `GetItemPurchases`.
- The sentinels `ErrInsufficientStock` and `ErrInvalidCustomerEmail` in the sales service are declared but never returned, so the model has no such errors.
- Timestamps (`created_at`, `updated_at`), names joined in for responses, and item columns the services never inspect (location, weight, dimensions, warranty, image, notes) are not in the datatypes.
- The random item-barcode generator (`internal/modules/inventory/services/barcode.go`) and barcode images are not modelled. They use randomness, the clock and image libraries.
