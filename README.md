# mobile-shop-erp, modelled in Dafny

This project models the core of a small point-of-sale and inventory system for a mobile phone shop: an
Express/Sequelize backend over SQLite and a React client.

**Stock and sales**
- The shop stocks serialized handsets, each identified by its IMEI. A handset's status is `in_stock` or `sold`.
- It also stocks accessories, which are tracked by quantity and have a reorder level.
- A sale is a header plus one line per cart entry.
- The **sale transaction engine** (`createSale` / `deleteSale`) is the centrepiece.
  - `createSale` sells each mobile by flipping its status.
  - It takes each accessory's units off its stock.
  - It writes a header carrying the sums of its lines.
  - It runs in one database transaction, so it is all-or-nothing.
  - `deleteSale` puts the stock back and removes the sale and its lines.

**Around the engine**
- The four models (`Mobile`, `Accessory`, `Sale`, `SaleItem`) and their field validators.
- The IMEI utilities: validation, the Luhn check digit, cleaning and formatting.
- The lifecycle guards of the mobile and customer endpoints, and their list filters and pagination.
- The client's pure logic: the new-sale cart, the mobile, accessory and customer forms, and the
  change-password strength meter and form.

**Modules, following the source**

| modules | what they hold |
|---|---|
| `Wrappers`, `Text` | `Option` and `Result`; JavaScript string primitives (`\s`, `trim`, `replace(/\s/g,'')`, `/^\d+$/`, `parseInt`, SQL `LIKE`) |
| `ImeiValidator` | `validateIMEI`, `luhnCheck`, `cleanIMEI`, `formatIMEI` |
| `MobileModel`, `AccessoryModel`, `SaleModel`, `SaleItemModel` | datatypes, field validators, instance methods; `MobileRecord` and `AccessoryRecord` are classes for the instances whose methods assign a field and save |
| `Database` | the `Store` class, which holds one map per table and the two key counters; `DbState` is the same content as a value |
| `SaleSpec` | `createSale` and `deleteSale` written as functions on `DbState` |
| `SaleController` | the same operations as imperative methods over the `Store`, with the loops of the source and snapshot-and-restore for the transaction |
| `SaleProofs` | what the engine guarantees |
| `Pagination`, `MobileController`, `CustomerController` | the list endpoints and the guarded writes |
| `FormInput`, `MobileForm`, `AccessoryForm`, `CustomerForm`, `ChangePassword`, `NewSale` | the client |

**Conventions**
- **Money** is integer cents. **Counts** are unbounded integers.
- **The database** is SQLite. DECIMAL columns therefore come back to JavaScript as numbers, which matters for the client's `||` fallbacks.
- **The transaction** is a snapshot of the whole `Store`, taken at the start and restored on every failure path, including the writes the model validators refuse.
  - The code's `catch` block reaches the restore through `StorageFailure`.
- **The store invariant** asks of each row only the checks that look at one column. Sequelize's `update` validates only the columns it changes, so `isGreaterThanPurchase` can be broken later by a change of `purchasePrice` alone. `MobileController.UpdateMobileChangedFields` runs `updateMobile` that way on the store; `MobileController.UpdateMobile` validates the whole record.
- **ENUM columns** are TEXT in SQLite, and Sequelize checks ENUM values only with `typeValidation`, which this connection does not turn on. `Sale.paymentMethod` therefore stores the text sent.
- **A numeric `<input type="number">`** is `Blank` or `Num(n)`. The browser hands the page only the empty string or the text of a valid number.

## Model

| member | source | states |
|---|---|---|
| SaleController.CreateSale | backend/src/controllers/saleController.js:129-305 | Keeps the store invariant. Every failure returns the spec's error and leaves the whole database exactly as it was. Success returns the new sale's id, and the database is then `CreateSaleSpec`'s content. |
| SaleController.ProcessCart | backend/src/controllers/saleController.js:145-248 | The `for` loop over the live tables yields `ProcessItems`' lines or its first error. The running totals equal the sums of the lines. Only mobiles and accessories change. |
| SaleController.ApplyItem | backend/src/controllers/saleController.js:150-247 | One loop pass against the live tables: the outcome of `ProcessItem` on the tables as earlier entries left them. Nothing but mobiles and accessories changes. |
| SaleController.WriteLines | backend/src/controllers/saleController.js:262-267 | Succeeds exactly when every line passes the `SaleItem` validators. It then appends the lines as rows of the sale under consecutive keys. On failure only the line table and its counter may have moved, and the caller rolls them back. |
| SaleController.DeleteSale | backend/src/controllers/saleController.js:311-372 | Keeps the store invariant. An absent sale gives `NotFound` and changes nothing. Otherwise the database becomes `DeleteSaleSpec`'s content. |
| SaleController.RestockLines | backend/src/controllers/saleController.js:332-350 | The loop of `deleteSale` turns the stock tables into `Restock` of them over the sale's lines, and nothing else in the database changes. |
| SaleProofs.CreateSaleEmptyCartIff | backend/src/controllers/saleController.js:136-142 | `EmptyCart` is the answer exactly when `items` is missing or empty. |
| SaleProofs.ProcessItemsNotEmptyCart | backend/src/controllers/saleController.js:149-248 | The item loop itself never answers `EmptyCart`. |
| SaleProofs.ProcessItemsFirstError | backend/src/controllers/saleController.js:149-248 | Once a prefix of the cart fails, the whole cart fails with that error, whatever follows. |
| SaleProofs.ProcessItemsNext | backend/src/controllers/saleController.js:149-248 | One more entry after a successful prefix either fails the cart with its error or appends its line, processed against the stock the prefix left. |
| SaleProofs.EntryFailureIsFinal | backend/src/controllers/saleController.js:152-247 | An entry without a truthy type or id fails the cart with `MalformedItem`. An entry with a type other than mobile or accessory fails it with `InvalidItemType`. Earlier entries do not matter. |
| SaleProofs.ProcessItemsEffect | backend/src/controllers/saleController.js:160-239 | A cart that passes yields exactly one line per entry, in entry order. Each line matches its entry: a mobile is quantity 1, total the selling price and profit selling less purchase; an accessory is the requested units at selling price times q and unit profit times q. No mobile is sold twice. Every sold mobile was in stock and is now sold, and every accessory lost exactly its lines' units and never went below zero. |
| SaleProofs.ProcessItemStep | backend/src/controllers/saleController.js:160-239 | One successful entry extends the "stock after these lines" relation by its own line. |
| SaleProofs.StockAfterMobileLine | backend/src/controllers/saleController.js:160-197 | Selling one more in-stock mobile extends the "stock after these lines" relation by its line. |
| SaleProofs.StockAfterAccessoryLine | backend/src/controllers/saleController.js:198-240 | Taking units of an accessory that has enough extends the "stock after these lines" relation by its line. |
| SaleProofs.StockAfterNothing | backend/src/controllers/saleController.js:145-147 | Before any entry, the stock is its own after-state. |
| SaleProofs.SellsMobileIff | backend/src/controllers/saleController.js:160-196 | "Some line sells mobile id" was defined by recursion. It holds exactly when a mobile line with that id exists. |
| SaleProofs.SellsMobileSnoc | backend/src/controllers/saleController.js:160-196 | Appending a line sells mobile id exactly when the earlier lines or the new line do. |
| SaleProofs.QtyOfSnoc | backend/src/controllers/saleController.js:198-239 | The units of an accessory the lines take grow by the new line's quantity when that line is for that accessory, and by nothing otherwise. |
| SaleProofs.QtyOfNonNegative | backend/src/models/SaleItem.js:37-44 | Valid lines never take a negative number of units. |
| SaleProofs.StockAfterKeepsValid | backend/src/controllers/saleController.js:181-222 | The stock a sale leaves still satisfies the mobile and accessory table invariants, which hold each column's own checks. |
| SaleProofs.SameMobileTwiceFails | backend/src/controllers/saleController.js:172-178 | The same in-stock mobile twice in one cart fails with `AlreadySold`, because the second entry sees the first one's sale. |
| SaleProofs.RepeatedAccessoryChecksRemaining | backend/src/controllers/saleController.js:210-216 | A repeated accessory is checked against the stock the earlier entry left, not the original stock. |
| SaleProofs.NoRowsForNextSale | backend/src/controllers/saleController.js:251-267 | In a valid database no line row belongs to the next sale id yet. |
| SaleProofs.CreateSaleUnfold | backend/src/controllers/saleController.js:136-267 | A successful `createSale` had a non-empty cart that passed the loop. Its header was built and validated, and its lines were valid. |
| SaleProofs.CreateSaleKeepsValid | backend/src/controllers/saleController.js:249-270 | A successful `createSale` keeps the store invariant, including "every header carries the sums of its lines". |
| SaleProofs.CreateSaleLines | backend/src/controllers/saleController.js:145-267 | After success, the new sale's stored lines are one per cart entry, in order, valid and priced from the stock before the sale. Its `totalAmount` and `profit` are their sums. The stock changed as the relation says. Every earlier sale keeps its header and lines, and customers are untouched. |
| SaleProofs.CreateSaleHeader | backend/src/controllers/saleController.js:251-259 | The header's defaults: made by the caller; today unless a date was sent; walk-in (null) unless a truthy customer id was sent; `cash` unless a method was sent, and otherwise the text sent, whether or not it names a declared method. |
| SaleProofs.CreateSaleQuantities | backend/src/models/SaleItem.js:37-44 | Every accessory entry of a cart that became a sale asked for at least one unit, because the line validator refuses less. |
| SaleProofs.RecordedLines | backend/src/controllers/saleController.js:262-267 | The rows written for the new sale are exactly its lines, in order, and every other sale's lines are unchanged. |
| SaleProofs.RecordedShape | backend/src/controllers/saleController.js:251-267 | Table by table, what writing the header and the lines produces. |
| SaleProofs.RecordedKeepsValid | backend/src/controllers/saleController.js:251-267 | Valid lines recorded under a valid header carrying their sums keep the store invariant. |
| SaleProofs.DeleteSaleOutcome | backend/src/controllers/saleController.js:324-356 | `deleteSale` has two outcomes, both directions. (1) `NotFound` exactly when the sale is absent. (2) Otherwise every mobile its lines sold is `in_stock` again, every accessory gets its units back, the header and all its lines are gone, and every other sale keeps its lines. |
| SaleProofs.DeleteSaleKeepsValid | backend/src/controllers/saleController.js:324-356 | A successful `deleteSale` keeps the store invariant. |
| SaleProofs.RestockStep | backend/src/controllers/saleController.js:333-350 | Putting back one more line extends the "stock restored" relation by that line. |
| SaleProofs.RestockMobileLine | backend/src/controllers/saleController.js:334-339 | Putting a mobile line back marks it in stock and extends the "stock restored" relation. |
| SaleProofs.RestockAccessoryLine | backend/src/controllers/saleController.js:340-349 | Putting an accessory line back returns its units and extends the "stock restored" relation. |
| SaleProofs.RestockEffect | backend/src/controllers/saleController.js:333-350 | The restock loop sets the lines' mobiles back to `in_stock` and adds their units back. A line whose item is gone is skipped. |
| SaleProofs.StockRestoredKeepsValid | backend/src/controllers/saleController.js:333-350 | Restocked valid lines keep the mobile and accessory table invariants. |
| SaleProofs.RestockUndoesSale | backend/src/controllers/saleController.js:333-350 | Putting back the lines of a sale restores exactly the stock before the sale. |
| SaleProofs.RecordedUndone | backend/src/controllers/saleController.js:251-356 | Deleting a just-recorded sale gives back the database before it. Only the key counters have moved on. |
| SaleProofs.CancelUndoesSale | backend/src/controllers/saleController.js:129-356 | `deleteSale` right after a successful `createSale` restores every mobile status, every accessory quantity and the sales tables. Only the key counters differ. |
| SaleProofs.LossMakingSaleCommits | backend/src/controllers/saleController.js:160-196 | A stored mobile whose selling price is below its purchase price, which `update` can leave, still sells, and the sale is written with a negative profit. |
| SaleSpec.ProcessItem | backend/src/controllers/saleController.js:150-247 | Definition: one loop pass. It yields `MalformedItem`, `NotFound`, `AlreadySold`, `InsufficientStock` or `InvalidItemType` in the order the code tests them, or the stock with the item taken and its line. Its effect is stated by `ProcessItemStep`. |
| SaleSpec.ProcessItems | backend/src/controllers/saleController.js:145-248 | Definition: the loop in order, each entry seeing the stock the earlier ones left, the first failure winning. Stated by `ProcessItemsFirstError` and `ProcessItemsEffect`. |
| SaleSpec.Header | backend/src/controllers/saleController.js:251-259 | Definition: the row `Sale.create` writes, with the `||` fallbacks and the payment method text as sent. Stated by `CreateSaleHeader`. |
| SaleSpec.CreateSaleSpec | backend/src/controllers/saleController.js:136-270 | Definition: `createSale` on the database content, the error that rolls everything back or the new content. Stated by `CreateSaleUnfold` and `CreateSaleKeepsValid`. |
| SaleSpec.Recorded | backend/src/controllers/saleController.js:251-267 | Definition: the content once the sold stock, the header and its lines are written. Stated by `RecordedShape` and `RecordedLines`. |
| SaleSpec.RestockLine | backend/src/controllers/saleController.js:334-349 | Definition: one pass of the restock loop; a line whose item is gone is skipped. Stated by `RestockMobileLine` and `RestockAccessoryLine`. |
| SaleSpec.Restock | backend/src/controllers/saleController.js:333-350 | Definition: the restock loop over the lines in order. Stated by `RestockEffect`. |
| SaleSpec.DeleteSaleSpec | backend/src/controllers/saleController.js:311-372 | Definition: `deleteSale` on the database content. Stated by `DeleteSaleOutcome`. |
| SaleSpec.StockAfter | backend/src/controllers/saleController.js:160-240 | Definition: what a sale does to the stock. Mobiles sold were in stock and are now sold; accessories lose exactly their sold units and never go below zero. |
| SaleSpec.StockRestored | backend/src/controllers/saleController.js:333-350 | Definition: what restocking does. Sold mobiles are in stock again, and units are added back. |
| Database.WithoutSale | backend/src/controllers/saleController.js:353 | Exactly the rows of other sales remain, unchanged. |
| Database.AppendLines | backend/src/controllers/saleController.js:262-267 | The new rows sit at consecutive keys from the counter on, in line order, and every other row is unchanged. |
| Database.SaleLinesIgnoresHigherKey | backend/src/controllers/saleController.js:317-322 | Rows at or above the scan bound do not contribute to a sale's lines. |
| Database.WithMobilesValid | backend/src/controllers/mobileController.js:168-200 | Replacing the mobile table with a valid one keeps the whole database valid, since the sales tables do not refer to it. |
| Database.SaleLinesNone | backend/src/controllers/saleController.js:317-322 | A sale with no rows below the bound has no lines. |
| Database.SaleLinesBeyondKeys | backend/src/controllers/saleController.js:317-322 | Scanning past the last key gives the same lines. |
| Database.SaleLinesValid | backend/src/models/SaleItem.js:37-58 | A sale's lines are rows of the table, so they pass validation when every row does. |
| Database.AppendLinesOther | backend/src/controllers/saleController.js:262-267 | Rows appended for one sale leave every other sale's lines unchanged. |
| Database.SaleLinesForeignRows | backend/src/controllers/saleController.js:317-322 | Rows of other sales in a key range add nothing to a sale's lines. |
| Database.SaleLinesSameRows | backend/src/controllers/saleController.js:317-322 | Two tables with the same rows below a bound give every sale the same lines. |
| Database.AppendLinesOwn | backend/src/controllers/saleController.js:262-267 | For a sale that had no rows, its lines after appending are exactly the appended ones. |
| Database.AppendLinesSales | backend/src/controllers/saleController.js:262-267 | Appending a new sale's rows gives that sale exactly the appended lines and leaves every other sale's lines unchanged. |
| Database.WithoutSaleOther | backend/src/controllers/saleController.js:353 | Removing one sale's rows leaves every other sale's lines unchanged. |
| Database.WithoutAppended | backend/src/controllers/saleController.js:262-267 | Removing the rows just appended for a new sale gives back the original table. |
| Database.Store.constructor | backend/src/controllers/saleController.js:130 | The store starts from a valid content. |
| Database.Store.Restore | backend/src/controllers/saleController.js:297-298 | Rollback: the store then holds exactly the snapshot. |
| AccessoryModel.NewAccessory | backend/src/models/Accessory.js:33-67 | The defaults are quantity 0 and reorder level 5. Such an accessory is valid exactly when its name and category are not blank and 0 <= purchase <= selling. |
| AccessoryModel.AccessoryStored | backend/src/models/Accessory.js:14-67 | Definition: a row the table can hold, i.e. every check that looks at one column alone. |
| AccessoryModel.AccessoryValid | backend/src/models/Accessory.js:14-67 | Definition: every validator on the whole record, including selling price not below purchase price. |
| AccessoryModel.IsLowStock | backend/src/models/Accessory.js:92-94 | Definition: `quantity <= reorderLevel`, a missing level compared as 0. Stated by `NewAccessoryIsLowStock` and `DecreaseKeepsLowStock`. |
| AccessoryModel.NewAccessoryIsLowStock | backend/src/models/Accessory.js:92-94 | A freshly created accessory is always reported as low on stock. |
| AccessoryModel.UnitProfit | backend/src/models/Accessory.js:99-101 | Unit profit plus the purchase price is the selling price. On an accessory that passes every validator it lies between 0 and the selling price; a stored row need not, since `update` validates only the changed columns. |
| AccessoryModel.StockValue | backend/src/models/Accessory.js:106-108 | Never negative on an accessory the table can hold, and 0 with no stock. |
| AccessoryModel.Decreased | backend/src/models/Accessory.js:113-119 | Refused with `InsufficientStock` exactly when fewer than q units are on hand. Otherwise exactly q units are taken and nothing else changes. |
| AccessoryModel.Increased | backend/src/models/Accessory.js:124-127 | Adds q and changes nothing else. Only the save's `min: 0` can refuse it, exactly when the sum is negative. |
| AccessoryModel.DecreasedKeepsValid | backend/src/models/Accessory.js:33-119 | A successful decrease keeps the accessory storable, keeps it fully valid if it was, and lowers its stock value by q units' cost. |
| AccessoryModel.IncreaseUndoesDecrease | backend/src/models/Accessory.js:113-127 | Increasing by q after a successful decrease by q restores the accessory exactly. |
| AccessoryModel.DecreaseKeepsLowStock | backend/src/models/Accessory.js:92-119 | Selling never takes an accessory out of the low-stock state. |
| AccessoryModel.AccessoryRecord.constructor | backend/src/models/Accessory.js:14-67 | A loaded instance holds a row the table can hold. |
| AccessoryModel.AccessoryRecord.DecreaseStock | backend/src/models/Accessory.js:113-119 | The saved row becomes the decreased one. When stock is short, it fails with `InsufficientStock` and the row is untouched. |
| AccessoryModel.AccessoryRecord.IncreaseStock | backend/src/models/Accessory.js:124-127 | The saved row becomes the increased one. A negative result fails validation and the row is untouched. |
| MobileModel.NewMobile | backend/src/models/Mobile.js:72-93 | The defaults are status `in_stock` and condition `new`, with the optional fields absent. |
| MobileModel.MobileValid | backend/src/models/Mobile.js:15-66 | Definition: every field validator on the whole record, including `isGreaterThanPurchase`. |
| MobileModel.SellingAbovePurchase | backend/src/models/Mobile.js:60-64 | Definition: `isGreaterThanPurchase`, against the record's own purchase price. |
| MobileModel.Saved | backend/src/models/Mobile.js:15-108 | Definition: a row the hook has cleaned and every validator passed. Stated by `SavedIff`. |
| MobileModel.Stored | backend/src/models/Mobile.js:15-66 | Definition: a row the table can hold, i.e. every check that looks at one column alone; `isGreaterThanPurchase` is left out because `update` validates only the changed columns. |
| MobileModel.DisplayName | backend/src/controllers/saleController.js:188 | Definition: the `itemName` snapshot, brand, model and IMEI. |
| MobileModel.BeforeValidate | backend/src/models/Mobile.js:101-108 | The hook changes only the IMEI, which afterwards has no whitespace and is the input with its whitespace removed. |
| MobileModel.CleanKeepsImeiVerdict | backend/src/models/Mobile.js:35-46 | Cleaning an IMEI never changes whether its field validators pass. |
| MobileModel.BeforeValidateKeepsVerdict | backend/src/models/Mobile.js:101-108 | The hook is idempotent and never changes whether the IMEI validators pass. |
| MobileModel.SavedIff | backend/src/models/Mobile.js:29-108 | A stored row is exactly a record that passes every validator and has a whitespace-free IMEI. |
| MobileModel.StoredImeiValid | backend/src/models/Mobile.js:35-46 | An IMEI of a stored row has no whitespace, is left as it is by `cleanIMEI`, and passes `validateIMEI` as it stands. |
| MobileModel.HookedIsSaved | backend/src/models/Mobile.js:101-108 | What the hook and the validators let through is a row of the table. |
| MobileModel.SavedWithStatus | backend/src/models/Mobile.js:72-76 | Changing the status of a row that passes every validator keeps it passing them, and keeps it storable. |
| MobileModel.DigitsNoWhitespace | backend/src/models/Mobile.js:39-45 | Helper: a digit string has no whitespace. |
| MobileModel.CalculateProfit | backend/src/models/Mobile.js:126-128 | Profit plus the purchase price is the selling price. On a mobile that passes every validator it lies between 0 and the selling price; a stored row need not (see `LossMakingSaleCommits`). |
| MobileModel.MobileRecord.constructor | backend/src/models/Mobile.js:29-113 | A loaded instance holds a stored row. |
| MobileModel.MobileRecord.MarkAsSold | backend/src/models/Mobile.js:133-136 | The status becomes `sold`, nothing else changes, and the row stays storable. |
| SaleModel.ParsePaymentMethod | backend/src/models/Sale.js:40-43 | Which of the four declared methods a text names: it names one exactly when it is one of the four names, and then it names that method. The column itself stores any text (see `Header`). |
| SaleModel.SaleValid | backend/src/models/Sale.js:27-39 | Definition: `totalAmount` has `min: 0`; `profit` is unbounded. Stated by `CreateSaleKeepsValid` and `LossMakingSaleCommits`. |
| SaleModel.PaymentMethodRoundTrip | backend/src/models/Sale.js:40-43 | Each method's name parses back to that method. |
| SaleItemModel.SumsAppend | backend/src/controllers/saleController.js:145-239 | The running totals distribute over concatenation. |
| SaleItemModel.LineValid | backend/src/models/SaleItem.js:37-58 | Definition: `quantity` at least 1, `unitPrice` and `totalPrice` at least 0, `profit` unbounded. Stated by `WriteLines` and `SaleLinesValid`. |
| SaleItemModel.Total | backend/src/controllers/saleController.js:195-239 | Definition: the sum of the lines' `totalPrice`, the running `totalAmount`. Stated by `SumsAppend` and `ProcessCart`. |
| SaleItemModel.Profit | backend/src/controllers/saleController.js:196-239 | Definition: the sum of the lines' `profit`, the running `totalProfit`. Stated by `SumsAppend` and `ProcessCart`. |
| SaleItemModel.ValidLinesTotalNonNegative | backend/src/models/SaleItem.js:45-58 | Valid lines have a non-negative total, so a header made of them passes `Sale.js`'s `min: 0`. |
| ImeiValidator.LuhnDigit | backend/src/utils/imeiValidator.js:61-68 | One digit contributes between 0 and 9, and an undoubled digit contributes its own value. |
| ImeiValidator.ValidateImei | backend/src/utils/imeiValidator.js:11-47 | Definition: `validateIMEI` for a string. Every outcome is stated by `ValidateImeiOutcomes`. |
| ImeiValidator.LuhnSum | backend/src/utils/imeiValidator.js:60-72 | Definition: the Luhn sum from the right with alternate digits doubled. Stated by `LuhnSumAppend` and `LuhnSumSingle`. |
| ImeiValidator.LuhnHolds | backend/src/utils/imeiValidator.js:74 | Definition: the Luhn sum is a multiple of 10. `LuhnCheck` computes it. |
| ImeiValidator.LuhnCheck | backend/src/utils/imeiValidator.js:55-75 | The loop decides the Luhn condition: with every second digit from the right doubled (minus 9 over 9), the sum is a multiple of 10. |
| ImeiValidator.ValidateImeiOutcomes | backend/src/utils/imeiValidator.js:11-47 | Every outcome is stated on the input with all whitespace removed: required; non-digits; wrong length; 14 digits accepted without a checksum; 15 digits valid exactly when the Luhn check holds. |
| ImeiValidator.BlankImeiIsNotDigits | backend/src/utils/imeiValidator.js:13-23 | A non-empty all-whitespace input is reported as non-digits, not as missing. |
| ImeiValidator.CleanImei | backend/src/utils/imeiValidator.js:99-102 | The output has no whitespace and is the input with its whitespace removed. |
| ImeiValidator.CleanImeiIdempotent | backend/src/utils/imeiValidator.js:99-102 | Cleaning twice is cleaning once. |
| ImeiValidator.ValidateAfterClean | backend/src/utils/imeiValidator.js:11-102 | Cleaning first never changes acceptance, and it keeps the exact verdict of every input that does not clean to empty. |
| ImeiValidator.FormatImei | backend/src/utils/imeiValidator.js:83-92 | A 15-digit IMEI becomes groups of 6, 6 and 3 digits joined by spaces. Anything else only loses its whitespace. |
| ImeiValidator.NoWhitespaceSlice | backend/src/utils/imeiValidator.js:88 | A slice of a whitespace-free string is whitespace-free. |
| ImeiValidator.RemoveSeparators | backend/src/utils/imeiValidator.js:88-101 | Dropping whitespace from three whitespace-free groups joined by spaces runs the groups together. |
| ImeiValidator.RegroupFifteen | backend/src/utils/imeiValidator.js:88-101 | Cutting a whitespace-free 15-character string into the three groups and then dropping the spaces gives the string back. |
| ImeiValidator.CleanFormatRoundTrip | backend/src/utils/imeiValidator.js:83-102 | `cleanIMEI(formatIMEI(s))` is `s` without whitespace, so it is `s` itself when `s` has none. |
| ImeiValidator.LuhnSumAppend | backend/src/utils/imeiValidator.js:60-72 | The Luhn sum of a concatenation is the right part's sum plus the left part's, with the flag shifted by the right part's length. |
| ImeiValidator.CheckDigit | backend/src/utils/imeiValidator.js:39-44 | The check digit of a payload lies between 0 and 9. |
| ImeiValidator.CheckDigitUnique | backend/src/utils/imeiValidator.js:39-44 | A payload followed by one more digit passes the Luhn check exactly when that digit is the check digit. |
| ImeiValidator.CompletesToTen | backend/src/utils/imeiValidator.js:74 | Helper for `CheckDigitUnique`: a digit brings a Luhn sum to a multiple of 10 exactly when it equals the distance to the next multiple. |
| ImeiValidator.LuhnDigitInjective | backend/src/utils/imeiValidator.js:61-68 | For a fixed flag, different digits contribute different amounts. |
| ImeiValidator.LuhnSumSingle | backend/src/utils/imeiValidator.js:60-72 | The sum of one digit is that digit's contribution. |
| ImeiValidator.DistinctDigitsModTen | backend/src/utils/imeiValidator.js:74 | Helper for `SingleDigitErrorDetected`: two sums that differ only in a final digit cannot both be multiples of 10. |
| ImeiValidator.SingleDigitErrorDetected | backend/src/utils/imeiValidator.js:55-75 | Changing any one digit of a number that passes the Luhn check makes it fail. |
| Text.RemoveWhitespaceAfterTrim | backend/src/utils/imeiValidator.js:18 | Trimming before removing all whitespace changes nothing. |
| Text.Trim | backend/src/utils/imeiValidator.js:18 | Definition: `String.prototype.trim`. Stated by `RemoveWhitespaceAfterTrim` and `TrimEmpty`. |
| Text.ParseInt | frontend/src/pages/Sales/NewSale.jsx:68-70 | Definition: `parseInt` on decimal text, `None` for NaN. Stated by `ParseIntNatToString`. |
| Text.Like | backend/src/controllers/mobileController.js:25-27 | Definition: SQLite `LIKE '%term%'`, a case-insensitive ASCII substring test. Stated by `ContainsIff`. |
| Text.TrimEmpty | frontend/src/components/Forms/MobileForm.jsx:107-112 | `s.trim()` is empty exactly when `s` is all whitespace. |
| Text.ParseIntNatToString | frontend/src/pages/Sales/NewSale.jsx:68-70 | An option value built from an id parses back to that id. |
| Text.ContainsIff | backend/src/controllers/mobileController.js:25-27 | The left-to-right substring search agrees with "the term is a prefix of some suffix". |
| Pagination.Offset | backend/src/controllers/mobileController.js:32 | Offset plus limit is page times limit, so page p starts after the rows of pages 1 to p-1. It is non-negative for page >= 1 and limit >= 0. |
| Pagination.Window | backend/src/controllers/mobileController.js:34-39 | `LIMIT`/`OFFSET` gives a contiguous slice of the matches, at most `limit` long. It is full when enough rows follow and empty past the end. |
| Pagination.TotalPages | backend/src/controllers/mobileController.js:49 | `None` (no finite count) exactly when the limit is 0. For a positive limit it is the least page count that holds every row, 0 with no rows. |
| Pagination.CeilDiv | backend/src/controllers/mobileController.js:49 | The least number of limit-sized pages that hold the rows. |
| Pagination.PagesUpToPrefix | backend/src/controllers/mobileController.js:32-39 | The first n pages read one after the other are the first n times limit rows, or all of them. |
| Pagination.MulNonNegative | backend/src/controllers/mobileController.js:32 | Helper for `Offset`: the product of two naturals is non-negative. |
| Pagination.MulMonotone | backend/src/controllers/mobileController.js:32 | Helper for `PagesUpToPrefix`: multiplying by a natural keeps the order. |
| Pagination.PagesCoverAll | backend/src/controllers/mobileController.js:32-49 | Reading pages 1 to `totalPages` gives every matching row exactly once, in order, and every later page is empty. |
| MobileController.FilterMobiles | backend/src/controllers/mobileController.js:15-29 | A row is listed exactly when it is in the table and meets every truthy condition (status, brand, `LIKE` on brand, model or IMEI). The result is no longer than the table. Table order: see `FilterMobilesAppend`. |
| MobileController.MobileMatches | backend/src/controllers/mobileController.js:13-29 | Definition: the `where` clause, every truthy parameter adding a condition. |
| MobileController.FilterMobilesAppend | backend/src/controllers/mobileController.js:13-39 | Filtering distributes over concatenation: the matches of two tables read one after the other are the matches of the first, then those of the second. So table order is kept. |
| MobileController.FilterMobilesSingle | backend/src/controllers/mobileController.js:13-29 | A single row is listed exactly when it matches. |
| MobileController.EmptyQueryListsAll | backend/src/controllers/mobileController.js:13-29 | With no truthy parameter every row is listed, in order. |
| MobileController.ListMobiles | backend/src/controllers/mobileController.js:32-50 | The page is the `LIMIT`/`OFFSET` window, at `(page - 1) * limit`, of the matches in table order. The count is that of all matches, the page holds only matches and at most `limit` of them, and the page count is computed from that count. |
| MobileController.Brands | backend/src/controllers/mobileController.js:265-283 | Exactly the non-empty brands that occur, each once. |
| MobileController.BrandsOfValidRows | backend/src/controllers/mobileController.js:274 | A stored mobile's brand is never dropped by `filter(Boolean)`. |
| MobileController.Applied | backend/src/controllers/mobileController.js:190 | An empty patch changes nothing. |
| MobileController.Patched | backend/src/controllers/mobileController.js:190 | Definition: the patch applied, then the `beforeValidate` hook. |
| MobileController.ValidatesAsWritten | backend/src/controllers/mobileController.js:190 | Definition: the validation `update` runs, each changed column's validator on the patched record. |
| MobileController.UpdateMobileAsWritten | backend/src/controllers/mobileController.js:168-219 | As the ORM runs it, validating only the changed attributes. An accepted update replaces that row with the patched and cleaned record. |
| MobileController.PurchaseAboveSellingAccepted | backend/src/controllers/mobileController.js:190 | Raising only the purchase price above the stored selling price is accepted as written, and it stores a mobile whose selling price is below its purchase price. |
| MobileController.ImeiValidStored | backend/src/models/Mobile.js:35-46 | An IMEI the validator accepts, once the hook has cleaned it, has the stored shape. |
| MobileController.PatchedStored | backend/src/controllers/mobileController.js:190 | A patch `update` lets through leaves a row the table can hold. |
| MobileController.UpdateMobileAsWrittenOutcome | backend/src/controllers/mobileController.js:175-212 | The same three outcomes as `UpdateMobileOutcome`, for the code as written, and an accepted update keeps the table valid. |
| MobileController.UpdateMobileOutcome | backend/src/controllers/mobileController.js:175-212 | There are three outcomes, each in both directions. (1) `NotFound` exactly for an unknown id. (2) `SoldLocked` exactly for a sold mobile and a non-admin caller. (3) An accepted update replaces only that row, with the patched and cleaned values, and the table stays valid. |
| MobileController.UpdateMobileSpec | backend/src/controllers/mobileController.js:168-219 | Definition: `updateMobile` validating the whole patched record. Stated by `UpdateMobileOutcome`. |
| MobileController.EmptyPatchKeepsTable | backend/src/controllers/mobileController.js:190 | As written, an empty update of an unsold mobile succeeds and leaves the table as it was. The whole-record check accepts it exactly when the stored selling price is not below the purchase price, and refuses it otherwise. |
| MobileController.StatusPatchUnguarded | backend/src/controllers/mobileController.js:168-190 | There is no field allow-list: as written, a non-admin may set an unsold mobile's status to `sold` directly. The whole-record check does the same unless the stored prices are out of order. |
| MobileController.DeleteMobileSpec | backend/src/controllers/mobileController.js:225-259 | `NotFound` exactly for an unknown id, and `SoldLocked` exactly for a sold mobile. Otherwise exactly that row is removed, and the others are unchanged. |
| MobileController.DeleteMobileKeepsSold | backend/src/controllers/mobileController.js:238-246 | Deleting keeps the table valid and never removes a sold mobile. |
| MobileController.UpdateMobile | backend/src/controllers/mobileController.js:168-219 | On the store, with the whole-record validation: only `mobiles` may change, and only as `UpdateMobileSpec` says. The store invariant, which holds each column's own checks, is kept. |
| MobileController.UpdateMobileChangedFields | backend/src/controllers/mobileController.js:168-219 | On the store, with the per-changed-column validation the code runs: only `mobiles` may change, and only as `UpdateMobileAsWritten` says. The store invariant is kept. |
| MobileController.DeleteMobile | backend/src/controllers/mobileController.js:225-259 | On the store: only `mobiles` may change, as `DeleteMobileSpec` says. The store invariant is kept; it does not ask for selling price above purchase price, which `update` can break. |
| CustomerController.FilterCustomers | backend/src/controllers/customerController.js:14-20 | A customer is listed exactly when they are in the table and the search is falsy or matches the name, phone or email (a null email matches nothing). The result is no longer than the table. Table order: see `FilterCustomersAppend`. |
| CustomerController.CustomerMatches | backend/src/controllers/customerController.js:14-20 | Definition: the `Op.or` of `LIKE` on name, phone and email when the search is truthy. |
| CustomerController.FilterCustomersAppend | backend/src/controllers/customerController.js:12-33 | Filtering distributes over concatenation, so table order is kept. |
| CustomerController.FilterCustomersSingle | backend/src/controllers/customerController.js:12-20 | A single customer is listed exactly when they match. |
| CustomerController.NameHitIsListed | backend/src/controllers/customerController.js:16 | A customer whose name contains the term, in any ASCII letter case, is found. |
| CustomerController.ListCustomers | backend/src/controllers/customerController.js:22-42 | The page is the `LIMIT`/`OFFSET` window, at `(page - 1) * limit`, of the matches in table order. The count is that of all matches, the page holds only matches and at most `limit` of them, and the page count is computed from that count. |
| CustomerController.SalesOf | backend/src/controllers/customerController.js:180 | Exactly the sales whose `customerId` is that id. |
| CustomerController.DeleteCustomerSpec | backend/src/controllers/customerController.js:166-202 | `NotFound` exactly for an unknown id, and `HasSales` exactly when some sale names the customer. Otherwise exactly that customer is removed. |
| CustomerController.DeleteCustomerKeepsReferences | backend/src/controllers/customerController.js:180-189 | An allowed deletion leaves no sale pointing at the removed customer. |
| CustomerController.DeleteCustomer | backend/src/controllers/customerController.js:166-202 | On the store: only `customers` may change, as `DeleteCustomerSpec` says. The store invariant is kept. |
| NewSale.Find | frontend/src/pages/Sales/NewSale.jsx:66-71 | Finds a listed row with that id, or nothing exactly when no row has it. A NaN id finds nothing. |
| NewSale.Found | frontend/src/pages/Sales/NewSale.jsx:66-76 | Definition: the fetched list of the chosen type holds the id the selector parses to. |
| NewSale.Short | frontend/src/pages/Sales/NewSale.jsx:78-82 | Definition: the chosen accessory is listed with fewer units than asked, `Number('')` being 0. |
| NewSale.Add | frontend/src/pages/Sales/NewSale.jsx:49-106 | A refusal leaves the page unchanged. Each refusal holds exactly when its guard is the first to fire: "nothing selected" when no id is chosen; "already added" when one is chosen and the duplicate test fires; "item not found" when, past those, the id is in neither fetched list (`Found`); "only n units available" when, past those, the accessory is listed with fewer units than asked (`Short`), n being its listed quantity. The add goes through exactly when none of these holds. A success resets the selector and appends exactly one entry, earlier entries unchanged: one unit for a mobile, the parsed quantity for an accessory, at its selling price. |
| NewSale.DuplicateCheckNeverFires | frontend/src/pages/Sales/NewSale.jsx:56-63 | As written, the `===` between a number and a string never matches, so "already added" is never raised. |
| NewSale.SameAccessoryAddedTwice | frontend/src/pages/Sales/NewSale.jsx:56-98 | Choosing the same accessory twice puts two entries for it in the cart. |
| NewSale.AddItem | frontend/src/pages/Sales/NewSale.jsx:56-63 | With the intended test, "already added" is raised exactly when the chosen item is already in the cart. |
| NewSale.AddItemAsWritten | frontend/src/pages/Sales/NewSale.jsx:56-63 | Definition: `handleAddItem` with the duplicate test as written, which compares a number with a string. Stated by `DuplicateCheckNeverFires` and `SameAccessoryAddedTwice`. |
| NewSale.AddItemKeepsDistinct | frontend/src/pages/Sales/NewSale.jsx:56-98 | With the intended test, a cart with distinct items keeps them distinct. |
| NewSale.RemoveAt | frontend/src/pages/Sales/NewSale.jsx:108-113 | Exactly the entry at the index is removed, the rest kept in order. An index out of range changes nothing. |
| NewSale.CartTotal | frontend/src/pages/Sales/NewSale.jsx:115-117 | The total is a number exactly when every quantity is, and NaN otherwise. |
| NewSale.CartTotalAppend | frontend/src/pages/Sales/NewSale.jsx:115-117 | The total of two carts one after the other is the sum of their totals. |
| NewSale.AddRaisesTotal | frontend/src/pages/Sales/NewSale.jsx:84-117 | A successful add raises the total by the new entry's price times quantity. |
| NewSale.RemoveLowersTotal | frontend/src/pages/Sales/NewSale.jsx:108-117 | Removing an entry takes exactly its amount off the total. |
| NewSale.AddAmountsSwap | frontend/src/pages/Sales/NewSale.jsx:116 | Helper for `CartTotalAppend`: adding amounts, NaN included, does not depend on the order. |
| NewSale.SingleTotal | frontend/src/pages/Sales/NewSale.jsx:116 | The total of a one-entry cart is that entry's amount. |
| NewSale.Submit | frontend/src/pages/Sales/NewSale.jsx:122-125 | An empty cart is refused, and any other cart is sent as it is. |
| NewSale.Requests | frontend/src/pages/Sales/NewSale.jsx:84-130 | One request entry per cart entry. |
| NewSale.SentCartIsNotEmpty | frontend/src/pages/Sales/NewSale.jsx:122-125 | A cart the page lets through is never answered with the server's empty-cart error. |
| FormInput.ClearError | frontend/src/components/Forms/MobileForm.jsx:90-93 | The edited field's message is blanked, every key is kept, and every other message is unchanged. |
| MobileForm.FormValidateImei | frontend/src/components/Forms/MobileForm.jsx:7-27 | The client's `validateIMEI` gives the server's verdict on every input. |
| MobileForm.FormLuhnCheck | frontend/src/components/Forms/MobileForm.jsx:29-48 | The client's loop decides the same Luhn condition as the server's. |
| MobileForm.ValidateForm | frontend/src/components/Forms/MobileForm.jsx:104-130 | There is one message per failing field, each as an if-and-only-if: blank brand or model; an IMEI `validateIMEI` rejects (with its message); a missing or non-positive price. A selling price below the purchase price replaces the selling-price message with the ordering one. |
| MobileForm.FormAcceptedIsMobileValid | frontend/src/components/Forms/MobileForm.jsx:104-130 | Whatever the form accepts passes every server-side field validator of `Mobile`. |
| MobileForm.ZeroPriceRefused | frontend/src/components/Forms/MobileForm.jsx:119-121 | A zero purchase price is refused by the form but accepted by the model's `min: 0`. |
| MobileForm.OnChange | frontend/src/components/Forms/MobileForm.jsx:86-102 | Editing a field blanks its message. A non-empty IMEI that fails `validateIMEI` gets the failure's message. No key is lost. |
| AccessoryForm.ValidateForm | frontend/src/components/Forms/AccessoryForm.jsx:63-95 | There is one message per failing field, each as an if-and-only-if: blank name; empty category; a missing or negative quantity or reorder level; a missing or non-positive price. A selling price below the purchase price replaces the selling-price message with the ordering one. |
| AccessoryForm.LeadingErrors | frontend/src/components/Forms/AccessoryForm.jsx:63-76 | The first three checks give a message exactly for a blank name, an empty category and a missing or negative quantity. |
| AccessoryForm.ToSubmission | frontend/src/components/Forms/AccessoryForm.jsx:110-116 | The text fields are sent as they are. A numeric field is a number exactly when it was filled in, and filled prices are sent as their values. |
| AccessoryForm.FormAcceptedSubmitsValid | frontend/src/components/Forms/AccessoryForm.jsx:97-116 | An accepted form sends numbers in every numeric field and a non-empty category. The accessory they make passes the model's validators whenever the category is not blank. |
| AccessoryForm.PrefillAsWritten | frontend/src/components/Forms/AccessoryForm.jsx:37-51 | With `||`, a stock of 0 shows as empty, and a reorder level of 0 or null shows as 5. |
| AccessoryForm.ZeroStockPrefillRefused | frontend/src/components/Forms/AccessoryForm.jsx:43-76 | Editing a valid out-of-stock accessory shows a quantity error, although 0 is a valid stock. |
| AccessoryForm.ZeroReorderSubmittedAsFive | frontend/src/components/Forms/AccessoryForm.jsx:46-115 | Saving an accessory whose reorder level is 0 without touching the field sends 5. |
| AccessoryForm.Prefill | frontend/src/components/Forms/AccessoryForm.jsx:37-51 | As intended: every stored number is shown as it is, and only a missing reorder level falls back to 5. |
| AccessoryForm.PrefillRoundTrip | frontend/src/components/Forms/AccessoryForm.jsx:37-116 | Saving an untouched form prefilled as intended sends back the stored numbers. |
| AccessoryForm.ValidAccessoryPrefillAccepted | frontend/src/components/Forms/AccessoryForm.jsx:37-95 | With the intended prefill, a valid accessory with a positive purchase price opens with no errors, zero stock included. |
| CustomerForm.AtIndex | frontend/src/components/Forms/CustomerForm.jsx:53 | The position of the first `@`, or the length when there is none. |
| CustomerForm.EmailValidIff | frontend/src/components/Forms/CustomerForm.jsx:53 | The decision procedure accepts exactly what `/^[^\s@]+@[^\s@]+\.[^\s@]+$/` matches. |
| CustomerForm.EmailValidMatches | frontend/src/components/Forms/CustomerForm.jsx:53 | What the procedure accepts, the regular expression matches. |
| CustomerForm.MatchIsEmailValid | frontend/src/components/Forms/CustomerForm.jsx:53 | What the regular expression matches, the procedure accepts. |
| CustomerForm.ValidateForm | frontend/src/components/Forms/CustomerForm.jsx:40-58 | Each rule is an if-and-only-if with its message, and there are no errors exactly when all three rules pass. (1) The name needs a non-whitespace character. (2) The phone does too, and is then checked against the digit, space, `-`, `+`, `(`, `)` set that `Customer.js` also uses (backend/src/models/Customer.js:26). (3) A non-empty email must match the `local@domain.tld` shape. |
| CustomerForm.EmailExamples | frontend/src/components/Forms/CustomerForm.jsx:53 | Example, not a property: "ali@shop.pk" passes, and "a@b@c.d" does not. |
| ChangePassword.Level | frontend/src/pages/Settings/ChangePassword.jsx:45-53 | Every score from 0 to 6 has a label and a colour. |
| ChangePassword.PasswordStrength | frontend/src/pages/Settings/ChangePassword.jsx:30-56 | An empty password reads 0 with no label. The score never exceeds 6, and a non-empty password gets its level's label. The score is 6 exactly when the password has 12 or more characters and all four character classes. Fewer than 8 characters score at most 4. |
| ChangePassword.NonEmptyScoresAtLeastOne | frontend/src/pages/Settings/ChangePassword.jsx:40-43 | A non-empty password scores at least 1, so "Too Weak" is never shown. |
| ChangePassword.StrengthMonotone | frontend/src/pages/Settings/ChangePassword.jsx:33-43 | Typing more characters never lowers the score. |
| ChangePassword.ValidateForm | frontend/src/pages/Settings/ChangePassword.jsx:60-82 | Each field's message is its first failing rule, in order. There are no errors exactly when the current password is given, the new one has 8 or more characters and differs from it, and the confirmation equals it. |
| ChangePassword.AcceptedMeetsServerLength | frontend/src/pages/Settings/ChangePassword.jsx:67-73 | A form the page accepts always meets the server's own rule of at least 6 characters (backend/src/controllers/authController.js:131). |

## Left out

- Money is integer cents. `parseFloat` and `toFixed`, and DECIMAL rounding, are not modelled.
- Concurrency and isolation are not modelled. The transaction is only snapshot-and-restore, so `deleteSale`'s `findByPk` reading outside its transaction does not show.
- HTTP plumbing is not modelled: status codes, response bodies, the read-after-write with includes (saleController.js:273-289), and the admin-only route gates. The caller's role is a parameter (`isAdmin`) and errors are enumerations.
- Foreign keys (`customerId`, `createdBy`) are not enforced. `saleDate` is an opaque string and DATEONLY is not validated. The current date is a parameter (`today`).
- The list order `createdAt DESC` is not modelled: rows are taken in table order.
- `DISTINCT` in `getBrands` keeps the first occurrence of each brand. SQLite's order is unspecified.
- `LIKE` treats the term literally: its `%` and `_` wildcards and the escape character are not modelled.
- `page` and `limit` are the integers `parseInt` gave. A NaN or hexadecimal parameter is not modelled.
- String lengths count characters, not UTF-16 code units.
- Inputs are strings or absent. `null`, numbers or objects where the source calls `String(imei)` are not modelled.
- A patch for `status` or `condition` names one of the column's values. Text outside the enumeration, which the ORM would store as sent, is not modelled for these two columns (`paymentMethod` is modelled as the text sent).
- A DECIMAL value sent in another spelling counts as changed only when it differs in value.
- After a failed `update` or `save`, the in-memory instance is not modelled. Only the stored row is.
- A patch carrying an `id` is not modelled.
- In `deleteSale`, an accessory restock that fails validation cannot happen in a valid store, because valid lines add non-negative units. The model therefore has no error path for it.
- The `formData` half of each client `handleChange` (`{...prev, [name]: value}`) is not modelled. Only the error map is.
- `AccessoryForm.ToSubmission` and `NewSale.Add`: a fractional text such as "2.5" in an integer field is not modelled, because a `Num` field holds whole cents or units. In `handleAddItem` the stock check (NewSale.jsx:79) would compare against 2.5 while the entry (NewSale.jsx:95) keeps `parseInt`'s 2; in the form, `parseInt` truncates.
- `NewSale.SentCartIsNotEmpty`: a NaN quantity, which the client sends as JSON `null`, is not modelled. The request entries come from `Requests`, which treats it as absent.
- `MobileModel.BeforeValidateKeepsVerdict` states that the hook keeps the IMEI validators' verdict. It relies on the hook touching no other field, which `MobileModel.BeforeValidate` states, for the whole record.
- `reportController.js` is not part of this model. It is ORM aggregation (SUM, COUNT, GROUP BY), date arithmetic and floating-point margins.
- `accessoryController.js` is not part of this model. It is thin CRUD without guards.
- Authentication is not part of this model (authController.js, middleware/auth.js, User.js: JWT and bcrypt). Its one local rule, a new password of at least 6 characters, appears only as the bound in `ChangePassword.AcceptedMeetsServerLength`.
- `Customer.js` is a schema only. Its phone pattern is modelled in `CustomerForm.PhoneAllowed` and its `isEmail` library validator is not.
- Setup code (config, database, seed, server, backup: file, process and ORM I/O) and the rest of the UI (rendering, routing, local storage, the API client) are not part of this model.

## Findings

| source | as written | input that shows it | evidently intended | confidence | as-written member | corrected member |
|---|---|---|---|---|---|---|
| frontend/src/pages/Sales/NewSale.jsx:56-63 | The duplicate test compares the stored `itemId`, a number (`parseInt`, line 90), with the `<select>` value, a string (line 214), using `===`, so it never matches. | Adding accessory 7 (one unit, stock above 1) twice puts two separate entries for accessory 7 in the cart. | Refuse an item of the same type and id already in the cart. | high, not executed | NewSale.AddItemAsWritten, NewSale.DuplicateCheckNeverFires, NewSale.SameAccessoryAddedTwice | NewSale.AddItem, NewSale.AddItemKeepsDistinct |
| frontend/src/components/Forms/AccessoryForm.jsx:43-46 | The edit prefill uses `value \|\| fallback`, so stored numbers equal to 0 are falsy. | Editing an accessory with quantity 0 shows "Valid quantity is required" on submit. Saving one with reorder level 0 sends 5. | Fall back only on a missing value (`??`), so zeros are shown and sent back as 0. | high, not executed | AccessoryForm.PrefillAsWritten, AccessoryForm.ZeroStockPrefillRefused, AccessoryForm.ZeroReorderSubmittedAsFive | AccessoryForm.Prefill, AccessoryForm.PrefillRoundTrip, AccessoryForm.ValidAccessoryPrefillAccepted |
| backend/src/controllers/mobileController.js:190 | `mobile.update(updateData)` validates only the changed attributes, and the selling-versus-purchase check hangs on `sellingPrice`. | A valid unsold mobile patched with only `purchasePrice` = selling price + 1 is stored with selling below purchase. | Every stored mobile satisfies all of the model's validators. | medium, not executed | MobileController.UpdateMobileAsWritten, MobileController.PurchaseAboveSellingAccepted, MobileController.UpdateMobileChangedFields, SaleProofs.LossMakingSaleCommits | MobileController.UpdateMobileSpec, MobileController.UpdateMobileOutcome, MobileController.UpdateMobile |
