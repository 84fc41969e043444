# Inventory stock ledger — a Dafny model

The inventory application keeps products, locations and an append-only log of product
movements. A movement carries an optional source location and an optional destination
location: only a destination means a receipt, only a source means an outflow (a sale), and
both mean a transfer. The application stores no stock figure. Every total and every
per-location balance is recomputed from the whole log on each request, as a sum of `qty`
over the movements a filter selects.

This project models that balance engine and the request branches that write to the log:
- recording a movement, with its at-least-one-endpoint rule, its sufficient-stock guard and
  its low-stock alert;
- deleting a movement;
- adding, editing and deleting products, with initial stock and stock correction through
  compensating movements in the main warehouse `WH001`;
- adding, editing and deleting locations;
- allocating the `PROD…` and `WH…` ids;
- the three derived views: the low-stock list, the balance report and the per-product
  location list.

Modules:
- `Wrappers`: `Option` and `Result`.
- `Models`: the entities of `models.py`, primary-key lookup, key uniqueness (`Valid`) and
  the store-assigned movement id.
- `Ledger`: the sum filters as a `Query` datatype. It holds `TotalStock` as the application
  computes it, `LocationBalance`, and the transfer-neutral `PhysicalStock`, with lemmas on
  how appending or removing a movement changes each figure.
- `Ids`: lexicographic key order, `int()` on digit strings, `%03d`, and the id allocator
  as written, plus a corrected allocator.
- `Reports`: the three views, each with an exactness lemma that pins down which rows
  appear and in what order.
- `Operations`: the request branches as pure functions from an `Inventory` to a `Result`.
- `Scenarios`: the seed data and worked examples.

Each operation that can fail returns a `Result` whose `Error` names the failure:
- `NoEndpoint` and `InsufficientStock` are the form errors;
- `NotFound` is a lookup that finds no row;
- `MissingName` is the null name the schema rejects;
- `MalformedId` is an id suffix that `int()` rejects;
- `DuplicateId` is the primary-key clash on insert.

In every failure case the state is left as it was.

## Model

| member | source | states |
|---|---|---|
| Models.NewProduct | models.py:14-18 | the product row constructor: a missing threshold becomes the default 5 (a definition; `Operations.InsertProduct` states the threshold a new product gets) |
| Models.IndexOf | app.py:243-244 | key lookup finds nothing exactly when the key is absent; otherwise it finds the first row with that key |
| Models.MaxMovementId | models.py:27 | the greatest movement id is non-negative and bounds every id in the log |
| Models.MaxMovementIdAttained | models.py:27 | the greatest movement id is 0 (empty log) or belongs to some movement |
| Models.NextMovementId | models.py:27 | the id given to an inserted movement is at least 1, exceeds every id present and is therefore fresh |
| Models.DistinctRemoveAt | models.py:15 | deleting a row keeps the primary keys unique and removes its key |
| Models.DistinctAppend | models.py:15 | inserting a row with an unused key keeps the primary keys unique |
| Models.Valid | models.py:15-27 | the state invariant: product, location and movement primary keys are each unique |
| Ledger.Matches | app.py:81-90 | the filters: every query selects the product's movements; incoming means a destination, outgoing means a source and no destination, and a location query compares the destination or the source with that location. These four are the SQL filters of the application; `Receipt` and `Transfer` are filters of this model only, used by the corrected `Ledger.PhysicalStock` and by `Ledger.TotalStockCountsTransfers` |
| Ledger.SumQty | app.py:81-84 | the figure behind every view: the sum of qty over the movements a filter selects (a definition; its properties are the lemmas below) |
| Ledger.TotalStock | app.py:79-92 | the total as the application computes it: the incoming sum minus the outgoing sum (a definition) |
| Ledger.PhysicalStock | app.py:79-80 | the corrected total: receipts minus outflows, transfers neutral (a definition; `Ledger.PhysicalStockIsSumOfBalances` states what it means) |
| Ledger.LocationBalance | app.py:351-361 | a balance: the sum into the location minus the sum out of it (a definition) |
| Ledger.SumQtyNoMatch | app.py:81-84 | a sum over a log in which no movement matches the filter is 0, as `SUM` of no rows replaced by 0 |
| Ledger.SumQtyNonNegative | app.py:81-84 | a sum whose matching movements all have non-negative quantity is non-negative |
| Ledger.NoMovementsOf | app.py:79-92 | a product with no movements has computed total 0, transfer-neutral total 0 and balance 0 everywhere |
| Ledger.UntouchedLocation | app.py:351-361 | a location that no movement enters or leaves has balance 0 for every product |
| Ledger.SumQtyConcat | app.py:81-84 | the sum over two concatenated logs is the sum of the two sums |
| Ledger.SumQtyRemoveAt | app.py:81-84 | removing one movement from the log removes exactly its contribution from every sum |
| Ledger.TotalStockAppend | app.py:79-92 | appending a movement changes the total by + qty for any destination, - qty for an outflow, and 0 otherwise |
| Ledger.LocationBalanceAppend | app.py:351-361 | appending a movement changes a balance by + qty if it enters that location and - qty if it leaves it |
| Ledger.PhysicalStockAppend | app.py:79-80 | appending a movement changes the transfer-neutral total by its destination part minus its source part |
| Ledger.AppendEffects | app.py:367-374 | storing a movement changes every product's total and every balance by exactly that movement's delta |
| Ledger.RemoveAtEffects | app.py:385-390 | deleting a movement takes its delta away from every total and every balance |
| Ledger.InflowEffect | app.py:81-84 | a receipt raises the total and the destination balance by qty |
| Ledger.OutflowEffect | app.py:86-90 | an outflow lowers the total and the source balance by qty |
| Ledger.TransferEffect | app.py:81-90 | a transfer between two locations moves qty from one balance to the other, keeps their sum and the transfer-neutral total, and raises the computed total by qty |
| Ledger.WithoutProduct | app.py:267 | the filtered log is no longer than the full log and holds no movement of the product |
| Ledger.WithoutProductMembers | app.py:267 | a movement is in the filtered log exactly when it is in the full log and belongs to another product |
| Ledger.SumQtyKeepsOthers | app.py:267 | dropping one product's movements leaves every sum over another product unchanged |
| Ledger.SumQtyWithoutProduct | app.py:267 | dropping a product's movements zeroes its sums and leaves every other product's sums unchanged |
| Ledger.WithoutProductEffects | app.py:267 | after the cascade the product's total and balances are 0, and other products' totals and balances are unchanged |
| Ledger.TotalStockCountsTransfers | app.py:81-90 | the computed total equals the transfer-neutral total plus the quantity of all transfers |
| Ledger.PhysicalStockIsSumOfBalances | app.py:79-80 | when the locations are distinct and cover every endpoint, the transfer-neutral total is the sum of the product's balances over them |
| Ids.StrLeTotal | app.py:220 | any two ids are ordered by the key order |
| Ids.StrLe | app.py:220 | the text key order: character by character, with a proper prefix sorting first |
| Ids.StrLeTrans | app.py:220 | the key order is transitive |
| Ids.StrLeAntisymmetric | app.py:220 | two ids that each sort no later than the other are equal, so the order is a total order |
| Ids.StrLePrefix | app.py:220 | a prefix sorts no later than any string it begins |
| Ids.StrLeFirstDifference | app.py:220 | two strings are ordered by the first character where they differ, so "PROD1000" sorts before "PROD999" |
| Ids.GreatestId | app.py:220 | the first id in descending key order is present and no id sorts after it |
| Ids.DigitChar | app.py:221 | each digit value has a digit character that parses back to it |
| Ids.ParseNat | app.py:221 | `int()` succeeds exactly on non-empty strings of decimal digits |
| Ids.DecimalRoundTrip | app.py:221 | parsing the decimal rendering of n gives back n |
| Ids.ParseLeadingZeros | app.py:221 | leading zeros do not change the parsed number |
| Ids.Format03 | app.py:221 | `%03d` yields digits that parse back to the number, exactly three wide, or wider only with no leading zero |
| Ids.Suffix | app.py:221 | slicing off the prefix width leaves the rest of the id, or nothing for a shorter id |
| Ids.NextId | app.py:220-221 | an empty table gives prefix + "001"; allocation fails exactly when the greatest id's suffix is not a number; otherwise the new id is the prefix followed by that number + 1, padded to exactly three digits or wider only with no leading zero |
| Ids.FirstIdIsOne | app.py:221 | the first id allocated is number 1 |
| Ids.MaxNumber | app.py:220-221 | bounds the number of every id that carries the prefix and a numeric suffix |
| Ids.MaxNumberAttained | app.py:220-221 | that bound is 0 or the number of some existing id, so it is the numerically greatest |
| Ids.NextIdByNumber | app.py:220-221 | the corrected allocator yields an id not yet used, numbered one past the numerically greatest |
| Ids.NextIdByNumberFirst | app.py:221 | the corrected allocator starts at prefix + "001", as `Ids.NextId` does |
| Ids.NextIdAfter999 | app.py:220-221 | after "PROD999" the next id is "PROD1000" |
| Ids.NextIdCollides | app.py:220-221 | with "PROD999" and "PROD1000" present, the allocator hands out "PROD1000" again |
| Reports.Positions | app.py:98-101 | every selected position is in range and flagged |
| Reports.PositionsSpec | app.py:98-101 | the selected positions are strictly increasing, so row order is kept, and are exactly the flagged positions |
| Reports.IsLowStock | app.py:101 | a product is low when its computed total is at or below its threshold, the boundary included |
| Reports.LowStockProducts | app.py:94-109 | the list is no longer than the product list and every entry is at or below its threshold |
| Reports.LowStockRows | app.py:94-109 | the k-th entry is the row of the k-th flagged product |
| Reports.LowStockExact | app.py:94-109 | the list holds exactly the products whose total is at most their threshold, one row each, in product order, carrying name, id, stock and threshold |
| Reports.RowsAt | app.py:407-424 | each row at a location has positive quantity and names that location |
| Reports.RowsAtExact | app.py:407-424 | for one location the report holds exactly the products with positive balance there, in product order |
| Reports.BalanceReport | app.py:406-424 | every report row has positive quantity |
| Reports.PairPositions | app.py:406-407 | every selected (location, product) pair is in range and flagged |
| Reports.PairPositionsIncreasing | app.py:406-407 | the selected pairs come in location-major, then product order, each once |
| Reports.TagMembers | app.py:406-407 | tagging a row's selected columns with its row number yields exactly the cells of that row at those columns |
| Reports.PairPositionsExact | app.py:406-407 | the selected pairs are exactly the flagged pairs |
| Reports.BalanceReportRows | app.py:406-424 | the k-th report row is the row of the k-th (location, product) pair with stock |
| Reports.BalanceReportExact | app.py:406-424 | the report holds exactly the (location, product) pairs with positive balance, location-major then product order, carrying product name, location name and balance |
| Reports.ProductLocations | app.py:492-508 | the list is no longer than the location list and every quantity is positive |
| Reports.ProductLocationsExact | app.py:492-508 | the list holds exactly the locations where the product's balance is positive, in location order, with name and balance |
| Operations.FormLocation | app.py:341-342 | the `or None` on a location field: absent or empty means no location (a definition; `Operations.RecordMovement` states the endpoint rule through it) |
| Operations.LowStockCheck | app.py:376-381 | the alert reports the missing product exactly when the id is unknown; for a known product it fires exactly when the product is low on the new log, and then carries that product's name, fresh total and threshold |
| Operations.AlertMatchesLowStockList | app.py:376-381 | the alert fires exactly when the product is on the low-stock list, and carries that entry's name, stock and threshold |
| Operations.RecordMovement | app.py:338-381 | fails with no endpoint; fails with the available balance exactly when a given source holds less than qty; otherwise appends the movement with a fresh id, and the alert is computed on the new log; key uniqueness is kept |
| Operations.RecordAcceptsExactBalance | app.py:361-365 | moving out exactly what a (non-empty) location holds, to a destination other than that location, is accepted and leaves it at 0 |
| Operations.RecordKeepsSourceNonNegative | app.py:349-365 | an accepted movement out of a location whose destination is not that same location never leaves the source negative |
| Operations.DeleteMovement | app.py:385-390 | fails exactly when the id is absent; otherwise removes that movement only, every figure loses its delta, and the id is gone |
| Operations.InitialStock | app.py:233-237 | a positive initial quantity becomes one receipt into WH001 and raises only that product's total by it; otherwise nothing is recorded |
| Operations.InsertProduct | app.py:224-237 | inserting under an unused id appends the product with threshold 5 and its initial stock, extends the key list by that id, and keeps keys unique |
| Operations.AddProduct | app.py:219-239 | fails exactly on a malformed greatest id, a missing name or an allocated id already in use; otherwise appends the product with the allocated id and threshold 5, plus its initial stock |
| Operations.StockCorrection | app.py:249-260 | the total afterwards is the requested quantity; nothing is recorded when it already is; otherwise one movement for the difference into or out of WH001, and no other product's total or other balance changes |
| Operations.EditProduct | app.py:241-262 | fails on an unknown id or a missing name; otherwise updates name and description in place, keeps the id and threshold, and sets the total to the requested quantity without touching other products |
| Operations.ReplaceProduct | app.py:245-260 | the edited row keeps its id and threshold and takes the new name and description, the key list is unchanged, the correction is appended, and keys stay unique |
| Operations.CorrectionKeepsIdsDistinct | app.py:254-259 | the correction movement, if any, takes a movement id not yet used |
| Operations.DeleteProduct | app.py:264-270 | fails exactly on an unknown id; otherwise removes the product and all its movements, so its figures are 0 and every other product's are unchanged |
| Operations.InsertLocation | app.py:303-309 | inserting under an unused id appends exactly that location, extends the key list by that id, and keeps keys unique |
| Operations.AddLocation | app.py:295-310 | fails exactly on a malformed greatest id, a missing name or an allocated id already in use; otherwise appends the location with the allocated `WH` id |
| Operations.EditLocation | app.py:312-318 | fails on an unknown id or a missing name; otherwise updates name and description in place and keeps the id |
| Operations.DeleteLocation | app.py:320-325 | fails exactly on an unknown id; otherwise removes the location only; the movements that name it stay, so every total and balance is unchanged |
| Operations.AddProductCorrected | app.py:219-239 | with the corrected allocator, adding a product fails only on a missing name, and the new id is always unused |
| Operations.AddProductCorrectedTwice | app.py:219-231 | two corrected adds in a row both succeed, with distinct ids and unique keys kept |
| Operations.PhysicalCorrection | app.py:249-260 | the corrected edit brings the held stock to the requested quantity through one WH001 movement, or records nothing when it is already there |
| Operations.PhysicalCorrectionSetsHeldStock | app.py:249-260 | after the corrected edit the product's balances over all locations sum to the requested quantity |
| Scenarios.OtherStep | app.py:79-92 | a movement of another product changes none of a product's balances or totals |
| Scenarios.ReceiptStep | app.py:81-84 | a receipt of qty at a location raises that balance, the units held and the computed total by qty, and leaves another location alone |
| Scenarios.TransferStepFigures | app.py:81-90 | a transfer of qty moves qty from one balance to the other, leaves the units held alone, and still raises the computed total by qty |
| Scenarios.SeedLedgerTotals | app.py:145-154 | for any ids where the first product differs from the other two and the two locations differ, the first seeded product ends with 35 and 15 at the two locations, 50 held, and a computed total of 65 |
| Scenarios.SeedTotals | app.py:145-154 | with the seed data, PROD001 shows 35 at WH001, 15 at WH002, 50 held, and a total of 65 |
| Scenarios.ReceiveStep | app.py:338-381 | receiving 50 at a location of a fresh inventory is accepted without an alert and gives that location 50 |
| Scenarios.NoAlertAbove | app.py:376-381 | a product whose total is above its threshold of 10 raises no alert |
| Scenarios.TransferStep | app.py:338-381 | transferring 15 of 50 held at one location is accepted without an alert and leaves 35 and 15, with a total of 65 |
| Scenarios.ReceiveThenTransfer | app.py:338-381 | receiving 50 and transferring 15 through the movement form raises no alert and gives balances 35 and 15, with a total of 65 |
| Scenarios.LowStockBoundary | app.py:101 | a total equal to the threshold puts the product on the low-stock list |
| Scenarios.EditOverdrawsMainWarehouse | app.py:254-258 | lowering the quantity of stock held outside WH001 records an outflow from WH001 and drives its balance negative |
| Scenarios.AddAfterProd999 | app.py:219-231 | with PROD999 the only product, adding one succeeds under PROD1000 |
| Scenarios.AddAfterProd1000Fails | app.py:219-231 | with PROD999 and PROD1000 present, adding a product fails on the duplicate key |
| Scenarios.AddAfterProd999Collides | app.py:219-231 | after PROD999 the next product gets PROD1000, and the product after that fails with a duplicate key |

## Left out

- Web layer: routing, templates, flash messages, redirects, JSON responses and the
  dashboard counts are left out. Each branch is modelled by its effect on the stored data
  and by its error.
- Authentication and the user table are left out, because they do not touch the ledger.
- Email: sending the low-stock email over SMTP is left out. The model returns the decision
  as the `Alert` value.
- The PDF report is left out (app.py:428-476). It repeats the balance report's row
  computation, and only the page layout is new.
- The ReportLab MD5 patch and `init_db` are left out. The seed data appears as
  `Scenarios.SeedMovements`.
- Timestamps and the descending-time history view are left out, because no figure
  depends on them.
- Concurrency is left out. Concurrent requests are not modelled, so a race between the
  stock check and the commit is not captured.
- The two commits of `AddProduct` and `EditProduct` are not separated. The product row and
  the follow-up movement are committed one after the other; the model treats the pair as
  one step.
- `int()` on form fields is not modelled: `qty` arrives as an integer. When adding a
  product or recording a movement, a non-numeric quantity raises before anything is
  stored.
- Operations.EditProduct: does not model a non-numeric quantity on the edit form. The name
  and description are committed (app.py:247) before the quantity is parsed (app.py:250),
  so such a request leaves the new name and description stored with no stock correction.
  The model always receives an integer quantity, so it has no such partial outcome.
- Integer width is not modelled: quantities and their sums are unbounded integers. The
  store's 64-bit `INTEGER` column rejects a larger quantity on insert, and SQLite's `SUM`
  raises on overflow instead of wrapping. The model does not produce those errors, so
  `Ledger.SumQty`, `Ledger.TotalStock` and `Ledger.LocationBalance` never fail.
- `Ids.ParseNat`: models `int()` only on ASCII decimal digits. Signs, surrounding
  whitespace, underscores and non-ASCII digits, all of which `int()` accepts, count as
  `MalformedId`.
- Foreign keys are not enforced by the store. Movements may name unknown products or
  locations, and deleting a location does not cascade. The model reproduces this
  behaviour.
- The quantity is not checked for sign. A negative qty is modelled as the code accepts it.
- A product's threshold can only be the default or a seed value, because no edit path
  changes it.
- The per-product location list route is declared after the blocking `app.run` call. It
  is registered only when the module is imported rather than run. The model covers what
  it computes.

## Findings

| source | as written | input that shows it | evidently intended | confidence | as-written member | corrected member |
|---|---|---|---|---|---|---|
| app.py:81-90 | the incoming sum selects every movement with a destination, so transfers add to the total while they subtract from nothing | seed data: PROD001 receives 50 at WH001 and transfers 15 to WH002; the total shown is 65 while the balances sum to 50 | the total is the stock across all locations (the function's docstring), i.e. receipts minus outflows, with transfers neutral | high, not executed | Ledger.TotalStockCountsTransfers | Ledger.PhysicalStockIsSumOfBalances |
| app.py:220-221 | the next id comes from the greatest id in string order and a fixed-width suffix, so "PROD1000" sorts before "PROD999" | products PROD999 and PROD1000: the allocator yields PROD1000 again and the insert fails on the primary key (the same holds for locations, app.py:296-299) | one past the numerically greatest id, always fresh | high, not executed | Ids.NextIdCollides | Ids.NextIdByNumber |

The operations of the application keep the as-written `TotalStock` and `NextId`, because
those reproduce what the application stores and shows. The corrected definitions are
`Ledger.PhysicalStock` and `Ids.NextIdByNumber`, and the corrected product operations build
on them:
- `Operations.AddProductCorrected` can never fail on a duplicate key.
- `Operations.PhysicalCorrection` sets the stock actually held across locations to the
  edited quantity.
