/**
 * The state-changing actions of the application: recording and deleting movements, and
 * adding, editing and deleting products and locations. Each returns the new state or the
 * reason it left the state unchanged.
 */
module Operations {
  import opened Wrappers
  import opened Models
  import opened Ledger
  import Ids
  import Reports

  // ---------------------------------------------------------------------------
  // Key bookkeeping used by the operations below.

  lemma ProductIdsRemoveAt(ps: seq<Product>, i: nat)
    requires i < |ps|
    ensures ProductIds(RemoveAt(ps, i)) == RemoveAt(ProductIds(ps), i)
  {
  }

  lemma LocationIdsRemoveAt(ls: seq<Location>, i: nat)
    requires i < |ls|
    ensures LocationIds(RemoveAt(ls, i)) == RemoveAt(LocationIds(ls), i)
  {
  }

  lemma MovementIdsRemoveAt(ms: seq<Movement>, i: nat)
    requires i < |ms|
    ensures MovementIds(RemoveAt(ms, i)) == RemoveAt(MovementIds(ms), i)
  {
  }

  lemma {:induction false} WithoutProductDistinct(ms: seq<Movement>, p: ProductId)
    requires Distinct(MovementIds(ms))
    ensures Distinct(MovementIds(WithoutProduct(ms, p)))
    decreases |ms|
  {
    if |ms| > 0 {
      var n := |ms| - 1;
      var ms' := ms[..n];
      assert Distinct(MovementIds(ms')) by {
        assert forall i :: 0 <= i < n ==> MovementIds(ms')[i] == MovementIds(ms)[i];
      }
      WithoutProductDistinct(ms', p);
      WithoutProductMembers(ms', p);
      var rest := WithoutProduct(ms', p);
      if ms[n].productId != p {
        assert WithoutProduct(ms, p) == rest + [ms[n]];
        assert MovementIds(rest + [ms[n]]) == MovementIds(rest) + [ms[n].movementId];
        forall k | 0 <= k < |rest|
          ensures rest[k].movementId != ms[n].movementId
        {
          assert rest[k] in ms';
          var j :| 0 <= j < n && ms'[j] == rest[k];
          assert MovementIds(ms)[j] == rest[k].movementId;
        }
        DistinctAppend(MovementIds(rest), ms[n].movementId);
      }
    }
  }

  // ---------------------------------------------------------------------------
  // Movements.

  /** A form field naming a location: an absent or empty field means "no location". */
  function FormLocation(field: Option<string>): (r: Option<LocationId>)
    ensures r.None? <==> field.None? || field.value == ""
    ensures r.Some? ==> r == field
  {
    if field.Some? && field.value != "" then field else None
  }

  /** What the post-commit stock check decides. */
  datatype Alert =
    | NoAlert
    | LowStockAlert(product: string, stock: int, minStock: int) // a low-stock notification is sent
    | ProductMissing // the product lookup finds nothing and the request fails after the commit

  /** The check run after a movement is stored: the product's fresh total against its threshold. */
  function LowStockCheck(ps: seq<Product>, ms: seq<Movement>, productId: ProductId): (a: Alert)
    ensures a.ProductMissing? <==> productId !in ProductIds(ps)
    ensures a.LowStockAlert? ==> a.stock == TotalStock(ms, productId) && a.stock <= a.minStock
    ensures a.NoAlert? ==> productId in ProductIds(ps)
    ensures productId in ProductIds(ps) ==>
      var pr := ps[IndexOf(ProductIds(ps), productId).value];
      && (a.LowStockAlert? <==> Reports.IsLowStock(ms, pr))
      && (a.LowStockAlert? ==> a == LowStockAlert(pr.name, TotalStock(ms, productId), pr.minStock))
  {
    match IndexOf(ProductIds(ps), productId)
    case None => ProductMissing
    case Some(i) =>
      var total := TotalStock(ms, productId);
      if total <= ps[i].minStock then LowStockAlert(ps[i].name, total, ps[i].minStock) else NoAlert
  }

  /**
   * The alert fires exactly when the product appears on the low-stock list, and it
   * carries that list entry's name, stock and threshold.
   */
  lemma AlertMatchesLowStockList(ps: seq<Product>, ms: seq<Movement>, productId: ProductId)
    requires Distinct(ProductIds(ps))
    requires productId in ProductIds(ps)
    ensures var a := LowStockCheck(ps, ms, productId);
            var low := Reports.LowStockProducts(ps, ms);
      && (a.LowStockAlert? <==> exists k :: 0 <= k < |low| && low[k].productId == productId)
      && (forall k :: 0 <= k < |low| && low[k].productId == productId ==>
            a == LowStockAlert(low[k].product, low[k].stock, low[k].minStock))
  {
    var low := Reports.LowStockProducts(ps, ms);
    var idx := Reports.LowStockExact(ps, ms);
    var i := IndexOf(ProductIds(ps), productId).value;
    forall k | 0 <= k < |low| && low[k].productId == productId
      ensures idx[k] == i
    {
      assert ProductIds(ps)[idx[k]] == productId;
    }
    if Reports.IsLowStock(ms, ps[i]) {
      assert i in idx;
      var k :| 0 <= k < |idx| && idx[k] == i;
      assert low[k].productId == productId;
    }
  }

  /** The stored result of recording a movement. */
  datatype Recorded = Recorded(inventory: Inventory, movement: Movement, alert: Alert)

  /**
   * Record a movement of `qty` units of a product. It needs at least one endpoint; when
   * it has a source, the product's balance there must be at least `qty`. Before the
   * movement is stored neither the product nor the locations are looked up, and `qty` is
   * not checked for sign; the product is looked up only afterwards, for the alert.
   */
  function RecordMovement(inv: Inventory, productId: ProductId, qty: int,
                          fromField: Option<string>, toField: Option<string>): (r: Result<Recorded, Error>)
    ensures FormLocation(fromField).None? && FormLocation(toField).None? ==> r == Failure(NoEndpoint)
    ensures FormLocation(fromField).Some? ==>
      var available := LocationBalance(inv.movements, productId, FormLocation(fromField).value);
      (r == Failure(InsufficientStock(available)) <==> available < qty)
    ensures r.Success? <==>
      && (FormLocation(fromField).Some? || FormLocation(toField).Some?)
      && (FormLocation(fromField).Some? ==>
            qty <= LocationBalance(inv.movements, productId, FormLocation(fromField).value))
    ensures r.Success? ==>
      && r.value.movement
         == Movement(NextMovementId(inv.movements), productId, FormLocation(fromField), FormLocation(toField), qty)
      && r.value.movement.movementId !in MovementIds(inv.movements)
      && r.value.inventory == inv.(movements := inv.movements + [r.value.movement])
      && r.value.alert == LowStockCheck(inv.products, r.value.inventory.movements, productId)
    ensures r.Success? && Valid(inv) ==> Valid(r.value.inventory)
  {
    var from := FormLocation(fromField);
    var to := FormLocation(toField);
    if from.None? && to.None? then Failure(NoEndpoint)
    else if from.Some? && LocationBalance(inv.movements, productId, from.value) < qty then
      Failure(InsufficientStock(LocationBalance(inv.movements, productId, from.value)))
    else
      var m := Movement(NextMovementId(inv.movements), productId, from, to, qty);
      var inv' := inv.(movements := inv.movements + [m]);
      assert MovementIds(inv'.movements) == MovementIds(inv.movements) + [m.movementId];
      assert Valid(inv) ==> Valid(inv') by {
        if Valid(inv) {
          DistinctAppend(MovementIds(inv.movements), m.movementId);
        }
      }
      Success(Recorded(inv', m, LowStockCheck(inv.products, inv'.movements, productId)))
  }

  /** Moving out exactly the quantity a location holds is accepted and leaves it at zero. */
  lemma RecordAcceptsExactBalance(inv: Inventory, productId: ProductId, from: LocationId, toField: Option<string>)
    requires from != ""
    requires FormLocation(toField) != Some(from)
    ensures var qty := LocationBalance(inv.movements, productId, from);
            var r := RecordMovement(inv, productId, qty, Some(from), toField);
      && r.Success?
      && LocationBalance(r.value.inventory.movements, productId, from) == 0
  {
    var qty := LocationBalance(inv.movements, productId, from);
    var r := RecordMovement(inv, productId, qty, Some(from), toField);
    LocationBalanceAppend(inv.movements, r.value.movement, productId, from);
  }

  /**
   * A movement out of a location never leaves that location's balance negative,
   * unless it moves the stock back into the same location.
   */
  lemma RecordKeepsSourceNonNegative(inv: Inventory, productId: ProductId, qty: int,
                                     fromField: Option<string>, toField: Option<string>)
    requires FormLocation(fromField).Some? && FormLocation(toField) != FormLocation(fromField)
    ensures var r := RecordMovement(inv, productId, qty, fromField, toField);
      r.Success? ==> LocationBalance(r.value.inventory.movements, productId, FormLocation(fromField).value) >= 0
  {
    var r := RecordMovement(inv, productId, qty, fromField, toField);
    if r.Success? {
      LocationBalanceAppend(inv.movements, r.value.movement, productId, FormLocation(fromField).value);
    }
  }

  /**
   * Remove one movement by id. Nothing compensates for it: every total and balance
   * loses exactly that movement's effect.
   */
  function DeleteMovement(inv: Inventory, movementId: int): (r: Result<Inventory, Error>)
    ensures r.Failure? <==> movementId !in MovementIds(inv.movements)
    ensures r.Failure? ==> r.error == NotFound
    ensures r.Success? ==>
      var i := IndexOf(MovementIds(inv.movements), movementId).value;
      && inv.movements[i].movementId == movementId
      && r.value == inv.(movements := RemoveAt(inv.movements, i))
      && (forall p :: TotalStock(r.value.movements, p) == TotalStock(inv.movements, p) - TotalDelta(inv.movements[i], p))
      && (forall p, l :: LocationBalance(r.value.movements, p, l)
                         == LocationBalance(inv.movements, p, l) - BalanceDelta(inv.movements[i], p, l))
    ensures r.Success? && Valid(inv) ==> Valid(r.value) && movementId !in MovementIds(r.value.movements)
  {
    match IndexOf(MovementIds(inv.movements), movementId)
    case None => Failure(NotFound)
    case Some(i) =>
      var ms := inv.movements;
      var ms' := RemoveAt(ms, i);
      RemoveAtEffects(ms, i);
      assert Valid(inv) ==> Valid(inv.(movements := ms')) && movementId !in MovementIds(ms') by {
        if Valid(inv) {
          MovementIdsRemoveAt(ms, i);
          DistinctRemoveAt(MovementIds(ms), i);
        }
      }
      Success(inv.(movements := ms'))
  }

  // ---------------------------------------------------------------------------
  // Products.

  /** The result of adding a product or a location: the new state and the allocated id. */
  datatype Added = Added(inventory: Inventory, id: string)

  /**
   * The movements recorded for a new product's initial quantity: one receipt into the
   * main warehouse when the quantity is positive, nothing otherwise.
   */
  function InitialStock(ms: seq<Movement>, id: ProductId, qty: int): (r: seq<Movement>)
    ensures qty > 0 ==> r == [Movement(NextMovementId(ms), id, None, Some(MainWarehouse), qty)]
    ensures qty <= 0 ==> r == []
    ensures TotalStock(ms + r, id) == TotalStock(ms, id) + (if qty > 0 then qty else 0)
    ensures forall p :: p != id ==> TotalStock(ms + r, p) == TotalStock(ms, p)
    ensures Distinct(MovementIds(ms)) ==> Distinct(MovementIds(ms + r))
  {
    if qty > 0 then
      var m := Movement(NextMovementId(ms), id, None, Some(MainWarehouse), qty);
      AppendEffects(ms, m);
      assert MovementIds(ms + [m]) == MovementIds(ms) + [m.movementId];
      assert Distinct(MovementIds(ms)) ==> Distinct(MovementIds(ms + [m])) by {
        if Distinct(MovementIds(ms)) {
          DistinctAppend(MovementIds(ms), m.movementId);
        }
      }
      [m]
    else
      assert ms + [] == ms;
      []
  }

  /**
   * Insert a product row under an unused id with the default threshold, followed by its
   * initial stock. Both allocators end here.
   */
  function InsertProduct(inv: Inventory, id: ProductId, name: string, description: Option<string>, qty: int): (r: Inventory)
    requires id !in ProductIds(inv.products)
    ensures r.products == inv.products + [Product(id, name, description, DefaultMinStock)]
    ensures r.locations == inv.locations
    ensures r.movements == inv.movements + InitialStock(inv.movements, id, qty)
    ensures ProductIds(r.products) == ProductIds(inv.products) + [id]
    ensures Valid(inv) ==> Valid(r)
  {
    var ps' := inv.products + [NewProduct(id, name, description, None)];
    var ms' := inv.movements + InitialStock(inv.movements, id, qty);
    assert ProductIds(ps') == ProductIds(inv.products) + [id];
    assert Valid(inv) ==> Valid(Inventory(ps', inv.locations, ms')) by {
      if Valid(inv) {
        DistinctAppend(ProductIds(inv.products), id);
      }
    }
    Inventory(ps', inv.locations, ms')
  }

  /**
   * Add a product with the next `PROD` id and the default threshold; a positive initial
   * quantity is recorded as a receipt into the main warehouse.
   */
  function AddProduct(inv: Inventory, name: Option<string>, description: Option<string>, qty: int): (r: Result<Added, Error>)
    ensures var next := Ids.NextId(ProductPrefix, ProductIds(inv.products));
      r.Failure? <==> next.None? || name.None? || next.value in ProductIds(inv.products)
    ensures Ids.NextId(ProductPrefix, ProductIds(inv.products)).None? ==> r == Failure(MalformedId)
    ensures Ids.NextId(ProductPrefix, ProductIds(inv.products)).Some? && name.None? ==> r == Failure(MissingName)
    ensures r.Failure? ==> r.error == MalformedId || r.error == MissingName || r.error == DuplicateId
    ensures r.Success? ==>
      && Ids.NextId(ProductPrefix, ProductIds(inv.products)) == Some(r.value.id)
      && r.value.id !in ProductIds(inv.products)
      && r.value.inventory.products == inv.products + [Product(r.value.id, name.value, description, DefaultMinStock)]
      && r.value.inventory.locations == inv.locations
      && r.value.inventory.movements == inv.movements + InitialStock(inv.movements, r.value.id, qty)
    ensures r.Success? && Valid(inv) ==> Valid(r.value.inventory)
  {
    match Ids.NextId(ProductPrefix, ProductIds(inv.products))
    case None => Failure(MalformedId)
    case Some(id) =>
      if name.None? then Failure(MissingName)
      else if id in ProductIds(inv.products) then Failure(DuplicateId)
      else Success(Added(InsertProduct(inv, id, name.value, description, qty), id))
  }

  /**
   * The movements that bring a product's total to `newQty`: nothing when it is already
   * there, otherwise one receipt into or one outflow from the main warehouse for the
   * difference. The outflow is not checked against the warehouse balance.
   */
  function StockCorrection(ms: seq<Movement>, productId: ProductId, newQty: int): (r: seq<Movement>)
    ensures TotalStock(ms + r, productId) == newQty
    ensures TotalStock(ms, productId) == newQty ==> r == []
    ensures TotalStock(ms, productId) != newQty ==>
      && |r| == 1
      && r[0].movementId == NextMovementId(ms)
      && r[0].productId == productId
      && r[0].qty > 0
      && (r[0].qty == newQty - TotalStock(ms, productId) || r[0].qty == TotalStock(ms, productId) - newQty)
      && (newQty > TotalStock(ms, productId) <==> r[0].fromLocation.None? && r[0].toLocation == Some(MainWarehouse))
      && (newQty < TotalStock(ms, productId) <==> r[0].fromLocation == Some(MainWarehouse) && r[0].toLocation.None?)
    ensures forall p :: p != productId ==> TotalStock(ms + r, p) == TotalStock(ms, p)
    ensures forall p, l :: p != productId || l != MainWarehouse ==> LocationBalance(ms + r, p, l) == LocationBalance(ms, p, l)
  {
    var diff := newQty - TotalStock(ms, productId);
    if diff == 0 then
      assert ms + [] == ms;
      []
    else
      var m := if diff > 0 then Movement(NextMovementId(ms), productId, None, Some(MainWarehouse), diff)
               else Movement(NextMovementId(ms), productId, Some(MainWarehouse), None, -diff);
      AppendEffects(ms, m);
      [m]
  }

  /**
   * Edit a product's name and description and set its stock to `newQty` through a
   * compensating movement. The id and the threshold are kept.
   */
  function EditProduct(inv: Inventory, productId: ProductId, name: Option<string>, description: Option<string>,
                       newQty: int): (r: Result<Inventory, Error>)
    ensures productId !in ProductIds(inv.products) ==> r == Failure(NotFound)
    ensures productId in ProductIds(inv.products) && name.None? ==> r == Failure(MissingName)
    ensures r.Success? <==> productId in ProductIds(inv.products) && name.Some?
    ensures r.Success? ==>
      var i := IndexOf(ProductIds(inv.products), productId).value;
      && r.value.products == inv.products[i := Product(productId, name.value, description, inv.products[i].minStock)]
      && r.value.locations == inv.locations
      && r.value.movements == inv.movements + StockCorrection(inv.movements, productId, newQty)
    ensures r.Success? ==> TotalStock(r.value.movements, productId) == newQty
    ensures r.Success? && TotalStock(inv.movements, productId) == newQty ==> r.value.movements == inv.movements
    ensures r.Success? ==> forall p :: p != productId ==> TotalStock(r.value.movements, p) == TotalStock(inv.movements, p)
    ensures r.Success? && Valid(inv) ==> Valid(r.value)
  {
    match IndexOf(ProductIds(inv.products), productId)
    case None => Failure(NotFound)
    case Some(i) =>
      if name.None? then Failure(MissingName)
      else Success(ReplaceProduct(inv, i, name.value, description, newQty))
  }

  /**
   * Overwrite the name and description of the product at index `i`, keeping its id and
   * threshold, and append the correction that brings its stock to `newQty`.
   */
  function ReplaceProduct(inv: Inventory, i: nat, name: string, description: Option<string>, newQty: int): (r: Inventory)
    requires i < |inv.products|
    ensures r.products == inv.products[i := Product(inv.products[i].productId, name, description, inv.products[i].minStock)]
    ensures r.locations == inv.locations
    ensures r.movements == inv.movements + StockCorrection(inv.movements, inv.products[i].productId, newQty)
    ensures ProductIds(r.products) == ProductIds(inv.products)
    ensures Valid(inv) ==> Valid(r)
  {
    var current := inv.products[i];
    var ps' := inv.products[i := Product(current.productId, name, description, current.minStock)];
    var ms' := inv.movements + StockCorrection(inv.movements, current.productId, newQty);
    assert ProductIds(ps') == ProductIds(inv.products);
    assert Valid(inv) ==> Distinct(MovementIds(ms')) by {
      if Valid(inv) {
        CorrectionKeepsIdsDistinct(inv.movements, current.productId, newQty);
      }
    }
    Inventory(ps', inv.locations, ms')
  }

  /** The correction movement, if any, takes an id no stored movement has. */
  lemma CorrectionKeepsIdsDistinct(ms: seq<Movement>, productId: ProductId, newQty: int)
    requires Distinct(MovementIds(ms))
    ensures Distinct(MovementIds(ms + StockCorrection(ms, productId, newQty)))
  {
    var fix := StockCorrection(ms, productId, newQty);
    if |fix| == 1 {
      assert MovementIds(ms + fix) == MovementIds(ms) + [fix[0].movementId];
      DistinctAppend(MovementIds(ms), fix[0].movementId);
    }
  }

  /** Delete a product together with every movement of it; other products keep their stock. */
  function DeleteProduct(inv: Inventory, productId: ProductId): (r: Result<Inventory, Error>)
    ensures r.Failure? <==> productId !in ProductIds(inv.products)
    ensures r.Failure? ==> r.error == NotFound
    ensures r.Success? ==>
      && r.value.products == RemoveAt(inv.products, IndexOf(ProductIds(inv.products), productId).value)
      && r.value.locations == inv.locations
      && (forall m :: m in r.value.movements <==> m in inv.movements && m.productId != productId)
      && TotalStock(r.value.movements, productId) == 0
      && (forall l :: LocationBalance(r.value.movements, productId, l) == 0)
      && (forall p :: p != productId ==> TotalStock(r.value.movements, p) == TotalStock(inv.movements, p))
      && (forall p, l :: p != productId ==> LocationBalance(r.value.movements, p, l) == LocationBalance(inv.movements, p, l))
    ensures r.Success? && Valid(inv) ==> Valid(r.value) && productId !in ProductIds(r.value.products)
  {
    match IndexOf(ProductIds(inv.products), productId)
    case None => Failure(NotFound)
    case Some(i) =>
      var ms' := WithoutProduct(inv.movements, productId);
      var ps' := RemoveAt(inv.products, i);
      WithoutProductEffects(inv.movements, productId);
      WithoutProductMembers(inv.movements, productId);
      assert Valid(inv) ==> Valid(Inventory(ps', inv.locations, ms')) && productId !in ProductIds(ps') by {
        if Valid(inv) {
          ProductIdsRemoveAt(inv.products, i);
          DistinctRemoveAt(ProductIds(inv.products), i);
          WithoutProductDistinct(inv.movements, productId);
        }
      }
      Success(Inventory(ps', inv.locations, ms'))
  }

  // ---------------------------------------------------------------------------
  // Locations.

  /** Insert a location row under an unused id. */
  function InsertLocation(inv: Inventory, id: LocationId, name: string, description: Option<string>): (r: Inventory)
    requires id !in LocationIds(inv.locations)
    ensures r == inv.(locations := inv.locations + [Location(id, name, description)])
    ensures LocationIds(r.locations) == LocationIds(inv.locations) + [id]
    ensures Valid(inv) ==> Valid(r)
  {
    var ls' := inv.locations + [Location(id, name, description)];
    assert LocationIds(ls') == LocationIds(inv.locations) + [id];
    assert Valid(inv) ==> Valid(inv.(locations := ls')) by {
      if Valid(inv) {
        DistinctAppend(LocationIds(inv.locations), id);
      }
    }
    inv.(locations := ls')
  }

  /** Add a location with the next `WH` id. */
  function AddLocation(inv: Inventory, name: Option<string>, description: Option<string>): (r: Result<Added, Error>)
    ensures var next := Ids.NextId(LocationPrefix, LocationIds(inv.locations));
      r.Failure? <==> next.None? || name.None? || next.value in LocationIds(inv.locations)
    ensures Ids.NextId(LocationPrefix, LocationIds(inv.locations)).None? ==> r == Failure(MalformedId)
    ensures Ids.NextId(LocationPrefix, LocationIds(inv.locations)).Some? && name.None? ==> r == Failure(MissingName)
    ensures r.Failure? ==> r.error == MalformedId || r.error == MissingName || r.error == DuplicateId
    ensures r.Success? ==>
      && Ids.NextId(LocationPrefix, LocationIds(inv.locations)) == Some(r.value.id)
      && r.value.id !in LocationIds(inv.locations)
      && r.value.inventory == inv.(locations := inv.locations + [Location(r.value.id, name.value, description)])
    ensures r.Success? && Valid(inv) ==> Valid(r.value.inventory)
  {
    match Ids.NextId(LocationPrefix, LocationIds(inv.locations))
    case None => Failure(MalformedId)
    case Some(id) =>
      if name.None? then Failure(MissingName)
      else if id in LocationIds(inv.locations) then Failure(DuplicateId)
      else Success(Added(InsertLocation(inv, id, name.value, description), id))
  }

  /** Edit a location's name and description; its id is kept. */
  function EditLocation(inv: Inventory, locationId: LocationId, name: Option<string>, description: Option<string>)
    : (r: Result<Inventory, Error>)
    ensures locationId !in LocationIds(inv.locations) ==> r == Failure(NotFound)
    ensures locationId in LocationIds(inv.locations) && name.None? ==> r == Failure(MissingName)
    ensures r.Success? <==> locationId in LocationIds(inv.locations) && name.Some?
    ensures r.Success? ==>
      var i := IndexOf(LocationIds(inv.locations), locationId).value;
      r.value == inv.(locations := inv.locations[i := Location(locationId, name.value, description)])
    ensures r.Success? && Valid(inv) ==> Valid(r.value)
  {
    match IndexOf(LocationIds(inv.locations), locationId)
    case None => Failure(NotFound)
    case Some(i) =>
      if name.None? then Failure(MissingName)
      else
        var ls' := inv.locations[i := Location(locationId, name.value, description)];
        assert LocationIds(ls') == LocationIds(inv.locations);
        Success(inv.(locations := ls'))
  }

  /**
   * Delete a location. Movements that name it are kept, so every total and balance is
   * unchanged; the location only stops appearing in the location-based views.
   */
  function DeleteLocation(inv: Inventory, locationId: LocationId): (r: Result<Inventory, Error>)
    ensures r.Failure? <==> locationId !in LocationIds(inv.locations)
    ensures r.Failure? ==> r.error == NotFound
    ensures r.Success? ==>
      && r.value.locations == RemoveAt(inv.locations, IndexOf(LocationIds(inv.locations), locationId).value)
      && r.value.products == inv.products
      && r.value.movements == inv.movements
    ensures r.Success? && Valid(inv) ==> Valid(r.value) && locationId !in LocationIds(r.value.locations)
  {
    match IndexOf(LocationIds(inv.locations), locationId)
    case None => Failure(NotFound)
    case Some(i) =>
      var ls' := RemoveAt(inv.locations, i);
      assert Valid(inv) ==> Valid(inv.(locations := ls')) && locationId !in LocationIds(ls') by {
        if Valid(inv) {
          LocationIdsRemoveAt(inv.locations, i);
          DistinctRemoveAt(LocationIds(inv.locations), i);
        }
      }
      Success(inv.(locations := ls'))
  }

  // ---------------------------------------------------------------------------
  // Corrected variants: the product operations on the corrected id allocator and the
  // transfer-neutral total.

  /** Add a product with the numerically next `PROD` id: only a missing name can fail. */
  function AddProductCorrected(inv: Inventory, name: Option<string>, description: Option<string>, qty: int): (r: Result<Added, Error>)
    ensures r.Failure? <==> name.None?
    ensures r.Failure? ==> r.error == MissingName
    ensures r.Success? ==>
      && r.value.id == Ids.NextIdByNumber(ProductPrefix, ProductIds(inv.products))
      && r.value.id !in ProductIds(inv.products)
      && r.value.inventory.products == inv.products + [Product(r.value.id, name.value, description, DefaultMinStock)]
      && r.value.inventory.locations == inv.locations
      && r.value.inventory.movements == inv.movements + InitialStock(inv.movements, r.value.id, qty)
    ensures r.Success? && Valid(inv) ==> Valid(r.value.inventory)
  {
    if name.None? then Failure(MissingName)
    else
      var id := Ids.NextIdByNumber(ProductPrefix, ProductIds(inv.products));
      Success(Added(InsertProduct(inv, id, name.value, description, qty), id))
  }

  /** Adding products one after another never fails on the key, whatever ids exist. */
  lemma AddProductCorrectedTwice(inv: Inventory, name1: string, name2: string)
    requires Valid(inv)
    ensures var r1 := AddProductCorrected(inv, Some(name1), None, 0);
      && r1.Success? && Valid(r1.value.inventory)
      && var r2 := AddProductCorrected(r1.value.inventory, Some(name2), None, 0);
      && r2.Success? && Valid(r2.value.inventory) && r2.value.id != r1.value.id
  {
    var r1 := AddProductCorrected(inv, Some(name1), None, 0);
    var r2 := AddProductCorrected(r1.value.inventory, Some(name2), None, 0);
    assert r1.value.id in ProductIds(r1.value.inventory.products) by {
      var ps := r1.value.inventory.products;
      assert ProductIds(ps)[|ps| - 1] == r1.value.id;
    }
  }

  /**
   * The movements that bring a product's held stock (receipts minus outflows) to
   * `newQty`, through the main warehouse as `StockCorrection` does.
   */
  function PhysicalCorrection(ms: seq<Movement>, productId: ProductId, newQty: int): (r: seq<Movement>)
    ensures PhysicalStock(ms + r, productId) == newQty
    ensures PhysicalStock(ms, productId) == newQty ==> r == []
    ensures PhysicalStock(ms, productId) != newQty ==>
      && |r| == 1
      && r[0].movementId == NextMovementId(ms)
      && r[0].productId == productId
      && r[0].qty > 0
      && (newQty > PhysicalStock(ms, productId) <==> r[0].fromLocation.None? && r[0].toLocation == Some(MainWarehouse))
      && (newQty < PhysicalStock(ms, productId) <==> r[0].fromLocation == Some(MainWarehouse) && r[0].toLocation.None?)
    ensures forall p, l :: p != productId || l != MainWarehouse ==> LocationBalance(ms + r, p, l) == LocationBalance(ms, p, l)
    ensures forall i :: 0 <= i < |r| ==> r[i].productId == productId
    ensures forall i :: 0 <= i < |r| ==> r[i].fromLocation.Some? ==> r[i].fromLocation.value == MainWarehouse
    ensures forall i :: 0 <= i < |r| ==> r[i].toLocation.Some? ==> r[i].toLocation.value == MainWarehouse
  {
    var diff := newQty - PhysicalStock(ms, productId);
    if diff == 0 then
      assert ms + [] == ms;
      []
    else
      var m := if diff > 0 then Movement(NextMovementId(ms), productId, None, Some(MainWarehouse), diff)
               else Movement(NextMovementId(ms), productId, Some(MainWarehouse), None, -diff);
      AppendEffects(ms, m);
      PhysicalStockAppend(ms, m, productId);
      [m]
  }

  /**
   * After the corrected edit, the product's balances summed over all locations equal the
   * requested quantity, provided the locations cover every endpoint and include the main
   * warehouse.
   */
  lemma PhysicalCorrectionSetsHeldStock(ms: seq<Movement>, productId: ProductId, newQty: int, locs: seq<LocationId>)
    requires Distinct(locs) && MainWarehouse in locs
    requires EndpointsWithin(ms, productId, locs)
    ensures SumBalances(ms + PhysicalCorrection(ms, productId, newQty), productId, locs) == newQty
  {
    var ms' := ms + PhysicalCorrection(ms, productId, newQty);
    assert EndpointsWithin(ms', productId, locs) by {
      forall i | 0 <= i < |ms'| && ms'[i].productId == productId
        ensures ms'[i].fromLocation.Some? ==> ms'[i].fromLocation.value in locs
        ensures ms'[i].toLocation.Some? ==> ms'[i].toLocation.value in locs
      {
        if i >= |ms| {
          assert ms'[i] == PhysicalCorrection(ms, productId, newQty)[i - |ms|];
        }
      }
    }
    PhysicalStockIsSumOfBalances(ms', productId, locs);
  }
}
