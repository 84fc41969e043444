/** Concrete ledgers: the application's seed data and worked examples. */
module Scenarios {
  import opened Wrappers
  import opened Models
  import opened Ledger
  import Reports
  import Operations
  import Ids

  function SeedProducts(): seq<Product> {
    [ Product("PROD001", "Face Wash", Some("Gentle cleansing face wash"), 10),
      Product("PROD002", "Serum", Some("Anti-aging serum"), 10),
      Product("PROD003", "Sunscreen", Some("SPF 50+ sunscreen"), 10) ]
  }

  function SeedLocations(): seq<Location> {
    [ Location("WH001", "Main Warehouse", Some("Primary storage facility")),
      Location("WH002", "Store A", Some("Retail outlet A")),
      Location("WH003", "Warehouse B", Some("Secondary warehouse")),
      Location("WH004", "Distribution Center", Some("Central distribution hub")) ]
  }

  /**
   * The seed ledger over arbitrary ids: initial stock of three products into one
   * location, then a transfer of part of each to a second location.
   */
  function SeedLedger(p1: ProductId, p2: ProductId, p3: ProductId, l1: LocationId, l2: LocationId): seq<Movement> {
    [ Movement(1, p1, None, Some(l1), 50),
      Movement(2, p2, None, Some(l1), 30),
      Movement(3, p3, None, Some(l1), 40),
      Movement(4, p1, Some(l1), Some(l2), 15),
      Movement(5, p2, Some(l1), Some(l2), 10),
      Movement(6, p3, Some(l1), Some(l2), 12) ]
  }

  function SeedMovements(): seq<Movement> {
    SeedLedger("PROD001", "PROD002", "PROD003", "WH001", "WH002")
  }

  /**
   * What the pages show for one product: its balances at two locations, the units held
   * (transfers neutral) and the total as computed.
   */
  datatype Snapshot = Snapshot(first: int, second: int, held: int, total: int)

  function Figures(ms: seq<Movement>, p: ProductId, l1: LocationId, l2: LocationId): Snapshot {
    Snapshot(LocationBalance(ms, p, l1), LocationBalance(ms, p, l2), PhysicalStock(ms, p), TotalStock(ms, p))
  }

  /** A movement of another product changes none of `p`'s figures. */
  lemma OtherStep(ms: seq<Movement>, m: Movement, p: ProductId, l1: LocationId, l2: LocationId)
    requires m.productId != p
    ensures Figures(ms + [m], p, l1, l2) == Figures(ms, p, l1, l2)
  {
    LocationBalanceAppend(ms, m, p, l1);
    LocationBalanceAppend(ms, m, p, l2);
    PhysicalStockAppend(ms, m, p);
    TotalStockAppend(ms, m, p);
  }

  /** A receipt of `qty` at the first location raises it and both totals by `qty`. */
  lemma ReceiptStep(ms: seq<Movement>, id: int, p: ProductId, l1: LocationId, l2: LocationId, qty: int)
    requires l1 != l2
    ensures var f := Figures(ms, p, l1, l2);
      Figures(ms + [Movement(id, p, None, Some(l1), qty)], p, l1, l2) == Snapshot(f.first + qty, f.second, f.held + qty, f.total + qty)
  {
    var m := Movement(id, p, None, Some(l1), qty);
    InflowEffect(ms, id, p, l1, qty);
    LocationBalanceAppend(ms, m, p, l2);
    PhysicalStockAppend(ms, m, p);
  }

  /**
   * A transfer of `qty` from the first location to the second moves `qty` between the
   * balances, leaves the units held alone, and still raises the computed total by `qty`.
   */
  lemma TransferStepFigures(ms: seq<Movement>, id: int, p: ProductId, l1: LocationId, l2: LocationId, qty: int)
    requires l1 != l2
    ensures var f := Figures(ms, p, l1, l2);
      Figures(ms + [Movement(id, p, Some(l1), Some(l2), qty)], p, l1, l2) == Snapshot(f.first - qty, f.second + qty, f.held, f.total + qty)
  {
    TransferEffect(ms, id, p, l1, l2, qty);
  }

  /**
   * Whatever the ids, the first seeded product ends with 35 units at the first location
   * and 15 at the second, 50 in all, yet its total stock as computed is 65.
   */
  lemma SeedLedgerTotals(p1: ProductId, p2: ProductId, p3: ProductId, l1: LocationId, l2: LocationId)
    requires p2 != p1 && p3 != p1 && l1 != l2
    ensures Figures(SeedLedger(p1, p2, p3, l1, l2), p1, l1, l2) == Snapshot(35, 15, 50, 65)
  {
    var a0: seq<Movement> := [];
    assert Figures(a0, p1, l1, l2) == Snapshot(0, 0, 0, 0);
    var a1 := a0 + [Movement(1, p1, None, Some(l1), 50)];
    ReceiptStep(a0, 1, p1, l1, l2, 50);
    var a2 := a1 + [Movement(2, p2, None, Some(l1), 30)];
    OtherStep(a1, Movement(2, p2, None, Some(l1), 30), p1, l1, l2);
    var a3 := a2 + [Movement(3, p3, None, Some(l1), 40)];
    OtherStep(a2, Movement(3, p3, None, Some(l1), 40), p1, l1, l2);
    var a4 := a3 + [Movement(4, p1, Some(l1), Some(l2), 15)];
    TransferStepFigures(a3, 4, p1, l1, l2, 15);
    var a5 := a4 + [Movement(5, p2, Some(l1), Some(l2), 10)];
    OtherStep(a4, Movement(5, p2, Some(l1), Some(l2), 10), p1, l1, l2);
    var a6 := a5 + [Movement(6, p3, Some(l1), Some(l2), 12)];
    OtherStep(a5, Movement(6, p3, Some(l1), Some(l2), 12), p1, l1, l2);
    assert Figures(a6, p1, l1, l2) == Snapshot(35, 15, 50, 65);
    assert a6 == SeedLedger(p1, p2, p3, l1, l2);
  }

  /** The application's own seed data: PROD001 shows a total of 65 for 50 units held. */
  lemma SeedTotals()
    ensures LocationBalance(SeedMovements(), "PROD001", "WH001") == 35
    ensures LocationBalance(SeedMovements(), "PROD001", "WH002") == 15
    ensures PhysicalStock(SeedMovements(), "PROD001") == 50
    ensures TotalStock(SeedMovements(), "PROD001") == 65
  {
    assert "PROD002"[6] != "PROD001"[6] && "PROD003"[6] != "PROD001"[6] && "WH002"[4] != "WH001"[4];
    SeedLedgerTotals("PROD001", "PROD002", "PROD003", "WH001", "WH002");
  }

  /** The inventory of the end-to-end example before any movement. */
  function Fresh(p: ProductId, name: string, l1: LocationId, l2: LocationId): Inventory {
    Inventory([Product(p, name, None, 10)], [Location(l1, "A", None), Location(l2, "B", None)], [])
  }

  lemma ReceiveStep(p: ProductId, name: string, l1: LocationId, l2: LocationId)
    requires l1 != "" && l2 != "" && l1 != l2
    ensures var r1 := Operations.RecordMovement(Fresh(p, name, l1, l2), p, 50, None, Some(l1));
      && r1.Success? && r1.value.alert == Operations.NoAlert
      && r1.value.inventory.products == Fresh(p, name, l1, l2).products
      && Figures(r1.value.inventory.movements, p, l1, l2) == Snapshot(50, 0, 50, 50)
  {
    var r1 := Operations.RecordMovement(Fresh(p, name, l1, l2), p, 50, None, Some(l1));
    var e: seq<Movement> := [];
    assert Figures(e, p, l1, l2) == Snapshot(0, 0, 0, 0);
    ReceiptStep(e, r1.value.movement.movementId, p, l1, l2, 50);
    assert r1.value.inventory.movements == e + [r1.value.movement];
  }

  /** A single product above its threshold raises no alert. */
  lemma NoAlertAbove(ms: seq<Movement>, p: ProductId, name: string)
    requires TotalStock(ms, p) > 10
    ensures Operations.LowStockCheck([Product(p, name, None, 10)], ms, p) == Operations.NoAlert
  {
    assert ProductIds([Product(p, name, None, 10)]) == [p];
  }

  lemma TransferStep(inv: Inventory, p: ProductId, name: string, l1: LocationId, l2: LocationId)
    requires l1 != "" && l2 != "" && l1 != l2
    requires inv.products == [Product(p, name, None, 10)]
    requires Figures(inv.movements, p, l1, l2) == Snapshot(50, 0, 50, 50)
    ensures var r2 := Operations.RecordMovement(inv, p, 15, Some(l1), Some(l2));
      && r2.Success? && r2.value.alert == Operations.NoAlert
      && Figures(r2.value.inventory.movements, p, l1, l2) == Snapshot(35, 15, 50, 65)
  {
    var ms := inv.movements;
    var m := Movement(NextMovementId(ms), p, Some(l1), Some(l2), 15);
    TransferStepFigures(ms, NextMovementId(ms), p, l1, l2, 15);
    NoAlertAbove(ms + [m], p, name);
    var r2 := Operations.RecordMovement(inv, p, 15, Some(l1), Some(l2));
    assert r2.Success? && r2.value.inventory.movements == ms + [m] && r2.value.alert
        == Operations.LowStockCheck(inv.products, ms + [m], p) by {
      assert Operations.FormLocation(Some(l1)) == Some(l1) && Operations.FormLocation(Some(l2)) == Some(l2);
    }
  }

  /**
   * Receiving 50 units at one location and transferring 15 to another, through the
   * movement form: both are accepted without an alert, the balances are 35 and 15, and
   * the total shown is 65 although 50 units are held.
   */
  lemma ReceiveThenTransfer(p: ProductId, name: string, l1: LocationId, l2: LocationId)
    requires l1 != "" && l2 != "" && l1 != l2
    ensures var r1 := Operations.RecordMovement(Fresh(p, name, l1, l2), p, 50, None, Some(l1));
      && r1.Success? && r1.value.alert == Operations.NoAlert
      && var r2 := Operations.RecordMovement(r1.value.inventory, p, 15, Some(l1), Some(l2));
      && r2.Success? && r2.value.alert == Operations.NoAlert
      && Figures(r2.value.inventory.movements, p, l1, l2) == Snapshot(35, 15, 50, 65)
  {
    ReceiveStep(p, name, l1, l2);
    var r1 := Operations.RecordMovement(Fresh(p, name, l1, l2), p, 50, None, Some(l1));
    TransferStep(r1.value.inventory, p, name, l1, l2);
  }

  /**
   * The threshold is inclusive: with a threshold of 10, receipts of 4, 3 and 3 and an
   * outflow of 0 leave the product on the low-stock list with stock 10.
   */
  lemma LowStockBoundary(p: ProductId, name: string, l: LocationId)
    ensures var ms := [Movement(1, p, None, Some(l), 4), Movement(2, p, None, Some(l), 3),
                       Movement(3, p, None, Some(l), 3), Movement(4, p, Some(l), None, 0)];
      Reports.LowStockProducts([Product(p, name, None, 10)], ms) == [Reports.LowStockRow(name, p, 10, 10)]
  {
    var ms := [Movement(1, p, None, Some(l), 4), Movement(2, p, None, Some(l), 3),
               Movement(3, p, None, Some(l), 3), Movement(4, p, Some(l), None, 0)];
    assert ms[..1] == [] + [ms[0]];
    TotalStockAppend([], ms[0], p);
    assert ms[..2] == ms[..1] + [ms[1]];
    TotalStockAppend(ms[..1], ms[1], p);
    assert ms[..3] == ms[..2] + [ms[2]];
    TotalStockAppend(ms[..2], ms[2], p);
    assert ms == ms[..3] + [ms[3]];
    TotalStockAppend(ms[..3], ms[3], p);
    var ps := [Product(p, name, None, 10)];
    assert ps[..0] == [];
  }

  /**
   * Setting a product's quantity below what the main warehouse holds is not checked:
   * with 10 units held elsewhere, editing the quantity to 0 records an outflow of 10
   * from the main warehouse, whose balance becomes -10.
   */
  lemma EditOverdrawsMainWarehouse(p: ProductId, name: string, l: LocationId)
    requires l != MainWarehouse
    ensures var inv := Inventory([Product(p, name, None, 5)], [], [Movement(1, p, None, Some(l), 10)]);
            var r := Operations.EditProduct(inv, p, Some(name), None, 0);
      && r.Success?
      && r.value.movements == inv.movements + [Movement(2, p, Some(MainWarehouse), None, 10)]
      && LocationBalance(r.value.movements, p, MainWarehouse) == -10
      && LocationBalance(r.value.movements, p, l) == 10
  {
    var m0 := Movement(1, p, None, Some(l), 10);
    var inv := Inventory([Product(p, name, None, 5)], [], [m0]);
    assert [m0] == [] + [m0];
    TotalStockAppend([], m0, p);
    LocationBalanceAppend([], m0, p, MainWarehouse);
    LocationBalanceAppend([], m0, p, l);
    assert [m0][..0] == [];
    assert MaxMovementId([]) == 0;
    assert MaxMovementId([m0]) == 1;
    assert NextMovementId([m0]) == 2;
    var r := Operations.EditProduct(inv, p, Some(name), None, 0);
    var m := Movement(2, p, Some(MainWarehouse), None, 10);
    assert r.value.movements == [m0, m];
    assert [m0, m] == [m0] + [m];
    LocationBalanceAppend([m0], m, p, MainWarehouse);
    LocationBalanceAppend([m0], m, p, l);
  }

  /** The allocator's step past "PROD999": the next product is "PROD1000". */
  lemma AddAfterProd999(inv: Inventory, name: string)
    requires ProductIds(inv.products) == ["PROD999"]
    ensures var r := Operations.AddProduct(inv, Some(name), None, 0);
      && r.Success? && r.value.id == "PROD1000"
      && ProductIds(r.value.inventory.products) == ["PROD999", "PROD1000"]
  {
    Ids.NextIdAfter999();
    assert "PROD1000" !in ProductIds(inv.products) by {
      assert |"PROD1000"| != |"PROD999"|;
    }
    var r := Operations.AddProduct(inv, Some(name), None, 0);
    assert r.Success? && r.value.id == "PROD1000";
    assert ProductIds(r.value.inventory.products) == ProductIds(inv.products) + ["PROD1000"];
  }

  /** With "PROD999" and "PROD1000" both present, adding a product fails on the duplicate key. */
  lemma AddAfterProd1000Fails(inv: Inventory, name: string)
    requires ProductIds(inv.products) == ["PROD999", "PROD1000"]
    ensures Operations.AddProduct(inv, Some(name), None, 0) == Failure(DuplicateId)
  {
    Ids.NextIdCollides();
  }

  /**
   * Once "PROD999" exists the next product gets "PROD1000", and the one after that is
   * allocated "PROD1000" again, so adding it fails on the duplicate key.
   */
  lemma AddAfterProd999Collides(name1: string, name2: string, name3: string)
    ensures var inv := Inventory([Product("PROD999", name1, None, DefaultMinStock)], [], []);
            var r1 := Operations.AddProduct(inv, Some(name2), None, 0);
      && r1.Success? && r1.value.id == "PROD1000"
      && Operations.AddProduct(r1.value.inventory, Some(name3), None, 0) == Failure(DuplicateId)
  {
    var inv := Inventory([Product("PROD999", name1, None, DefaultMinStock)], [], []);
    assert ProductIds(inv.products) == ["PROD999"];
    AddAfterProd999(inv, name2);
    var r1 := Operations.AddProduct(inv, Some(name2), None, 0);
    AddAfterProd1000Fails(r1.value.inventory, name3);
  }
}
