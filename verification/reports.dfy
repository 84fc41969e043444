/**
 * Views derived from the ledger: the low-stock list, the balance report and the
 * per-product breakdown by location. Each is a filter over the stored rows, in the
 * order the store returns them.
 */
module Reports {
  import opened Models
  import opened Ledger

  /** One entry of the low-stock list. */
  datatype LowStockRow = LowStockRow(product: string, productId: ProductId, stock: int, minStock: int)

  /** A product is low on stock when its total is at or below its threshold. */
  predicate IsLowStock(ms: seq<Movement>, pr: Product) {
    TotalStock(ms, pr.productId) <= pr.minStock
  }

  function LowStockRowOf(ms: seq<Movement>, pr: Product): LowStockRow {
    LowStockRow(pr.name, pr.productId, TotalStock(ms, pr.productId), pr.minStock)
  }

  /** Positions strictly increase along the sequence. */
  ghost predicate Increasing(idx: seq<int>) {
    forall a, b :: 0 <= a < b < |idx| ==> idx[a] < idx[b]
  }

  /** The positions at which `flags` holds, in increasing order. */
  function Positions(flags: seq<bool>): (idx: seq<int>)
    ensures forall k :: 0 <= k < |idx| ==> 0 <= idx[k] < |flags| && flags[idx[k]]
  {
    if |flags| == 0 then []
    else
      var n := |flags| - 1;
      var rest := Positions(flags[..n]);
      assert forall k :: 0 <= k < |rest| ==> flags[..n][rest[k]] == flags[rest[k]];
      rest + (if flags[n] then [n] else [])
  }

  /** The selected positions increase and are exactly those where the flag holds. */
  lemma {:induction false} PositionsSpec(flags: seq<bool>)
    ensures Increasing(Positions(flags))
    ensures forall i :: 0 <= i < |flags| ==> (flags[i] <==> i in Positions(flags))
    decreases |flags|
  {
    if |flags| > 0 {
      var n := |flags| - 1;
      var rest := Positions(flags[..n]);
      var idx := Positions(flags);
      PositionsSpec(flags[..n]);
      assert idx == rest + (if flags[n] then [n] else []);
      forall a, b | 0 <= a < b < |idx|
        ensures idx[a] < idx[b]
      {
        if b < |rest| {
          assert idx[a] == rest[a] && idx[b] == rest[b];
        } else {
          assert idx[a] == rest[a] && idx[b] == n;
        }
      }
      forall i | 0 <= i < n
        ensures flags[i] <==> i in idx
      {
        assert flags[..n][i] == flags[i];
      }
      assert n !in rest by {
        assert forall k :: 0 <= k < |rest| ==> rest[k] < n;
      }
    }
  }

  /** The low-stock list: one row per low product, in product order. */
  function LowStockProducts(ps: seq<Product>, ms: seq<Movement>): (r: seq<LowStockRow>)
    ensures |r| <= |ps|
    ensures forall k :: 0 <= k < |r| ==> r[k].stock <= r[k].minStock
  {
    if |ps| == 0 then []
    else
      var last := ps[|ps| - 1];
      LowStockProducts(ps[..|ps| - 1], ms) + (if IsLowStock(ms, last) then [LowStockRowOf(ms, last)] else [])
  }

  /** Which products are low on stock, position by position. */
  function LowFlags(ps: seq<Product>, ms: seq<Movement>): (flags: seq<bool>)
    ensures |flags| == |ps|
    ensures forall i :: 0 <= i < |ps| ==> flags[i] == IsLowStock(ms, ps[i])
  {
    seq(|ps|, i requires 0 <= i < |ps| => IsLowStock(ms, ps[i]))
  }

  lemma {:induction false} LowStockRows(ps: seq<Product>, ms: seq<Movement>)
    ensures |LowStockProducts(ps, ms)| == |Positions(LowFlags(ps, ms))|
    ensures forall k :: 0 <= k < |LowStockProducts(ps, ms)| ==>
      LowStockProducts(ps, ms)[k] == LowStockRowOf(ms, ps[Positions(LowFlags(ps, ms))[k]])
    decreases |ps|
  {
    if |ps| > 0 {
      var n := |ps| - 1;
      var ps' := ps[..n];
      LowStockRows(ps', ms);
      assert LowFlags(ps, ms)[..n] == LowFlags(ps', ms);
      assert Positions(LowFlags(ps, ms))
          == Positions(LowFlags(ps', ms)) + (if IsLowStock(ms, ps[n]) then [n] else []);
      var r := LowStockProducts(ps, ms);
      var r' := LowStockProducts(ps', ms);
      assert r == r' + (if IsLowStock(ms, ps[n]) then [LowStockRowOf(ms, ps[n])] else []);
      var idx' := Positions(LowFlags(ps', ms));
      forall k | 0 <= k < |r'|
        ensures r[k] == LowStockRowOf(ms, ps[Positions(LowFlags(ps, ms))[k]])
      {
        assert r[k] == r'[k] && ps'[idx'[k]] == ps[idx'[k]];
      }
    }
  }

  /**
   * The low-stock list holds exactly the low products, each once, in product order,
   * with their current stock and threshold: `idx` gives the product behind each row.
   */
  lemma LowStockExact(ps: seq<Product>, ms: seq<Movement>) returns (idx: seq<int>)
    ensures |idx| == |LowStockProducts(ps, ms)|
    ensures Increasing(idx)
    ensures forall k :: 0 <= k < |idx| ==>
      0 <= idx[k] < |ps| && LowStockProducts(ps, ms)[k] == LowStockRowOf(ms, ps[idx[k]])
    ensures forall i :: 0 <= i < |ps| ==> (IsLowStock(ms, ps[i]) <==> i in idx)
  {
    LowStockRows(ps, ms);
    idx := Positions(LowFlags(ps, ms));
    PositionsSpec(LowFlags(ps, ms));
  }

  /** One row of the balance report. */
  datatype ReportRow = ReportRow(product: string, location: string, qty: int)

  /** The product has positive stock at the location. */
  predicate InStock(ms: seq<Movement>, p: ProductId, loc: Location) {
    LocationBalance(ms, p, loc.locationId) > 0
  }

  function ReportRowOf(ms: seq<Movement>, pr: Product, loc: Location): ReportRow {
    ReportRow(pr.name, loc.name, LocationBalance(ms, pr.productId, loc.locationId))
  }

  /** The rows of the report for one location: its products in stock, in product order. */
  function RowsAt(ps: seq<Product>, ms: seq<Movement>, loc: Location): (r: seq<ReportRow>)
    ensures |r| <= |ps|
    ensures forall k :: 0 <= k < |r| ==> r[k].qty > 0 && r[k].location == loc.name
  {
    if |ps| == 0 then []
    else
      var last := ps[|ps| - 1];
      RowsAt(ps[..|ps| - 1], ms, loc) + (if InStock(ms, last.productId, loc) then [ReportRowOf(ms, last, loc)] else [])
  }

  /** Which products are in stock at `loc`, position by position. */
  function StockFlags(ps: seq<Product>, ms: seq<Movement>, loc: Location): (flags: seq<bool>)
    ensures |flags| == |ps|
    ensures forall j :: 0 <= j < |ps| ==> flags[j] == InStock(ms, ps[j].productId, loc)
  {
    seq(|ps|, j requires 0 <= j < |ps| => InStock(ms, ps[j].productId, loc))
  }

  lemma {:induction false} RowsAtRows(ps: seq<Product>, ms: seq<Movement>, loc: Location)
    ensures |RowsAt(ps, ms, loc)| == |Positions(StockFlags(ps, ms, loc))|
    ensures forall k :: 0 <= k < |RowsAt(ps, ms, loc)| ==>
      RowsAt(ps, ms, loc)[k] == ReportRowOf(ms, ps[Positions(StockFlags(ps, ms, loc))[k]], loc)
    decreases |ps|
  {
    if |ps| > 0 {
      var n := |ps| - 1;
      var ps' := ps[..n];
      RowsAtRows(ps', ms, loc);
      assert StockFlags(ps, ms, loc)[..n] == StockFlags(ps', ms, loc);
      assert Positions(StockFlags(ps, ms, loc))
          == Positions(StockFlags(ps', ms, loc)) + (if InStock(ms, ps[n].productId, loc) then [n] else []);
      var r := RowsAt(ps, ms, loc);
      var r' := RowsAt(ps', ms, loc);
      assert r == r' + (if InStock(ms, ps[n].productId, loc) then [ReportRowOf(ms, ps[n], loc)] else []);
      var idx' := Positions(StockFlags(ps', ms, loc));
      forall k | 0 <= k < |r'|
        ensures r[k] == ReportRowOf(ms, ps[Positions(StockFlags(ps, ms, loc))[k]], loc)
      {
        assert r[k] == r'[k] && ps'[idx'[k]] == ps[idx'[k]];
      }
    }
  }

  /** The rows for one location are exactly its products in stock, in product order. */
  lemma RowsAtExact(ps: seq<Product>, ms: seq<Movement>, loc: Location) returns (idx: seq<int>)
    ensures |idx| == |RowsAt(ps, ms, loc)|
    ensures Increasing(idx)
    ensures forall k :: 0 <= k < |idx| ==>
      0 <= idx[k] < |ps| && RowsAt(ps, ms, loc)[k] == ReportRowOf(ms, ps[idx[k]], loc)
    ensures forall j :: 0 <= j < |ps| ==> (InStock(ms, ps[j].productId, loc) <==> j in idx)
  {
    RowsAtRows(ps, ms, loc);
    idx := Positions(StockFlags(ps, ms, loc));
    PositionsSpec(StockFlags(ps, ms, loc));
  }

  /** The balance report: location by location, the products with positive stock there. */
  function BalanceReport(locs: seq<Location>, ps: seq<Product>, ms: seq<Movement>): (r: seq<ReportRow>)
    ensures forall k :: 0 <= k < |r| ==> r[k].qty > 0
  {
    if |locs| == 0 then []
    else BalanceReport(locs[..|locs| - 1], ps, ms) + RowsAt(ps, ms, locs[|locs| - 1])
  }

  /** (location position, product position) pairs strictly increase, location first. */
  ghost predicate PairsIncreasing(idx: seq<(int, int)>) {
    forall a, b :: 0 <= a < b < |idx| ==>
      idx[a].0 < idx[b].0 || (idx[a].0 == idx[b].0 && idx[a].1 < idx[b].1)
  }

  /** Pairs each position in `js` with the row number `i`. */
  function Tag(i: int, js: seq<int>): (r: seq<(int, int)>)
    ensures |r| == |js|
    ensures forall k :: 0 <= k < |js| ==> r[k] == (i, js[k])
  {
    seq(|js|, k requires 0 <= k < |js| => (i, js[k]))
  }

  /** Tagging keeps exactly the tagged positions. */
  lemma TagMembers(i: int, js: seq<int>, j: int)
    ensures (i, j) in Tag(i, js) <==> j in js
  {
    var t := Tag(i, js);
    if j in js {
      var k :| 0 <= k < |js| && js[k] == j;
      assert t[k] == (i, j);
    }
    if (i, j) in t {
      var k :| 0 <= k < |t| && t[k] == (i, j);
      assert js[k] == j;
    }
  }

  /** The cells at which `grid` holds, row by row and within a row by column. */
  function PairPositions(grid: seq<seq<bool>>): (idx: seq<(int, int)>)
    ensures forall k :: 0 <= k < |idx| ==>
      0 <= idx[k].0 < |grid| && 0 <= idx[k].1 < |grid[idx[k].0]| && grid[idx[k].0][idx[k].1]
  {
    if |grid| == 0 then []
    else
      var n := |grid| - 1;
      var rest := PairPositions(grid[..n]);
      assert forall k :: 0 <= k < |rest| ==> grid[..n][rest[k].0] == grid[rest[k].0];
      rest + Tag(n, Positions(grid[n]))
  }

  /** The selected cells increase, location first. */
  lemma {:induction false} PairPositionsIncreasing(grid: seq<seq<bool>>)
    ensures PairsIncreasing(PairPositions(grid))
    decreases |grid|
  {
    if |grid| > 0 {
      var n := |grid| - 1;
      var rest := PairPositions(grid[..n]);
      var js := Positions(grid[n]);
      var tail := Tag(n, js);
      PairPositionsIncreasing(grid[..n]);
      PositionsSpec(grid[n]);
      var idx := PairPositions(grid);
      assert idx == rest + tail;
      forall a, b | 0 <= a < b < |idx|
        ensures idx[a].0 < idx[b].0 || (idx[a].0 == idx[b].0 && idx[a].1 < idx[b].1)
      {
        if b < |rest| {
          assert idx[a] == rest[a] && idx[b] == rest[b];
        } else if a < |rest| {
          assert idx[a] == rest[a] && idx[b] == tail[b - |rest|];
          assert rest[a].0 < n && tail[b - |rest|].0 == n;
        } else {
          assert idx[a] == tail[a - |rest|] && idx[b] == tail[b - |rest|];
          assert js[a - |rest|] < js[b - |rest|];
        }
      }
    }
  }

  /** The selected cells are exactly those where the grid holds. */
  lemma {:induction false} PairPositionsExact(grid: seq<seq<bool>>)
    ensures forall i, j :: 0 <= i < |grid| && 0 <= j < |grid[i]| ==> (grid[i][j] <==> (i, j) in PairPositions(grid))
    decreases |grid|
  {
    if |grid| > 0 {
      var n := |grid| - 1;
      var rest := PairPositions(grid[..n]);
      var js := Positions(grid[n]);
      var tail := Tag(n, js);
      PairPositionsExact(grid[..n]);
      var idx := PairPositions(grid);
      assert idx == rest + tail;
      forall i, j | 0 <= i < n && 0 <= j < |grid[i]|
        ensures grid[i][j] <==> (i, j) in idx
      {
        assert grid[..n][i] == grid[i];
        assert (i, j) !in tail by {
          assert forall k :: 0 <= k < |tail| ==> tail[k].0 == n;
        }
      }
      PositionsSpec(grid[n]);
      forall j | 0 <= j < |grid[n]|
        ensures grid[n][j] <==> (n, j) in idx
      {
        assert (n, j) !in rest by {
          assert forall k :: 0 <= k < |rest| ==> rest[k].0 < n;
        }
        TagMembers(n, js, j);
      }
    }
  }

  /** Which (location, product) cells hold positive stock. */
  function StockGrid(locs: seq<Location>, ps: seq<Product>, ms: seq<Movement>): (grid: seq<seq<bool>>)
    ensures |grid| == |locs|
    ensures forall i :: 0 <= i < |locs| ==> grid[i] == StockFlags(ps, ms, locs[i])
  {
    seq(|locs|, i requires 0 <= i < |locs| => StockFlags(ps, ms, locs[i]))
  }

  lemma {:induction false} BalanceReportRows(locs: seq<Location>, ps: seq<Product>, ms: seq<Movement>)
    ensures |BalanceReport(locs, ps, ms)| == |PairPositions(StockGrid(locs, ps, ms))|
    ensures forall k :: 0 <= k < |BalanceReport(locs, ps, ms)| ==>
      var c := PairPositions(StockGrid(locs, ps, ms))[k];
      0 <= c.0 < |locs| && 0 <= c.1 < |ps| && BalanceReport(locs, ps, ms)[k] == ReportRowOf(ms, ps[c.1], locs[c.0])
    decreases |locs|
  {
    if |locs| > 0 {
      var n := |locs| - 1;
      var locs' := locs[..n];
      BalanceReportRows(locs', ps, ms);
      RowsAtRows(ps, ms, locs[n]);
      var grid := StockGrid(locs, ps, ms);
      assert grid[..n] == StockGrid(locs', ps, ms);
      var r := BalanceReport(locs, ps, ms);
      var r' := BalanceReport(locs', ps, ms);
      var here := RowsAt(ps, ms, locs[n]);
      var idx' := PairPositions(StockGrid(locs', ps, ms));
      var js := Positions(StockFlags(ps, ms, locs[n]));
      var idx := PairPositions(grid);
      assert idx == idx' + Tag(n, js);
      assert r == r' + here;
      forall k | 0 <= k < |r|
        ensures 0 <= idx[k].0 < |locs| && 0 <= idx[k].1 < |ps|
        ensures r[k] == ReportRowOf(ms, ps[idx[k].1], locs[idx[k].0])
      {
        if k < |r'| {
          assert r[k] == r'[k] && idx[k] == idx'[k] && locs'[idx'[k].0] == locs[idx'[k].0];
        } else {
          assert r[k] == here[k - |r'|] && idx[k] == (n, js[k - |r'|]);
        }
      }
    }
  }

  /**
   * The balance report holds exactly the (location, product) pairs with positive balance,
   * each once, location-major and then in product order: `idx` gives the pair behind each row.
   */
  lemma BalanceReportExact(locs: seq<Location>, ps: seq<Product>, ms: seq<Movement>) returns (idx: seq<(int, int)>)
    ensures |idx| == |BalanceReport(locs, ps, ms)|
    ensures PairsIncreasing(idx)
    ensures forall k :: 0 <= k < |idx| ==>
      && 0 <= idx[k].0 < |locs| && 0 <= idx[k].1 < |ps|
      && BalanceReport(locs, ps, ms)[k] == ReportRowOf(ms, ps[idx[k].1], locs[idx[k].0])
    ensures forall i, j :: 0 <= i < |locs| && 0 <= j < |ps| ==>
      (InStock(ms, ps[j].productId, locs[i]) <==> (i, j) in idx)
  {
    BalanceReportRows(locs, ps, ms);
    idx := PairPositions(StockGrid(locs, ps, ms));
    PairPositionsIncreasing(StockGrid(locs, ps, ms));
    PairPositionsExact(StockGrid(locs, ps, ms));
    forall i, j | 0 <= i < |locs| && 0 <= j < |ps|
      ensures InStock(ms, ps[j].productId, locs[i]) <==> (i, j) in idx
    {
      assert StockGrid(locs, ps, ms)[i][j] == InStock(ms, ps[j].productId, locs[i]);
    }
  }

  /** One entry of a product's breakdown by location. */
  datatype LocationQty = LocationQty(location: string, qty: int)

  function LocationQtyOf(ms: seq<Movement>, p: ProductId, loc: Location): LocationQty {
    LocationQty(loc.name, LocationBalance(ms, p, loc.locationId))
  }

  /** The locations holding positive stock of the product, in location order. */
  function ProductLocations(locs: seq<Location>, ms: seq<Movement>, p: ProductId): (r: seq<LocationQty>)
    ensures |r| <= |locs|
    ensures forall k :: 0 <= k < |r| ==> r[k].qty > 0
  {
    if |locs| == 0 then []
    else
      var last := locs[|locs| - 1];
      ProductLocations(locs[..|locs| - 1], ms, p) + (if InStock(ms, p, last) then [LocationQtyOf(ms, p, last)] else [])
  }

  /** Where the product's balance is positive, position by position. */
  function HeldFlags(locs: seq<Location>, ms: seq<Movement>, p: ProductId): (flags: seq<bool>)
    ensures |flags| == |locs|
    ensures forall i :: 0 <= i < |locs| ==> flags[i] == InStock(ms, p, locs[i])
  {
    seq(|locs|, i requires 0 <= i < |locs| => InStock(ms, p, locs[i]))
  }

  lemma {:induction false} ProductLocationsRows(locs: seq<Location>, ms: seq<Movement>, p: ProductId)
    ensures |ProductLocations(locs, ms, p)| == |Positions(HeldFlags(locs, ms, p))|
    ensures forall k :: 0 <= k < |ProductLocations(locs, ms, p)| ==>
      ProductLocations(locs, ms, p)[k] == LocationQtyOf(ms, p, locs[Positions(HeldFlags(locs, ms, p))[k]])
    decreases |locs|
  {
    if |locs| > 0 {
      var n := |locs| - 1;
      var locs' := locs[..n];
      ProductLocationsRows(locs', ms, p);
      assert HeldFlags(locs, ms, p)[..n] == HeldFlags(locs', ms, p);
      assert Positions(HeldFlags(locs, ms, p))
          == Positions(HeldFlags(locs', ms, p)) + (if InStock(ms, p, locs[n]) then [n] else []);
      var r := ProductLocations(locs, ms, p);
      var r' := ProductLocations(locs', ms, p);
      assert r == r' + (if InStock(ms, p, locs[n]) then [LocationQtyOf(ms, p, locs[n])] else []);
      var idx' := Positions(HeldFlags(locs', ms, p));
      forall k | 0 <= k < |r'|
        ensures r[k] == LocationQtyOf(ms, p, locs[Positions(HeldFlags(locs, ms, p))[k]])
      {
        assert r[k] == r'[k] && locs'[idx'[k]] == locs[idx'[k]];
      }
    }
  }

  /**
   * The breakdown holds exactly the locations where the product's balance is positive,
   * each once, in location order, with that balance.
   */
  lemma ProductLocationsExact(locs: seq<Location>, ms: seq<Movement>, p: ProductId) returns (idx: seq<int>)
    ensures |idx| == |ProductLocations(locs, ms, p)|
    ensures Increasing(idx)
    ensures forall k :: 0 <= k < |idx| ==>
      0 <= idx[k] < |locs| && ProductLocations(locs, ms, p)[k] == LocationQtyOf(ms, p, locs[idx[k]])
    ensures forall i :: 0 <= i < |locs| ==> (InStock(ms, p, locs[i]) <==> i in idx)
  {
    ProductLocationsRows(locs, ms, p);
    idx := Positions(HeldFlags(locs, ms, p));
    PositionsSpec(HeldFlags(locs, ms, p));
  }
}
