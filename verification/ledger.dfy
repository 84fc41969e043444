/**
 * The balance engine: every stock figure the application shows is a sum of `qty` over the
 * movements selected by one filter, recomputed from the whole ledger on each request.
 */
module Ledger {
  import opened Wrappers
  import opened Models

  /** The filters under which the application sums movement quantities. */
  datatype Query =
    | Incoming(product: ProductId)                  // has a destination (transfers included)
    | Outgoing(product: ProductId)                  // has a source and no destination
    | Receipt(product: ProductId)                   // has a destination and no source
    | Transfer(product: ProductId)                  // has both a source and a destination
    | Into(product: ProductId, location: LocationId)  // the destination is `location`
    | OutOf(product: ProductId, location: LocationId) // the source is `location`

  predicate Matches(q: Query, m: Movement) {
    && m.productId == q.product
    && match q
       case Incoming(_) => m.toLocation.Some?
       case Outgoing(_) => m.fromLocation.Some? && m.toLocation.None?
       case Receipt(_) => m.fromLocation.None? && m.toLocation.Some?
       case Transfer(_) => m.fromLocation.Some? && m.toLocation.Some?
       case Into(_, l) => m.toLocation == Some(l)
       case OutOf(_, l) => m.fromLocation == Some(l)
  }

  /** What one movement adds to the sum under `q`. */
  function Contribution(q: Query, m: Movement): int {
    if Matches(q, m) then m.qty else 0
  }

  /**
   * The sum of `qty` over the movements matching `q`; an empty selection sums to 0
   * (SQL `SUM` of no rows is NULL, which the application replaces by 0).
   */
  function SumQty(ms: seq<Movement>, q: Query): int {
    if |ms| == 0 then 0
    else SumQty(ms[..|ms| - 1], q) + Contribution(q, ms[|ms| - 1])
  }

  /** A sum over a log in which no movement matches is 0. */
  lemma {:induction false} SumQtyNoMatch(ms: seq<Movement>, q: Query)
    requires forall i :: 0 <= i < |ms| ==> !Matches(q, ms[i])
    ensures SumQty(ms, q) == 0
  {
    if |ms| > 0 {
      SumQtyNoMatch(ms[..|ms| - 1], q);
    }
  }

  /** A sum over matching movements of non-negative quantity is non-negative. */
  lemma {:induction false} SumQtyNonNegative(ms: seq<Movement>, q: Query)
    requires forall i :: 0 <= i < |ms| && Matches(q, ms[i]) ==> ms[i].qty >= 0
    ensures SumQty(ms, q) >= 0
  {
    if |ms| > 0 {
      SumQtyNonNegative(ms[..|ms| - 1], q);
    }
  }

  /**
   * Total stock of a product as the application computes it: everything with a
   * destination counts as incoming, only movements without a destination as outgoing.
   */
  function TotalStock(ms: seq<Movement>, p: ProductId): int {
    SumQty(ms, Incoming(p)) - SumQty(ms, Outgoing(p))
  }

  /** Stock of a product at one location: quantity moved in minus quantity moved out. */
  function LocationBalance(ms: seq<Movement>, p: ProductId, l: LocationId): int {
    SumQty(ms, Into(p, l)) - SumQty(ms, OutOf(p, l))
  }

  /**
   * Total stock with transfers neutral: receipts minus outflows. This is the figure the
   * total is documented to be ("across all locations"); see PhysicalStockIsSumOfBalances.
   */
  function PhysicalStock(ms: seq<Movement>, p: ProductId): int {
    SumQty(ms, Receipt(p)) - SumQty(ms, Outgoing(p))
  }

  /** A product with no movements has every figure 0. */
  lemma NoMovementsOf(ms: seq<Movement>, p: ProductId)
    requires forall i :: 0 <= i < |ms| ==> ms[i].productId != p
    ensures TotalStock(ms, p) == 0 && PhysicalStock(ms, p) == 0
    ensures forall l :: LocationBalance(ms, p, l) == 0
  {
    SumQtyNoMatch(ms, Incoming(p));
    SumQtyNoMatch(ms, Outgoing(p));
    SumQtyNoMatch(ms, Receipt(p));
    forall l
      ensures LocationBalance(ms, p, l) == 0
    {
      SumQtyNoMatch(ms, Into(p, l));
      SumQtyNoMatch(ms, OutOf(p, l));
    }
  }

  /** A location no movement enters or leaves has balance 0 for every product. */
  lemma UntouchedLocation(ms: seq<Movement>, p: ProductId, l: LocationId)
    requires forall i :: 0 <= i < |ms| ==> ms[i].toLocation != Some(l) && ms[i].fromLocation != Some(l)
    ensures LocationBalance(ms, p, l) == 0
  {
    SumQtyNoMatch(ms, Into(p, l));
    SumQtyNoMatch(ms, OutOf(p, l));
  }

  /** What one movement does to a product's total stock, case by case. */
  function TotalDelta(m: Movement, p: ProductId): int {
    if m.productId != p then 0
    else if m.toLocation.Some? then m.qty
    else if m.fromLocation.Some? then -m.qty
    else 0
  }

  /** What one movement does to a product's balance at one location. */
  function BalanceDelta(m: Movement, p: ProductId, l: LocationId): int {
    (if m.productId == p && m.toLocation == Some(l) then m.qty else 0)
    - (if m.productId == p && m.fromLocation == Some(l) then m.qty else 0)
  }

  /** What one movement does to the transfer-neutral total. */
  function PhysicalDelta(m: Movement, p: ProductId): int {
    if m.productId != p then 0
    else (if m.toLocation.Some? then m.qty else 0) - (if m.fromLocation.Some? then m.qty else 0)
  }

  lemma SumQtyAppend(ms: seq<Movement>, m: Movement, q: Query)
    ensures SumQty(ms + [m], q) == SumQty(ms, q) + Contribution(q, m)
  {
    assert (ms + [m])[..|ms|] == ms;
  }

  /** Sums distribute over concatenation of ledgers. */
  lemma {:induction false} SumQtyConcat(a: seq<Movement>, b: seq<Movement>, q: Query)
    ensures SumQty(a + b, q) == SumQty(a, q) + SumQty(b, q)
    decreases |b|
  {
    if |b| == 0 {
      assert a + b == a;
    } else {
      var b' := b[..|b| - 1];
      assert a + b == (a + b') + [b[|b| - 1]];
      assert b == b' + [b[|b| - 1]];
      SumQtyConcat(a, b', q);
      SumQtyAppend(a + b', b[|b| - 1], q);
      SumQtyAppend(b', b[|b| - 1], q);
    }
  }

  /** Removing one entry takes exactly its own contribution out of every sum. */
  lemma SumQtyRemoveAt(ms: seq<Movement>, i: nat, q: Query)
    requires i < |ms|
    ensures SumQty(RemoveAt(ms, i), q) == SumQty(ms, q) - Contribution(q, ms[i])
  {
    assert ms == ms[..i] + ([ms[i]] + ms[i + 1..]);
    SumQtyConcat(ms[..i], [ms[i]] + ms[i + 1..], q);
    SumQtyConcat([ms[i]], ms[i + 1..], q);
    SumQtyConcat(ms[..i], ms[i + 1..], q);
    assert SumQty([ms[i]], q) == Contribution(q, ms[i]) by {
      assert [ms[i]] == [] + [ms[i]];
      SumQtyAppend([], ms[i], q);
    }
  }

  /** Appending a movement changes a product's total stock by exactly its TotalDelta. */
  lemma TotalStockAppend(ms: seq<Movement>, m: Movement, p: ProductId)
    ensures TotalStock(ms + [m], p) == TotalStock(ms, p) + TotalDelta(m, p)
  {
    SumQtyAppend(ms, m, Incoming(p));
    SumQtyAppend(ms, m, Outgoing(p));
  }

  /** Appending a movement changes a location balance by exactly its BalanceDelta. */
  lemma LocationBalanceAppend(ms: seq<Movement>, m: Movement, p: ProductId, l: LocationId)
    ensures LocationBalance(ms + [m], p, l) == LocationBalance(ms, p, l) + BalanceDelta(m, p, l)
  {
    SumQtyAppend(ms, m, Into(p, l));
    SumQtyAppend(ms, m, OutOf(p, l));
  }

  lemma PhysicalStockAppend(ms: seq<Movement>, m: Movement, p: ProductId)
    ensures PhysicalStock(ms + [m], p) == PhysicalStock(ms, p) + PhysicalDelta(m, p)
  {
    SumQtyAppend(ms, m, Receipt(p));
    SumQtyAppend(ms, m, Outgoing(p));
  }

  /** Appending a movement, for every product and location at once. */
  lemma AppendEffects(ms: seq<Movement>, m: Movement)
    ensures forall p :: TotalStock(ms + [m], p) == TotalStock(ms, p) + TotalDelta(m, p)
    ensures forall p, l :: LocationBalance(ms + [m], p, l) == LocationBalance(ms, p, l) + BalanceDelta(m, p, l)
  {
    forall p
      ensures TotalStock(ms + [m], p) == TotalStock(ms, p) + TotalDelta(m, p)
    {
      TotalStockAppend(ms, m, p);
    }
    forall p, l
      ensures LocationBalance(ms + [m], p, l) == LocationBalance(ms, p, l) + BalanceDelta(m, p, l)
    {
      LocationBalanceAppend(ms, m, p, l);
    }
  }

  /** Removing the entry at position `i` takes away exactly its effect everywhere. */
  lemma RemoveAtEffects(ms: seq<Movement>, i: nat)
    requires i < |ms|
    ensures forall p :: TotalStock(RemoveAt(ms, i), p) == TotalStock(ms, p) - TotalDelta(ms[i], p)
    ensures forall p, l :: LocationBalance(RemoveAt(ms, i), p, l) == LocationBalance(ms, p, l) - BalanceDelta(ms[i], p, l)
  {
    forall p
      ensures TotalStock(RemoveAt(ms, i), p) == TotalStock(ms, p) - TotalDelta(ms[i], p)
    {
      SumQtyRemoveAt(ms, i, Incoming(p));
      SumQtyRemoveAt(ms, i, Outgoing(p));
    }
    forall p, l
      ensures LocationBalance(RemoveAt(ms, i), p, l) == LocationBalance(ms, p, l) - BalanceDelta(ms[i], p, l)
    {
      SumQtyRemoveAt(ms, i, Into(p, l));
      SumQtyRemoveAt(ms, i, OutOf(p, l));
    }
  }

  /** An inflow (destination only) raises the total and the destination balance by qty. */
  lemma InflowEffect(ms: seq<Movement>, id: int, p: ProductId, l: LocationId, qty: int)
    ensures var ms' := ms + [Movement(id, p, None, Some(l), qty)];
      && TotalStock(ms', p) == TotalStock(ms, p) + qty
      && LocationBalance(ms', p, l) == LocationBalance(ms, p, l) + qty
  {
    TotalStockAppend(ms, Movement(id, p, None, Some(l), qty), p);
    LocationBalanceAppend(ms, Movement(id, p, None, Some(l), qty), p, l);
  }

  /** An outflow (source only) lowers the total and the source balance by qty. */
  lemma OutflowEffect(ms: seq<Movement>, id: int, p: ProductId, l: LocationId, qty: int)
    ensures var ms' := ms + [Movement(id, p, Some(l), None, qty)];
      && TotalStock(ms', p) == TotalStock(ms, p) - qty
      && LocationBalance(ms', p, l) == LocationBalance(ms, p, l) - qty
  {
    TotalStockAppend(ms, Movement(id, p, Some(l), None, qty), p);
    LocationBalanceAppend(ms, Movement(id, p, Some(l), None, qty), p, l);
  }

  /**
   * A transfer between two distinct locations moves qty from one balance to the other,
   * keeps their sum and the transfer-neutral total, and (as the total is computed)
   * raises the product's total stock by qty.
   */
  lemma TransferEffect(ms: seq<Movement>, id: int, p: ProductId, l1: LocationId, l2: LocationId, qty: int)
    requires l1 != l2
    ensures var ms' := ms + [Movement(id, p, Some(l1), Some(l2), qty)];
      && LocationBalance(ms', p, l1) == LocationBalance(ms, p, l1) - qty
      && LocationBalance(ms', p, l2) == LocationBalance(ms, p, l2) + qty
      && LocationBalance(ms', p, l1) + LocationBalance(ms', p, l2)
         == LocationBalance(ms, p, l1) + LocationBalance(ms, p, l2)
      && PhysicalStock(ms', p) == PhysicalStock(ms, p)
      && TotalStock(ms', p) == TotalStock(ms, p) + qty
  {
    var m := Movement(id, p, Some(l1), Some(l2), qty);
    LocationBalanceAppend(ms, m, p, l1);
    LocationBalanceAppend(ms, m, p, l2);
    PhysicalStockAppend(ms, m, p);
    TotalStockAppend(ms, m, p);
  }

  /** The ledger without the movements of product `p`, in log order. */
  function WithoutProduct(ms: seq<Movement>, p: ProductId): (r: seq<Movement>)
    ensures |r| <= |ms|
    ensures forall i :: 0 <= i < |r| ==> r[i].productId != p
  {
    if |ms| == 0 then []
    else
      var rest := WithoutProduct(ms[..|ms| - 1], p);
      var last := ms[|ms| - 1];
      if last.productId == p then rest else rest + [last]
  }

  /** The filtered ledger holds exactly the movements of the other products. */
  lemma {:induction false} WithoutProductMembers(ms: seq<Movement>, p: ProductId)
    ensures forall m :: m in WithoutProduct(ms, p) <==> m in ms && m.productId != p
    decreases |ms|
  {
    if |ms| > 0 {
      var ms' := ms[..|ms| - 1];
      var last := ms[|ms| - 1];
      WithoutProductMembers(ms', p);
      assert ms == ms' + [last];
    }
  }

  /** Dropping `p`'s movements leaves every sum about another product unchanged. */
  lemma {:induction false} SumQtyKeepsOthers(ms: seq<Movement>, p: ProductId, q: Query)
    requires q.product != p
    ensures SumQty(WithoutProduct(ms, p), q) == SumQty(ms, q)
    decreases |ms|
  {
    if |ms| > 0 {
      var ms' := ms[..|ms| - 1];
      var last := ms[|ms| - 1];
      SumQtyKeepsOthers(ms', p, q);
      if last.productId == p {
        assert Contribution(q, last) == 0;
      } else {
        SumQtyAppend(WithoutProduct(ms', p), last, q);
      }
    }
  }

  /** Dropping `p`'s movements empties every sum about `p` and leaves all other sums alone. */
  lemma SumQtyWithoutProduct(ms: seq<Movement>, p: ProductId, q: Query)
    ensures SumQty(WithoutProduct(ms, p), q) == if q.product == p then 0 else SumQty(ms, q)
  {
    var r := WithoutProduct(ms, p);
    if q.product == p {
      assert forall i :: 0 <= i < |r| ==> !Matches(q, r[i]);
    } else {
      SumQtyKeepsOthers(ms, p, q);
    }
  }

  /** After dropping `p`'s movements, `p` has no stock anywhere and nothing else changes. */
  lemma WithoutProductEffects(ms: seq<Movement>, p: ProductId)
    ensures forall p' :: TotalStock(WithoutProduct(ms, p), p') == if p' == p then 0 else TotalStock(ms, p')
    ensures forall p', l :: LocationBalance(WithoutProduct(ms, p), p', l)
                            == if p' == p then 0 else LocationBalance(ms, p', l)
  {
    forall p'
      ensures TotalStock(WithoutProduct(ms, p), p') == if p' == p then 0 else TotalStock(ms, p')
    {
      SumQtyWithoutProduct(ms, p, Incoming(p'));
      SumQtyWithoutProduct(ms, p, Outgoing(p'));
    }
    forall p', l
      ensures LocationBalance(WithoutProduct(ms, p), p', l) == if p' == p then 0 else LocationBalance(ms, p', l)
    {
      SumQtyWithoutProduct(ms, p, Into(p', l));
      SumQtyWithoutProduct(ms, p, OutOf(p', l));
    }
  }

  /** As computed, the total exceeds the transfer-neutral total by the quantity transferred. */
  lemma {:induction false} TotalStockCountsTransfers(ms: seq<Movement>, p: ProductId)
    ensures TotalStock(ms, p) == PhysicalStock(ms, p) + SumQty(ms, Transfer(p))
    decreases |ms|
  {
    if |ms| > 0 {
      TotalStockCountsTransfers(ms[..|ms| - 1], p);
    }
  }

  /** The sum of `p`'s balances over a list of locations. */
  function SumBalances(ms: seq<Movement>, p: ProductId, locs: seq<LocationId>): int {
    if |locs| == 0 then 0
    else SumBalances(ms, p, locs[..|locs| - 1]) + LocationBalance(ms, p, locs[|locs| - 1])
  }

  /** The quantity of `m` credited to the entries of `locs` that the endpoint `o` names. */
  function EndpointQty(locs: seq<LocationId>, o: Option<LocationId>, m: Movement, p: ProductId): int {
    if |locs| == 0 then 0
    else EndpointQty(locs[..|locs| - 1], o, m, p)
         + (if m.productId == p && o == Some(locs[|locs| - 1]) then m.qty else 0)
  }

  lemma {:induction false} EndpointQtyDistinct(locs: seq<LocationId>, o: Option<LocationId>, m: Movement, p: ProductId)
    requires Distinct(locs)
    ensures EndpointQty(locs, o, m, p) == if m.productId == p && o.Some? && o.value in locs then m.qty else 0
    decreases |locs|
  {
    if |locs| > 0 {
      var locs' := locs[..|locs| - 1];
      EndpointQtyDistinct(locs', o, m, p);
      assert locs == locs' + [locs[|locs| - 1]];
    }
  }

  lemma {:induction false} SumBalancesAppend(ms: seq<Movement>, m: Movement, p: ProductId, locs: seq<LocationId>)
    ensures SumBalances(ms + [m], p, locs)
         == SumBalances(ms, p, locs) + EndpointQty(locs, m.toLocation, m, p) - EndpointQty(locs, m.fromLocation, m, p)
    decreases |locs|
  {
    if |locs| > 0 {
      var locs' := locs[..|locs| - 1];
      SumBalancesAppend(ms, m, p, locs');
      LocationBalanceAppend(ms, m, p, locs[|locs| - 1]);
    }
  }

  lemma {:induction false} SumBalancesEmpty(p: ProductId, locs: seq<LocationId>)
    ensures SumBalances([], p, locs) == 0
    decreases |locs|
  {
    if |locs| > 0 {
      SumBalancesEmpty(p, locs[..|locs| - 1]);
    }
  }

  /** Every endpoint of `p`'s movements is one of `locs`. */
  predicate EndpointsWithin(ms: seq<Movement>, p: ProductId, locs: seq<LocationId>) {
    forall i :: 0 <= i < |ms| && ms[i].productId == p ==>
      (ms[i].fromLocation.Some? ==> ms[i].fromLocation.value in locs) &&
      (ms[i].toLocation.Some? ==> ms[i].toLocation.value in locs)
  }

  /**
   * The transfer-neutral total is the stock summed across all locations, provided the
   * locations are distinct and cover every endpoint of the product's movements.
   */
  lemma {:induction false} PhysicalStockIsSumOfBalances(ms: seq<Movement>, p: ProductId, locs: seq<LocationId>)
    requires Distinct(locs)
    requires EndpointsWithin(ms, p, locs)
    ensures SumBalances(ms, p, locs) == PhysicalStock(ms, p)
    decreases |ms|
  {
    if |ms| == 0 {
      SumBalancesEmpty(p, locs);
    } else {
      var ms' := ms[..|ms| - 1];
      var m := ms[|ms| - 1];
      assert ms == ms' + [m];
      assert EndpointsWithin(ms', p, locs) by {
        forall i | 0 <= i < |ms'| && ms'[i].productId == p
          ensures (ms'[i].fromLocation.Some? ==> ms'[i].fromLocation.value in locs)
          ensures (ms'[i].toLocation.Some? ==> ms'[i].toLocation.value in locs)
        {
          assert ms'[i] == ms[i];
        }
      }
      PhysicalStockIsSumOfBalances(ms', p, locs);
      SumBalancesAppend(ms', m, p, locs);
      PhysicalStockAppend(ms', m, p);
      EndpointQtyDistinct(locs, m.toLocation, m, p);
      EndpointQtyDistinct(locs, m.fromLocation, m, p);
    }
  }
}
