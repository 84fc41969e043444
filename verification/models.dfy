/**
 * The persistent entities of the inventory application (products, locations and the
 * movement ledger), the whole stored state, and the key rules the store enforces.
 */
module Models {
  import opened Wrappers

  type ProductId = string
  type LocationId = string

  /** The minimum-stock threshold a product gets when none is supplied. */
  const DefaultMinStock: int := 5

  /** The location that receives initial stock and stock corrections. */
  const MainWarehouse: LocationId := "WH001"

  const ProductPrefix: string := "PROD"
  const LocationPrefix: string := "WH"

  /** A product, keyed by `productId`; `name` is a required column. */
  datatype Product = Product(productId: ProductId, name: string, description: Option<string>, minStock: int)

  /** A storage location, keyed by `locationId`; `name` is a required column. */
  datatype Location = Location(locationId: LocationId, name: string, description: Option<string>)

  /**
   * One ledger entry. Both endpoints are independently optional in the schema;
   * `qty` is a plain integer with no sign constraint.
   */
  datatype Movement = Movement(
    movementId: int,
    productId: ProductId,
    fromLocation: Option<LocationId>,
    toLocation: Option<LocationId>,
    qty: int)

  /** The whole stored state, each table in the order the store returns it. */
  datatype Inventory = Inventory(products: seq<Product>, locations: seq<Location>, movements: seq<Movement>)

  /** Why an operation left the state unchanged. */
  datatype Error =
    | NoEndpoint                       // a movement with neither source nor destination
    | InsufficientStock(available: int) // the source location holds less than the quantity
    | NotFound                         // no row with the given key
    | MissingName                      // the required name column would be null
    | MalformedId                      // the suffix of the greatest id is not a number
    | DuplicateId                      // the allocated primary key is already in use

  /** A product row as the schema fills it in: `min_stock` falls back to the default. */
  function NewProduct(id: ProductId, name: string, description: Option<string>, minStock: Option<int>): (p: Product)
    ensures p.productId == id && p.name == name && p.description == description
    ensures minStock.None? ==> p.minStock == DefaultMinStock
    ensures minStock.Some? ==> p.minStock == minStock.value
  {
    Product(id, name, description, if minStock.Some? then minStock.value else DefaultMinStock)
  }

  function ProductIds(ps: seq<Product>): (ids: seq<ProductId>)
    ensures |ids| == |ps|
    ensures forall i :: 0 <= i < |ps| ==> ids[i] == ps[i].productId
  {
    seq(|ps|, i requires 0 <= i < |ps| => ps[i].productId)
  }

  function LocationIds(ls: seq<Location>): (ids: seq<LocationId>)
    ensures |ids| == |ls|
    ensures forall i :: 0 <= i < |ls| ==> ids[i] == ls[i].locationId
  {
    seq(|ls|, i requires 0 <= i < |ls| => ls[i].locationId)
  }

  function MovementIds(ms: seq<Movement>): (ids: seq<int>)
    ensures |ids| == |ms|
    ensures forall i :: 0 <= i < |ms| ==> ids[i] == ms[i].movementId
  {
    seq(|ms|, i requires 0 <= i < |ms| => ms[i].movementId)
  }

  /** Primary-key lookup (`query.get`): the position of the first row whose key is `k`. */
  function IndexOf<K(==)>(keys: seq<K>, k: K): (r: Option<nat>)
    ensures r.None? <==> k !in keys
    ensures r.Some? ==> r.value < |keys| && keys[r.value] == k
    ensures r.Some? ==> forall j :: 0 <= j < r.value ==> keys[j] != k
  {
    if |keys| == 0 then None
    else if keys[0] == k then Some(0)
    else match IndexOf(keys[1..], k)
      case None => None
      case Some(j) => Some(j + 1)
  }

  /** No key occurs twice. */
  predicate Distinct<K(==)>(keys: seq<K>) {
    forall i, j :: 0 <= i < j < |keys| ==> keys[i] != keys[j]
  }

  /** The primary keys of every table are unique. */
  predicate Valid(inv: Inventory) {
    && Distinct(ProductIds(inv.products))
    && Distinct(LocationIds(inv.locations))
    && Distinct(MovementIds(inv.movements))
  }

  /** The sequence without its element at position `i`. */
  function RemoveAt<T>(s: seq<T>, i: nat): (r: seq<T>)
    requires i < |s|
    ensures |r| == |s| - 1
    ensures forall j :: 0 <= j < i ==> r[j] == s[j]
    ensures forall j :: i <= j < |r| ==> r[j] == s[j + 1]
  {
    s[..i] + s[i + 1..]
  }

  /** Removing an element keeps the remaining keys distinct, and the removed key is gone. */
  lemma DistinctRemoveAt<K>(keys: seq<K>, i: nat)
    requires i < |keys| && Distinct(keys)
    ensures Distinct(RemoveAt(keys, i))
    ensures keys[i] !in RemoveAt(keys, i)
  {
    var r := RemoveAt(keys, i);
    forall a, b | 0 <= a < b < |r|
      ensures r[a] != r[b]
    {
      var a' := if a < i then a else a + 1;
      var b' := if b < i then b else b + 1;
      assert r[a] == keys[a'] && r[b] == keys[b'];
    }
    forall j | 0 <= j < |r|
      ensures r[j] != keys[i]
    {
      var j' := if j < i then j else j + 1;
      assert r[j] == keys[j'];
    }
  }

  /** Appending a fresh key keeps the keys distinct. */
  lemma DistinctAppend<K>(keys: seq<K>, k: K)
    requires Distinct(keys) && k !in keys
    ensures Distinct(keys + [k])
  {
    var r := keys + [k];
    forall a, b | 0 <= a < b < |r|
      ensures r[a] != r[b]
    {
      if b == |keys| {
        assert r[a] == keys[a];
      }
    }
  }

  /** The greatest movement id present, or 0 for an empty ledger. */
  function MaxMovementId(ms: seq<Movement>): (r: int)
    ensures r >= 0
    ensures forall i :: 0 <= i < |ms| ==> ms[i].movementId <= r
  {
    if |ms| == 0 then 0
    else
      var rest := MaxMovementId(ms[..|ms| - 1]);
      if ms[|ms| - 1].movementId > rest then ms[|ms| - 1].movementId else rest
  }

  /** The greatest id is attained: it is 0 or the id of some movement. */
  lemma {:induction false} MaxMovementIdAttained(ms: seq<Movement>)
    ensures MaxMovementId(ms) == 0 || exists i :: 0 <= i < |ms| && ms[i].movementId == MaxMovementId(ms)
    decreases |ms|
  {
    if |ms| > 0 {
      var ms' := ms[..|ms| - 1];
      MaxMovementIdAttained(ms');
      if MaxMovementId(ms) != ms[|ms| - 1].movementId && MaxMovementId(ms) != 0 {
        var i :| 0 <= i < |ms'| && ms'[i].movementId == MaxMovementId(ms');
        assert ms[i] == ms'[i];
      }
    }
  }

  /**
   * The id the store assigns to the next inserted movement: one more than the greatest
   * id present (so 1 for an empty ledger). It never collides with an existing id.
   */
  function NextMovementId(ms: seq<Movement>): (r: int)
    ensures r >= 1
    ensures forall i :: 0 <= i < |ms| ==> ms[i].movementId < r
    ensures r !in MovementIds(ms)
  {
    MaxMovementId(ms) + 1
  }
}
