/** What the storefront derives from the cart: the line items of the cart
    panel, the item count and amount totals, and the checkout decision. */
module CartView {
  import opened Catalog
  import opened CartStore
  import Seqs

  /** A product of the cart with its quantity. */
  datatype LineItem = LineItem(product: Product, qty: nat)

  /** Every key of the cart is the id of a catalog product, so that each
      line item has a product to show and to price. */
  predicate KeysInCatalog(catalog: seq<Product>, cart: Cart) {
    forall id :: id in cart ==> HasId(catalog, id)
  }

  /** The least element of a non-empty set of ids. */
  function MinId(ids: set<int>): (m: int)
    requires ids != {}
    ensures m in ids
    ensures forall x :: x in ids ==> m <= x
  {
    MinExists(ids);
    var m :| m in ids && forall x :: x in ids ==> m <= x;
    m
  }

  /** A non-empty set has an element. */
  lemma Inhabited(ids: set<int>)
    requires ids != {}
    ensures exists y :: y in ids
  {
    if forall y :: y !in ids {
      assert false;
    }
  }

  lemma {:induction false} MinExists(ids: set<int>)
    requires ids != {}
    ensures exists m :: m in ids && forall x :: x in ids ==> m <= x
    decreases |ids|
  {
    Inhabited(ids);
    var y :| y in ids;
    if ids == {y} {
      assert forall x :: x in ids ==> y <= x;
    } else {
      var rest := ids - {y};
      MinExists(rest);
      var m :| m in rest && forall x :: x in rest ==> m <= x;
      var least := if y < m then y else m;
      forall x | x in ids
        ensures least <= x
      {
        if x != y {
          assert x in rest;
        }
      }
      assert least in ids;
    }
  }

  /** The ids in ascending order, which is the order in which JavaScript
      enumerates the integer-like keys of an object. */
  function SortedIds(ids: set<int>): (r: seq<int>)
    ensures |r| == |ids|
    ensures forall i :: 0 <= i < |r| ==> r[i] in ids
    ensures forall x :: x in ids ==> x in r
    ensures forall i, j :: 0 <= i < j < |r| ==> r[i] < r[j]
    decreases |ids|
  {
    if ids == {} then []
    else
      var m := MinId(ids);
      var rest := SortedIds(ids - {m});
      SortedStep(ids, m, rest);
      [m] + rest
  }

  /** Putting the least id in front of the sorted remaining ids sorts them
      all. */
  lemma SortedStep(ids: set<int>, m: int, rest: seq<int>)
    requires m in ids
    requires forall x :: x in ids ==> m <= x
    requires |rest| == |ids - {m}|
    requires forall i :: 0 <= i < |rest| ==> rest[i] in ids - {m}
    requires forall x :: x in ids - {m} ==> x in rest
    requires forall i, j :: 0 <= i < j < |rest| ==> rest[i] < rest[j]
    ensures |[m] + rest| == |ids|
    ensures forall i :: 0 <= i < |[m] + rest| ==> ([m] + rest)[i] in ids
    ensures forall x :: x in ids ==> x in [m] + rest
    ensures forall i, j :: 0 <= i < j < |[m] + rest| ==> ([m] + rest)[i] < ([m] + rest)[j]
  {
    var r := [m] + rest;
    assert forall i :: 1 <= i < |r| ==> r[i] == rest[i - 1];
    forall x | x in ids
      ensures x in r
    {
      if x != m {
        assert x in ids - {m};
      }
    }
  }

  /** The line items for the listed ids, each product resolved by id. */
  function ItemsFor(catalog: seq<Product>, cart: Cart, ids: seq<int>): (items: seq<LineItem>)
    requires forall i :: 0 <= i < |ids| ==> ids[i] in cart && HasId(catalog, ids[i])
    ensures |items| == |ids|
    ensures forall i :: 0 <= i < |items| ==>
              && items[i].product in catalog
              && items[i].product.id == ids[i]
              && items[i].qty == cart[ids[i]]
  {
    seq(|ids|, i requires 0 <= i < |ids| => LineItem(Find(catalog, ids[i]).value, cart[ids[i]]))
  }

  /** `Object.entries(cart).map(...)`: one line item per key of the cart,
      carrying the catalog product with that id and the key's quantity, in
      ascending id order. */
  function LineItems(catalog: seq<Product>, cart: Cart): (items: seq<LineItem>)
    requires KeysInCatalog(catalog, cart)
    ensures |items| == |cart|
    ensures forall i :: 0 <= i < |items| ==>
              && items[i].product in catalog
              && items[i].product.id in cart
              && items[i].qty == cart[items[i].product.id]
    ensures forall id :: id in cart ==> exists i :: 0 <= i < |items| && items[i].product.id == id
    ensures forall i, j :: 0 <= i < j < |items| ==> items[i].product.id < items[j].product.id
  {
    var ids := SortedIds(cart.Keys);
    ItemsForSorted(catalog, cart, ids);
    ItemsFor(catalog, cart, ids)
  }

  /** The line items of all the cart's ids, in ascending order, are one per
      key of the cart and in ascending id order. */
  lemma ItemsForSorted(catalog: seq<Product>, cart: Cart, ids: seq<int>)
    requires forall i :: 0 <= i < |ids| ==> ids[i] in cart && HasId(catalog, ids[i])
    requires forall x :: x in cart ==> x in ids
    requires |ids| == |cart|
    requires forall i, j :: 0 <= i < j < |ids| ==> ids[i] < ids[j]
    ensures forall id :: id in cart ==>
              exists i :: 0 <= i < |ItemsFor(catalog, cart, ids)| && ItemsFor(catalog, cart, ids)[i].product.id == id
    ensures forall i, j :: 0 <= i < j < |ItemsFor(catalog, cart, ids)| ==>
              ItemsFor(catalog, cart, ids)[i].product.id < ItemsFor(catalog, cart, ids)[j].product.id
  {
    var items := ItemsFor(catalog, cart, ids);
    forall id | id in cart
      ensures exists i :: 0 <= i < |items| && items[i].product.id == id
    {
      var i :| 0 <= i < |ids| && ids[i] == id;
      assert items[i].product.id == id;
    }
  }

  /** `cartItems.reduce((sum, item) => sum + item.qty, 0)`: never negative,
      and line items of quantity at least 1 count at least one item each.
      `TotalsAreSums` relates it to the cart itself. */
  function TotalItems(items: seq<LineItem>): (n: int)
    ensures n >= 0
    ensures (forall i :: 0 <= i < |items| ==> items[i].qty >= 1) ==> n >= |items|
  {
    if |items| == 0 then 0 else items[0].qty + TotalItems(items[1..])
  }

  /** `cartItems.reduce((sum, {product, qty}) => sum + product.price * qty, 0)`:
      not negative when no price is negative. `TotalsAreSums` relates it to
      the cart itself. */
  function TotalAmount(items: seq<LineItem>): (a: int)
    ensures (forall i :: 0 <= i < |items| ==> items[i].product.price >= 0) ==> a >= 0
  {
    if |items| == 0 then 0
    else
      var rest := TotalAmount(items[1..]);
      assert (forall i :: 0 <= i < |items| ==> items[i].product.price >= 0) ==> items[0].product.price * items[0].qty >= 0;
      items[0].product.price * items[0].qty + rest
  }

  /** The sum of `w` over a finite set of ids, taken in no particular order. */
  ghost function SumOver(ids: set<int>, w: int -> int): int
    decreases ids
  {
    if ids == {} then 0
    else
      Inhabited(ids);
      var k :| k in ids;
      w(k) + SumOver(ids - {k}, w)
  }

  /** The sum over a set may start from any of its elements. */
  lemma {:induction false} SumOverRemove(ids: set<int>, w: int -> int, k: int)
    requires k in ids
    ensures SumOver(ids, w) == w(k) + SumOver(ids - {k}, w)
    decreases |ids|
  {
    var j :| j in ids && SumOver(ids, w) == w(j) + SumOver(ids - {j}, w);
    if j != k {
      SumOverRemove(ids - {j}, w, k);
      SumOverRemove(ids - {k}, w, j);
      assert ids - {j} - {k} == ids - {k} - {j};
    }
  }

  /** The quantity of each id. */
  function QtyWeight(cart: Cart): int -> int {
    id => Qty(cart, id)
  }

  /** The catalog price of an id, 0 for an id the catalog lacks. */
  function PriceOf(catalog: seq<Product>, id: int): int {
    match Find(catalog, id)
    case Some(p) => p.price
    case None => 0
  }

  /** The amount each id contributes: its price times its quantity. */
  function AmountWeight(catalog: seq<Product>, cart: Cart): int -> int {
    id => PriceOf(catalog, id) * Qty(cart, id)
  }

  /** Summing the line items of duplicate-free ids gives the set sums. */
  lemma {:induction false} ItemsForSums(catalog: seq<Product>, cart: Cart, ids: seq<int>, keys: set<int>)
    requires forall i :: 0 <= i < |ids| ==> ids[i] in cart && HasId(catalog, ids[i])
    requires Seqs.NoDups(ids)
    requires forall i :: 0 <= i < |ids| ==> ids[i] in keys
    requires forall x :: x in keys ==> x in ids
    ensures TotalItems(ItemsFor(catalog, cart, ids)) == SumOver(keys, QtyWeight(cart))
    ensures TotalAmount(ItemsFor(catalog, cart, ids)) == SumOver(keys, AmountWeight(catalog, cart))
    decreases |ids|
  {
    var items := ItemsFor(catalog, cart, ids);
    if |ids| == 0 {
      assert forall x :: x !in keys;
      assert keys == {};
    } else {
      var k := ids[0];
      var rest := ids[1..];
      assert forall i :: 0 <= i < |rest| ==> rest[i] == ids[i + 1];
      assert k !in rest;
      ItemsForSums(catalog, cart, rest, keys - {k});
      ItemsForHead(catalog, cart, ids);
      SumOverRemove(keys, QtyWeight(cart), k);
      SumOverRemove(keys, AmountWeight(catalog, cart), k);
    }
  }

  /** The first id's line item contributes its quantity and its amount ahead
      of the rest. */
  lemma ItemsForHead(catalog: seq<Product>, cart: Cart, ids: seq<int>)
    requires forall i :: 0 <= i < |ids| ==> ids[i] in cart && HasId(catalog, ids[i])
    requires |ids| > 0
    ensures TotalItems(ItemsFor(catalog, cart, ids)) == QtyWeight(cart)(ids[0]) + TotalItems(ItemsFor(catalog, cart, ids[1..]))
    ensures TotalAmount(ItemsFor(catalog, cart, ids)) == AmountWeight(catalog, cart)(ids[0]) + TotalAmount(ItemsFor(catalog, cart, ids[1..]))
  {
    var items := ItemsFor(catalog, cart, ids);
    assert items[1..] == ItemsFor(catalog, cart, ids[1..]);
    assert Find(catalog, ids[0]) == Some(items[0].product);
  }

  /** `totalItems` is the sum of the quantities in the cart and
      `totalAmount` the sum of price times quantity, neither depending on
      the order of the line items. */
  lemma TotalsAreSums(catalog: seq<Product>, cart: Cart)
    requires KeysInCatalog(catalog, cart)
    ensures TotalItems(LineItems(catalog, cart)) == SumOver(cart.Keys, QtyWeight(cart))
    ensures TotalAmount(LineItems(catalog, cart)) == SumOver(cart.Keys, AmountWeight(catalog, cart))
  {
    var ids := SortedIds(cart.Keys);
    ItemsForSums(catalog, cart, ids, cart.Keys);
  }

  /** Under the cart invariant the badge count is at least the number of
      line items, and it is 0 exactly when the cart is empty. */
  lemma TotalItemsOfValidCart(catalog: seq<Product>, cart: Cart)
    requires Valid(catalog, cart)
    ensures KeysInCatalog(catalog, cart)
    ensures TotalItems(LineItems(catalog, cart)) >= |LineItems(catalog, cart)|
    ensures TotalItems(LineItems(catalog, cart)) == 0 <==> cart == Empty
  {
    var items := LineItems(catalog, cart);
    if cart != Empty {
      var id :| id in cart;
      assert |cart| > 0;
    }
  }

  /** With a well-formed catalog the cart's amount is not negative. */
  lemma TotalAmountOfWellFormed(catalog: seq<Product>, cart: Cart)
    requires WellFormed(catalog)
    requires KeysInCatalog(catalog, cart)
    ensures TotalAmount(LineItems(catalog, cart)) >= 0
  {
    var items := LineItems(catalog, cart);
    forall i | 0 <= i < |items|
      ensures items[i].product.price >= 0
    {
      PriceInCatalog(catalog, items[i].product);
    }
  }

  /** Every product of a well-formed catalog has a price that is not
      negative. */
  lemma PriceInCatalog(catalog: seq<Product>, p: Product)
    requires WellFormed(catalog)
    requires p in catalog
    ensures p.price >= 0
  {
    var k :| 0 <= k < |catalog| && catalog[k] == p;
  }

  /** An empty cart has no line items and both totals are 0. */
  lemma EmptyCartTotals(catalog: seq<Product>)
    ensures LineItems(catalog, Empty) == []
    ensures TotalItems(LineItems(catalog, Empty)) == 0
    ensures TotalAmount(LineItems(catalog, Empty)) == 0
  {
  }

  /** The outcome of pressing the checkout button. */
  datatype CheckoutResult = EmptyCart | OrderPlaced(itemCount: int, amount: int)

  /** `handleCheckout`: refused when there are no line items, otherwise an
      order report with the item count and the amount. The cart is only
      read. */
  function Checkout(catalog: seq<Product>, cart: Cart): (r: CheckoutResult)
    requires KeysInCatalog(catalog, cart)
    ensures r.EmptyCart? <==> cart == Empty
    ensures r.OrderPlaced? ==> r.itemCount == SumOver(cart.Keys, QtyWeight(cart))
    ensures r.OrderPlaced? ==> r.amount == SumOver(cart.Keys, AmountWeight(catalog, cart))
    ensures r.OrderPlaced? && Valid(catalog, cart) ==> r.itemCount >= |cart| >= 1
    ensures r.OrderPlaced? && WellFormed(catalog) ==> r.amount >= 0
  {
    var items := LineItems(catalog, cart);
    if |items| == 0 then
      EmptyCart
    else
      TotalsAreSums(catalog, cart);
      assert cart != Empty;
      assert Valid(catalog, cart) ==> TotalItems(items) >= |items| by {
        if Valid(catalog, cart) {
          TotalItemsOfValidCart(catalog, cart);
        }
      }
      assert WellFormed(catalog) ==> TotalAmount(items) >= 0 by {
        if WellFormed(catalog) {
          TotalAmountOfWellFormed(catalog, cart);
        }
      }
      OrderPlaced(TotalItems(items), TotalAmount(items))
  }
}
