/** The shopping cart: a map from product id to quantity, changed only by the
    three transitions the storefront's buttons trigger. */
module CartStore {
  import opened Catalog

  /** Product id to quantity in the cart. */
  type Cart = map<int, nat>

  /** The cart every session starts with. */
  const Empty: Cart := map[]

  /** `prev[id] || 0`: the quantity of `id`, an absent id counting as 0.
      JavaScript's `||` also turns a stored 0 into 0, so a stored quantity
      always reads back unchanged. */
  function Qty(cart: Cart, id: int): (n: nat)
    ensures id !in cart ==> n == 0
    ensures id in cart ==> n == cart[id]
    ensures n > 0 ==> id in cart
  {
    if id in cart then cart[id] else 0
  }

  /** Every key other than `id` has the same entry, or the same absence, in
      both carts. */
  ghost predicate SameElsewhere(a: Cart, b: Cart, id: int) {
    forall k :: k != id ==> (k in a <==> k in b) && (k in a ==> a[k] == b[k])
  }

  /** `addToCart(product)`: one more of the product. */
  function Add(cart: Cart, p: Product): (r: Cart)
    ensures p.id in r && r[p.id] == Qty(cart, p.id) + 1
    ensures SameElsewhere(cart, r, p.id)
  {
    cart[p.id := Qty(cart, p.id) + 1]
  }

  /** `decreaseFromCart(id)`: one fewer of the product; the entry goes away
      instead of reaching 0, and an absent id stays absent. */
  function Decrease(cart: Cart, id: int): (r: Cart)
    ensures Qty(cart, id) <= 1 ==> id !in r
    ensures Qty(cart, id) > 1 ==> id in r && r[id] == Qty(cart, id) - 1
    ensures SameElsewhere(cart, r, id)
  {
    var current := Qty(cart, id);
    if current <= 1 then cart - {id} else cart[id := current - 1]
  }

  /** `removeFromCart(id)`: the entry goes away whatever its quantity. */
  function Remove(cart: Cart, id: int): (r: Cart)
    ensures id !in r
    ensures SameElsewhere(cart, r, id)
  {
    cart - {id}
  }

  /** Two carts that agree away from `id` and on `id` are the same cart. */
  lemma SameCart(a: Cart, b: Cart, id: int)
    requires SameElsewhere(a, b, id)
    requires id in a <==> id in b
    requires id in a ==> a[id] == b[id]
    ensures a == b
  {
    forall k
      ensures (k in a <==> k in b) && (k in a ==> a[k] == b[k])
    {
      if k != id {
        assert (k in a <==> k in b) && (k in a ==> a[k] == b[k]);
      }
    }
    assert a.Keys == b.Keys;
  }

  /** Adding a product and then decreasing it gives back the cart one started
      from, whether or not the product was in it before, as long as no entry
      of 0 was stored for it. */
  lemma AddThenDecrease(cart: Cart, p: Product)
    requires p.id in cart ==> cart[p.id] >= 1
    ensures Decrease(Add(cart, p), p.id) == cart
  {
    var r := Decrease(Add(cart, p), p.id);
    SameCart(r, cart, p.id);
  }

  /** Decreasing a product that is in the cart and adding it again gives
      back the cart one started from. */
  lemma DecreaseThenAdd(cart: Cart, p: Product)
    requires Qty(cart, p.id) >= 1
    ensures Add(Decrease(cart, p.id), p) == cart
  {
    var r := Add(Decrease(cart, p.id), p);
    SameCart(r, cart, p.id);
  }

  /** Decreasing an id that is not in the cart changes nothing. */
  lemma DecreaseAbsent(cart: Cart, id: int)
    requires id !in cart
    ensures Decrease(cart, id) == cart
  {
    SameCart(Decrease(cart, id), cart, id);
  }

  /** At quantity 1 or below, decreasing is removing. */
  lemma DecreaseLastIsRemove(cart: Cart, id: int)
    requires Qty(cart, id) <= 1
    ensures Decrease(cart, id) == Remove(cart, id)
  {
    SameCart(Decrease(cart, id), Remove(cart, id), id);
  }

  /** Removing an id that is not in the cart changes nothing. */
  lemma RemoveAbsent(cart: Cart, id: int)
    requires id !in cart
    ensures Remove(cart, id) == cart
  {
    SameCart(Remove(cart, id), cart, id);
  }

  /** Removing twice is removing once. */
  lemma RemoveIdempotent(cart: Cart, id: int)
    ensures Remove(Remove(cart, id), id) == Remove(cart, id)
  {
    RemoveAbsent(Remove(cart, id), id);
  }

  /** The cart invariant: every stored quantity is at least 1 and every key
      is the id of a catalog product. */
  predicate Valid(catalog: seq<Product>, cart: Cart) {
    forall id :: id in cart ==> cart[id] >= 1 && HasId(catalog, id)
  }

  /** Adding a catalog product keeps the invariant. */
  lemma AddKeepsValid(catalog: seq<Product>, cart: Cart, p: Product)
    requires Valid(catalog, cart)
    requires p in catalog
    ensures Valid(catalog, Add(cart, p))
  {
    var k :| 0 <= k < |catalog| && catalog[k] == p;
    assert HasId(catalog, p.id);
  }

  /** Decreasing keeps the invariant, whatever the id. */
  lemma DecreaseKeepsValid(catalog: seq<Product>, cart: Cart, id: int)
    requires Valid(catalog, cart)
    ensures Valid(catalog, Decrease(cart, id))
  {
  }

  /** Removing keeps the invariant, whatever the id. */
  lemma RemoveKeepsValid(catalog: seq<Product>, cart: Cart, id: int)
    requires Valid(catalog, cart)
    ensures Valid(catalog, Remove(cart, id))
  {
  }

  /** A user action on the storefront. Checking out reads the cart but does
      not change it. */
  datatype Action = AddItem(product: Product) | DecreaseItem(id: int) | RemoveItem(id: int) | CheckoutCart

  /** The cart after one action. */
  function Apply(cart: Cart, a: Action): Cart {
    match a
    case AddItem(p) => Add(cart, p)
    case DecreaseItem(id) => Decrease(cart, id)
    case RemoveItem(id) => Remove(cart, id)
    case CheckoutCart => cart
  }

  /** The cart after a sequence of actions, applied in order. */
  function Run(cart: Cart, actions: seq<Action>): Cart
    decreases |actions|
  {
    if |actions| == 0 then cart else Run(Apply(cart, actions[0]), actions[1..])
  }

  /** Every product the actions add comes from the catalog, which holds on
      the storefront because the add buttons sit on catalog products. */
  predicate AddsFromCatalog(catalog: seq<Product>, actions: seq<Action>) {
    forall i :: 0 <= i < |actions| && actions[i].AddItem? ==> actions[i].product in catalog
  }

  /** Any sequence of actions keeps the invariant. */
  lemma {:induction false} RunKeepsValid(catalog: seq<Product>, cart: Cart, actions: seq<Action>)
    requires Valid(catalog, cart)
    requires AddsFromCatalog(catalog, actions)
    ensures Valid(catalog, Run(cart, actions))
    decreases |actions|
  {
    if |actions| > 0 {
      var next := Apply(cart, actions[0]);
      match actions[0] {
        case AddItem(p) => AddKeepsValid(catalog, cart, p);
        case DecreaseItem(id) => DecreaseKeepsValid(catalog, cart, id);
        case RemoveItem(id) => RemoveKeepsValid(catalog, cart, id);
        case CheckoutCart =>
      }
      assert AddsFromCatalog(catalog, actions[1..]) by {
        forall i | 0 <= i < |actions[1..]| && actions[1..][i].AddItem?
          ensures actions[1..][i].product in catalog
        {
          assert actions[1..][i] == actions[i + 1];
        }
      }
      RunKeepsValid(catalog, next, actions[1..]);
    }
  }

  /** Every cart a session can reach from the empty cart satisfies the
      invariant: no quantity is ever 0 or negative and no key is foreign to
      the catalog. */
  lemma ReachableCartsValid(catalog: seq<Product>, actions: seq<Action>)
    requires AddsFromCatalog(catalog, actions)
    ensures Valid(catalog, Run(Empty, actions))
  {
    RunKeepsValid(catalog, Empty, actions);
  }
}
