/**
  The data model of the browser cart: a cart is an ordered sequence of line
  items, each identified by a product id. Prices are integer cents; a price
  that is not a number (NaN, or `null` once NaN has been stored as JSON) is
  kept as its own case so that the guarded total can count it as zero.
 */
module LineItems {

  /**
    A unit price in cents, or a stored price that is not a number (NaN, or
    `null` after storage), which the guard `Number(p) || 0` counts as 0.
   */
  datatype Price = Cents(amount: int) | NotANumber

  datatype Option<T> = None | Some(value: T)

  /** One stored row of the cart. */
  datatype LineItem = LineItem(id: string, name: string, price: Price, image: string, quantity: nat)

  /** Rows in insertion order. */
  type Cart = seq<LineItem>

  /** The product record an "add to cart" button hands over; its quantity may be absent. */
  datatype NewItem = NewItem(id: string, name: string, price: Price, image: string, quantity: Option<nat>)

  /** The "or one" default on a non-negative integer: 0 (falsy in JavaScript) becomes 1. */
  function OrOne(q: nat): (r: nat)
    ensures r >= 1
    ensures q >= 1 ==> r == q
  {
    if q == 0 then 1 else q
  }

  /** The quantity an add request contributes: absent or 0 means 1. */
  function Incoming(item: NewItem): (r: nat)
    ensures r >= 1
  {
    match item.quantity
    case None => 1
    case Some(n) => OrOne(n)
  }

  /** The guarded numeric value of a price: a price that is not a number is worth nothing. */
  function UnitValue(p: Price): (v: int)
  {
    match p
    case Cents(c) => c
    case NotANumber => 0
  }

  predicate HasId(cart: Cart, id: string)
  {
    exists i :: 0 <= i < |cart| && cart[i].id == id
  }

  /** At most one row per id. */
  predicate UniqueIds(cart: Cart)
  {
    forall i, j :: 0 <= i < |cart| && 0 <= j < |cart| && cart[i].id == cart[j].id ==> i == j
  }

  /** No row is kept with a zero quantity. */
  predicate PositiveQuantities(cart: Cart)
  {
    forall i :: 0 <= i < |cart| ==> cart[i].quantity >= 1
  }

  /** The cart invariant every mutating operation keeps. */
  predicate WellFormed(cart: Cart)
  {
    UniqueIds(cart) && PositiveQuantities(cart)
  }

  /** The first position holding `id`, or -1 when no row has it (the array search the page uses). */
  function IndexOf(cart: Cart, id: string): (r: int)
    ensures -1 <= r < |cart|
    ensures r == -1 <==> !HasId(cart, id)
    ensures 0 <= r ==> cart[r].id == id
    ensures 0 <= r ==> forall j :: 0 <= j < r ==> cart[j].id != id
  {
    if |cart| == 0 then -1
    else if cart[0].id == id then 0
    else
      var k := IndexOf(cart[1..], id);
      if k == -1 then
        assert forall i :: 1 <= i < |cart| ==> cart[i] == cart[1..][i - 1];
        -1
      else k + 1
  }

  /** A cart is its prefix before `k`, the row at `k`, and the rest. */
  lemma SplitAt(cart: Cart, k: int)
    requires 0 <= k < |cart|
    ensures cart == cart[..k] + [cart[k]] + cart[k + 1..]
  {
    var s := cart[..k] + [cart[k]] + cart[k + 1..];
    assert |s| == |cart|;
    forall j | 0 <= j < |cart|
      ensures s[j] == cart[j]
    {
      if j < k {
        assert s[j] == cart[..k][j];
      } else if j > k {
        assert s[j] == cart[k + 1..][j - k - 1];
      }
    }
  }

  /** Overwriting the row at `k` is splicing the new row in its place. */
  lemma UpdateAsSplice(cart: Cart, k: int, row: LineItem)
    requires 0 <= k < |cart|
    ensures cart[k := row] == cart[..k] + [row] + cart[k + 1..]
  {
    var s := cart[..k] + [row] + cart[k + 1..];
    assert |s| == |cart|;
    forall j | 0 <= j < |cart|
      ensures s[j] == cart[k := row][j]
    {
      if j < k {
        assert s[j] == cart[..k][j];
      } else if j > k {
        assert s[j] == cart[k + 1..][j - k - 1];
      }
    }
  }

  /** A cart holds `id` exactly when its first row or the rest does. */
  lemma HasIdCons(cart: Cart, id: string)
    requires |cart| > 0
    ensures HasId(cart, id) <==> cart[0].id == id || HasId(cart[1..], id)
  {
    if HasId(cart[1..], id) {
      var j :| 0 <= j < |cart[1..]| && cart[1..][j].id == id;
      assert cart[j + 1].id == id;
    }
    if HasId(cart, id) && cart[0].id != id {
      var j :| 0 <= j < |cart| && cart[j].id == id;
      assert cart[1..][j - 1].id == id;
    }
  }

  /** In a well-formed cart the row found by `IndexOf` is the only row with that id. */
  lemma IndexOfUnique(cart: Cart, id: string, i: int)
    requires UniqueIds(cart)
    requires 0 <= i < |cart| && cart[i].id == id
    ensures IndexOf(cart, id) == i
  {
    var k := IndexOf(cart, id);
    assert HasId(cart, id);
  }

  /** Removing the first row of a well-formed cart leaves a well-formed cart without its id. */
  lemma TailWellFormed(cart: Cart)
    requires WellFormed(cart) && |cart| > 0
    ensures WellFormed(cart[1..])
    ensures forall row :: row in cart[1..] ==> row.id != cart[0].id
  {
    forall row | row in cart[1..]
      ensures row.id != cart[0].id
    {
      var j :| 0 <= j < |cart[1..]| && cart[1..][j] == row;
      assert cart[j + 1] == row;
    }
  }

  /** A well-formed cart extended in front by a row with a fresh id and a positive quantity is well-formed. */
  lemma ConsWellFormed(row: LineItem, rest: Cart)
    requires WellFormed(rest) && row.quantity >= 1
    requires forall other :: other in rest ==> other.id != row.id
    ensures WellFormed([row] + rest)
  {
    var c := [row] + rest;
    forall k | 1 <= k < |c|
      ensures c[k] == rest[k - 1] && c[k].id != row.id
    {
      assert rest[k - 1] in rest;
    }
  }
}
