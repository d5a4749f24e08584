/**
  The cart's mutating operations. In the page each one loads the stored
  cart, changes it and stores it back; with storage stripped away each is a
  pure function from the old cart to the new one.
 */
module CartStore {
  import opened LineItems
  import opened CartTotals

  /** The floor at zero a changed quantity is clamped to. */
  function AtLeastZero(x: int): (r: nat)
    ensures r >= x
    ensures x >= 0 ==> r == x
  {
    if x < 0 then 0 else x
  }

  /** The row appended for a product not yet in the cart. */
  function NewRow(item: NewItem): (row: LineItem)
    ensures row.id == item.id && row.quantity == Incoming(item)
    ensures row.name == item.name && row.price == item.price && row.image == item.image
  {
    LineItem(item.id, item.name, item.price, item.image, Incoming(item))
  }

  // ---------------------------------------------------------------- remove

  /** Keeps the rows whose id differs from `id`, in their original order. */
  function RemoveItem(cart: Cart, id: string): (r: Cart)
    ensures |r| <= |cart|
    ensures !HasId(r, id)
    ensures !HasId(cart, id) ==> r == cart
  {
    if |cart| == 0 then []
    else
      HasIdCons(cart, id);
      var rest := RemoveItem(cart[1..], id);
      assert cart == [cart[0]] + cart[1..];
      if cart[0].id == id then rest
      else
        assert ([cart[0]] + rest)[1..] == rest;
        HasIdCons([cart[0]] + rest, id);
        [cart[0]] + rest
  }

  /** The rows kept are exactly the rows of the cart with another id. */
  lemma {:induction false} RemoveItemMembers(cart: Cart, id: string)
    ensures forall row :: row in RemoveItem(cart, id) <==> row in cart && row.id != id
  {
    if |cart| > 0 {
      RemoveItemMembers(cart[1..], id);
      assert cart == [cart[0]] + cart[1..];
    }
  }

  /** Filtering distributes over concatenation: the survivors keep their relative order. */
  lemma {:induction false} RemoveItemConcat(a: Cart, b: Cart, id: string)
    ensures RemoveItem(a + b, id) == RemoveItem(a, id) + RemoveItem(b, id)
  {
    if |a| == 0 {
      assert a + b == b;
    } else {
      assert (a + b)[1..] == a[1..] + b;
      RemoveItemConcat(a[1..], b, id);
    }
  }

  lemma RemoveItemIdempotent(cart: Cart, id: string)
    ensures RemoveItem(RemoveItem(cart, id), id) == RemoveItem(cart, id)
  {
  }

  /** Removing rows from a well-formed cart keeps it well-formed. */
  lemma {:induction false} RemoveItemPreservesWellFormed(cart: Cart, id: string)
    requires WellFormed(cart)
    ensures WellFormed(RemoveItem(cart, id))
  {
    if |cart| > 0 {
      TailWellFormed(cart);
      RemoveItemPreservesWellFormed(cart[1..], id);
      if cart[0].id != id {
        RemoveItemMembers(cart[1..], id);
        ConsWellFormed(cart[0], RemoveItem(cart[1..], id));
      }
    }
  }

  /** Filtering a cart where every row carries `id` leaves nothing. */
  lemma {:induction false} RemoveItemAllMatching(rows: Cart, id: string)
    requires forall row :: row in rows ==> row.id == id
    ensures RemoveItem(rows, id) == []
  {
    if |rows| > 0 {
      assert rows[0] in rows;
      assert forall row :: row in rows[1..] ==> row in rows;
      RemoveItemAllMatching(rows[1..], id);
    }
  }

  /**
    Replacing the row at `k` by any rows that carry the same id leaves the
    other rows, and their order, as they were.
   */
  lemma ReplaceRowFrame(cart: Cart, k: int, mid: Cart)
    requires 0 <= k < |cart|
    requires forall row :: row in mid ==> row.id == cart[k].id
    ensures RemoveItem(cart[..k] + mid + cart[k + 1..], cart[k].id) == RemoveItem(cart, cart[k].id)
  {
    var id := cart[k].id;
    SplitAt(cart, k);
    RemoveItemConcat(cart[..k] + mid, cart[k + 1..], id);
    RemoveItemConcat(cart[..k], mid, id);
    RemoveItemConcat(cart[..k] + [cart[k]], cart[k + 1..], id);
    RemoveItemConcat(cart[..k], [cart[k]], id);
    RemoveItemAllMatching(mid, id);
    RemoveItemAllMatching([cart[k]], id);
  }

  /** Splicing out the row at `k` keeps the rows before it and moves the rows after it up by one. */
  lemma SpliceParts(cart: Cart, k: int)
    requires 0 <= k < |cart|
    ensures var s := cart[..k] + cart[k + 1..];
      |s| == |cart| - 1 && s[..k] == cart[..k] && s[k..] == cart[k + 1..]
  {
    var s := cart[..k] + cart[k + 1..];
    assert s[..k] == cart[..k];
    assert s[k..] == cart[k + 1..];
  }

  /** With unique ids, splicing out the row at `k` leaves no row with its id. */
  lemma SpliceDropsId(cart: Cart, k: int)
    requires UniqueIds(cart) && 0 <= k < |cart|
    ensures !HasId(cart[..k] + cart[k + 1..], cart[k].id)
  {
    var s := cart[..k] + cart[k + 1..];
    forall j | 0 <= j < |s|
      ensures s[j].id != cart[k].id
    {
      if j < k {
        assert s[j] == cart[j];
      } else {
        assert s[j] == cart[j + 1];
      }
    }
  }

  /** In a well-formed cart, removing a present id splices out exactly its one row. */
  lemma RemoveItemSplice(cart: Cart, id: string)
    requires WellFormed(cart) && HasId(cart, id)
    ensures var k := IndexOf(cart, id);
      RemoveItem(cart, id) == cart[..k] + cart[k + 1..]
    ensures |RemoveItem(cart, id)| == |cart| - 1
  {
    var k := IndexOf(cart, id);
    var s := cart[..k] + cart[k + 1..];
    ReplaceRowFrame(cart, k, []);
    assert cart[..k] + [] + cart[k + 1..] == s;
    SpliceDropsId(cart, k);
    assert RemoveItem(s, id) == s;
  }

  // ---------------------------------------------------------------- add

  /** The existing row after an add of the same id: only its quantity grows. */
  function MergedRow(row: LineItem, item: NewItem): (merged: LineItem)
    ensures merged.id == row.id && merged.name == row.name
    ensures merged.price == row.price && merged.image == row.image
    ensures merged.quantity == OrOne(row.quantity) + Incoming(item)
  {
    row.(quantity := OrOne(row.quantity) + Incoming(item))
  }

  /**
    Adds a product: a row with the same id has its quantity raised by the
    incoming quantity (default 1); otherwise a new row is appended.
   */
  function AddToCart(cart: Cart, item: NewItem): (r: Cart)
    ensures HasId(r, item.id)
    ensures HasId(cart, item.id) ==>
      var k := IndexOf(cart, item.id);
      && |r| == |cart|
      && r[k] == MergedRow(cart[k], item)
      && forall j :: 0 <= j < |cart| && j != k ==> r[j] == cart[j]
    ensures !HasId(cart, item.id) ==>
      && |r| == |cart| + 1
      && r[..|cart|] == cart
      && r[|cart|] == NewRow(item)
  {
    var k := IndexOf(cart, item.id);
    if k > -1 then
      var r := cart[k := MergedRow(cart[k], item)];
      assert r[k].id == item.id;
      r
    else
      assert (cart + [NewRow(item)])[|cart|].id == item.id;
      cart + [NewRow(item)]
  }

  /** Overwriting a row by one with the same id and a positive quantity keeps a cart well-formed. */
  lemma UpdateKeepsWellFormed(cart: Cart, k: int, row: LineItem)
    requires WellFormed(cart) && 0 <= k < |cart|
    requires row.id == cart[k].id && row.quantity >= 1
    ensures WellFormed(cart[k := row])
  {
    var r := cart[k := row];
    assert forall j :: 0 <= j < |cart| ==> r[j].id == cart[j].id;
  }

  /** A merging add, seen as replacing the matching row by its merged form. */
  lemma AddToCartShape(cart: Cart, item: NewItem)
    requires HasId(cart, item.id)
    ensures var k := IndexOf(cart, item.id);
      AddToCart(cart, item) == cart[..k] + [MergedRow(cart[k], item)] + cart[k + 1..]
  {
    var k := IndexOf(cart, item.id);
    UpdateAsSplice(cart, k, MergedRow(cart[k], item));
  }

  lemma AddToCartPreservesWellFormed(cart: Cart, item: NewItem)
    requires WellFormed(cart)
    ensures WellFormed(AddToCart(cart, item))
  {
    var r := AddToCart(cart, item);
    var k := IndexOf(cart, item.id);
    if k > -1 {
      UpdateKeepsWellFormed(cart, k, MergedRow(cart[k], item));
    } else {
      assert forall j :: 0 <= j < |cart| ==> r[j] == cart[j] && cart[j].id != item.id;
      assert r[|cart|].id == item.id;
    }
  }

  /** Adding leaves every row of another id, and their order, as it was. */
  lemma AddToCartFrame(cart: Cart, item: NewItem)
    ensures RemoveItem(AddToCart(cart, item), item.id) == RemoveItem(cart, item.id)
  {
    var k := IndexOf(cart, item.id);
    if k > -1 {
      AddToCartShape(cart, item);
      ReplaceRowFrame(cart, k, [MergedRow(cart[k], item)]);
    } else {
      assert AddToCart(cart, item) == cart + [NewRow(item)];
      RemoveItemConcat(cart, [NewRow(item)], item.id);
    }
  }

  /**
    On a well-formed cart, adding raises the units under the added id by
    the incoming quantity and changes no other id's units.
   */
  lemma AddToCartQuantities(cart: Cart, item: NewItem, id: string)
    requires WellFormed(cart)
    ensures QuantityOf(AddToCart(cart, item), id)
      == QuantityOf(cart, id) + (if id == item.id then Incoming(item) else 0)
  {
    var k := IndexOf(cart, item.id);
    if k > -1 {
      var row := MergedRow(cart[k], item);
      AddToCartShape(cart, item);
      ReplaceRowAggregates(cart, k, [row], id);
      SingleRowAggregates(row, id);
      SingleRowAggregates(cart[k], id);
    } else {
      assert AddToCart(cart, item) == cart + [NewRow(item)];
      QuantityOfConcat(cart, [NewRow(item)], id);
      SingleRowAggregates(NewRow(item), id);
      QuantityOfRow(cart, id);
    }
  }

  /** On a well-formed cart the badge grows by exactly the incoming quantity. */
  lemma AddToCartCount(cart: Cart, item: NewItem)
    requires WellFormed(cart)
    ensures Count(AddToCart(cart, item)) == Count(cart) + Incoming(item)
  {
    var k := IndexOf(cart, item.id);
    if k > -1 {
      var row := MergedRow(cart[k], item);
      AddToCartShape(cart, item);
      ReplaceRowAggregates(cart, k, [row], item.id);
      SingleRowAggregates(row, item.id);
    } else {
      assert AddToCart(cart, item) == cart + [NewRow(item)];
      AggregatesOfAppend(cart, NewRow(item));
    }
  }

  /** The unit price the added units are charged at: the existing row's when merging, the item's own when appending. */
  function PriceAfterAdd(cart: Cart, item: NewItem): (p: Price)
  {
    if HasId(cart, item.id) then cart[IndexOf(cart, item.id)].price else item.price
  }

  /** A merged row is worth its old value plus the added units at its own unit price. */
  lemma MergedRowValue(row: LineItem, item: NewItem)
    requires row.quantity >= 1
    ensures LineValue(MergedRow(row, item)) == LineValue(row) + UnitValue(row.price) * Incoming(item)
  {
    var p := UnitValue(row.price);
    var n := Incoming(item);
    assert MergedRow(row, item).quantity == row.quantity + n;
    assert p * (row.quantity + n) == p * row.quantity + p * n;
  }

  /** On a well-formed cart the total grows by the incoming quantity times the unit price it is charged at. */
  lemma AddToCartTotal(cart: Cart, item: NewItem)
    requires WellFormed(cart)
    ensures Total(AddToCart(cart, item)) == Total(cart) + UnitValue(PriceAfterAdd(cart, item)) * Incoming(item)
  {
    var k := IndexOf(cart, item.id);
    if k > -1 {
      var row := MergedRow(cart[k], item);
      assert cart[k].quantity >= 1;
      AddToCartShape(cart, item);
      ReplaceRowAggregates(cart, k, [row], item.id);
      SingleRowAggregates(row, item.id);
      MergedRowValue(cart[k], item);
    } else {
      assert AddToCart(cart, item) == cart + [NewRow(item)];
      AggregatesOfAppend(cart, NewRow(item));
    }
  }

  // ---------------------------------------------------------------- change quantity

  /** What a quantity change leaves at the row's position: the updated row, or nothing once it reaches 0. */
  function ChangedRows(row: LineItem, delta: int): (rows: Cart)
    ensures |rows| <= 1
    ensures forall changed :: changed in rows ==> changed.id == row.id && changed.quantity >= 1
  {
    var q := AtLeastZero(OrOne(row.quantity) + delta);
    if q == 0 then [] else [row.(quantity := q)]
  }

  /** The units a quantity change leaves at the row's position: max(0, quantity + delta). */
  lemma ChangedRowsUnits(row: LineItem, delta: int, id: string)
    requires row.quantity >= 1
    ensures Count(ChangedRows(row, delta)) == AtLeastZero(row.quantity + delta)
    ensures QuantityOf(ChangedRows(row, delta), id)
      == if row.id == id then AtLeastZero(row.quantity + delta) else 0
  {
    var q := AtLeastZero(row.quantity + delta);
    if q > 0 {
      SingleRowAggregates(row.(quantity := q), id);
    }
  }

  /**
    Adds `delta` to the quantity of the row holding `id`, floored at 0; a row
    that reaches 0 is spliced out, otherwise it is updated in place. An
    absent id leaves the cart as it was.
   */
  function ChangeQty(cart: Cart, id: string, delta: int): (r: Cart)
    ensures !HasId(cart, id) ==> r == cart
    ensures |cart| - 1 <= |r| <= |cart|
  {
    var k := IndexOf(cart, id);
    if k == -1 then cart else ChangeAt(cart, k, delta)
  }

  /** The quantity change at position `k`: a row reaching 0 is spliced out, otherwise it is updated in place. */
  function ChangeAt(cart: Cart, k: int, delta: int): (r: Cart)
    requires 0 <= k < |cart|
  {
    var q := AtLeastZero(OrOne(cart[k].quantity) + delta);
    if q == 0 then cart[..k] + cart[k + 1..]
    else cart[k := cart[k].(quantity := q)]
  }

  /** Both branches of the change at `k` replace the row by its `ChangedRows`. */
  lemma ChangeAtSplice(cart: Cart, k: int, delta: int)
    requires 0 <= k < |cart|
    ensures ChangeAt(cart, k, delta) == cart[..k] + ChangedRows(cart[k], delta) + cart[k + 1..]
  {
    var q := AtLeastZero(OrOne(cart[k].quantity) + delta);
    if q == 0 {
      assert cart[..k] + [] + cart[k + 1..] == cart[..k] + cart[k + 1..];
    } else {
      UpdateAsSplice(cart, k, cart[k].(quantity := q));
    }
  }

  /** A quantity change on a present id, seen as replacing its row by `ChangedRows`. */
  lemma ChangeQtyShape(cart: Cart, id: string, delta: int)
    requires HasId(cart, id)
    ensures var k := IndexOf(cart, id);
      ChangeQty(cart, id, delta) == cart[..k] + ChangedRows(cart[k], delta) + cart[k + 1..]
  {
    ChangeAtSplice(cart, IndexOf(cart, id), delta);
  }

  /**
    On a present id the row found first is either updated in place to the
    clamped quantity, every other position untouched, or spliced out when
    that quantity is 0, the rows after it moving up by one.
   */
  lemma ChangeQtyAtRow(cart: Cart, id: string, delta: int)
    requires HasId(cart, id)
    ensures var k := IndexOf(cart, id);
      var q := AtLeastZero(OrOne(cart[k].quantity) + delta);
      var r := ChangeQty(cart, id, delta);
      && (q == 0 ==> |r| == |cart| - 1 && r[..k] == cart[..k] && r[k..] == cart[k + 1..])
      && (q > 0 ==> |r| == |cart| && r[k] == cart[k].(quantity := q)
                    && forall j :: 0 <= j < |cart| && j != k ==> r[j] == cart[j])
  {
    var k := IndexOf(cart, id);
    ChangeQtyShape(cart, id, delta);
    ChangedRowsAt(cart, k, delta);
  }

  /** Replacing the row at `k` by its `ChangedRows`, position by position. */
  lemma ChangedRowsAt(cart: Cart, k: int, delta: int)
    requires 0 <= k < |cart|
    ensures var q := AtLeastZero(OrOne(cart[k].quantity) + delta);
      var r := cart[..k] + ChangedRows(cart[k], delta) + cart[k + 1..];
      && (q == 0 ==> |r| == |cart| - 1 && r[..k] == cart[..k] && r[k..] == cart[k + 1..])
      && (q > 0 ==> |r| == |cart| && r[k] == cart[k].(quantity := q)
                    && forall j :: 0 <= j < |cart| && j != k ==> r[j] == cart[j])
  {
    var q := AtLeastZero(OrOne(cart[k].quantity) + delta);
    if q == 0 {
      assert cart[..k] + ChangedRows(cart[k], delta) + cart[k + 1..] == cart[..k] + cart[k + 1..];
      SpliceParts(cart, k);
    } else {
      UpdateAsSplice(cart, k, cart[k].(quantity := q));
    }
  }

  lemma ChangeQtyPreservesWellFormed(cart: Cart, id: string, delta: int)
    requires WellFormed(cart)
    ensures WellFormed(ChangeQty(cart, id, delta))
  {
    var k := IndexOf(cart, id);
    if k > -1 {
      var q := AtLeastZero(OrOne(cart[k].quantity) + delta);
      if q == 0 {
        RemoveItemSplice(cart, id);
        RemoveItemPreservesWellFormed(cart, id);
      } else {
        UpdateKeepsWellFormed(cart, k, cart[k].(quantity := q));
      }
    }
  }

  /** Changing a quantity leaves every row of another id, and their order, as it was. */
  lemma ChangeQtyFrame(cart: Cart, id: string, delta: int)
    ensures RemoveItem(ChangeQty(cart, id, delta), id) == RemoveItem(cart, id)
  {
    var k := IndexOf(cart, id);
    if k > -1 {
      ChangeQtyShape(cart, id, delta);
      ReplaceRowFrame(cart, k, ChangedRows(cart[k], delta));
    }
  }

  /**
    On a well-formed cart the units under `id` become max(0, units + delta)
    and every other id keeps its units.
   */
  lemma ChangeQtyQuantities(cart: Cart, id: string, delta: int, other: string)
    requires WellFormed(cart)
    ensures QuantityOf(ChangeQty(cart, id, delta), id)
      == if HasId(cart, id) then AtLeastZero(QuantityOf(cart, id) + delta) else 0
    ensures other != id ==> QuantityOf(ChangeQty(cart, id, delta), other) == QuantityOf(cart, other)
  {
    QuantityOfRow(cart, id);
    var k := IndexOf(cart, id);
    if k > -1 {
      var mid := ChangedRows(cart[k], delta);
      ChangeQtyShape(cart, id, delta);
      assert ChangeQty(cart, id, delta) == cart[..k] + mid + cart[k + 1..];
      ReplaceRowAggregates(cart, k, mid, id);
      ReplaceRowAggregates(cart, k, mid, other);
      SingleRowAggregates(cart[k], id);
      SingleRowAggregates(cart[k], other);
      ChangedRowsUnits(cart[k], delta, id);
      ChangedRowsUnits(cart[k], delta, other);
    }
  }

  /**
    A delta that takes away at least the row's full quantity removes the row:
    the result is exactly `RemoveItem`, one row shorter.
   */
  lemma ChangeQtyToZeroRemoves(cart: Cart, id: string, delta: int)
    requires WellFormed(cart) && HasId(cart, id)
    requires delta + QuantityOf(cart, id) <= 0
    ensures ChangeQty(cart, id, delta) == RemoveItem(cart, id)
    ensures |ChangeQty(cart, id, delta)| == |cart| - 1
    ensures !HasId(ChangeQty(cart, id, delta), id)
  {
    QuantityOfRow(cart, id);
    RemoveItemSplice(cart, id);
  }

  /** On a well-formed cart the badge moves by exactly the change in the row's units. */
  lemma ChangeQtyCount(cart: Cart, id: string, delta: int)
    requires WellFormed(cart) && HasId(cart, id)
    ensures Count(ChangeQty(cart, id, delta))
      == Count(cart) - QuantityOf(cart, id) + AtLeastZero(QuantityOf(cart, id) + delta)
  {
    var r := ChangeQty(cart, id, delta);
    ChangeQtyFrame(cart, id, delta);
    ChangeQtyQuantities(cart, id, delta, id);
    RemoveItemCount(cart, id);
    RemoveItemCount(r, id);
  }

  /** Removing an id takes exactly its units off the badge, on any cart. */
  lemma {:induction false} RemoveItemCount(cart: Cart, id: string)
    ensures Count(RemoveItem(cart, id)) == Count(cart) - QuantityOf(cart, id)
  {
    if |cart| > 0 {
      RemoveItemCount(cart[1..], id);
    }
  }

  // ---------------------------------------------------------------- a session of adds

  /** A sequence of add-to-cart clicks, applied in order. */
  function AddAll(cart: Cart, items: seq<NewItem>): (r: Cart)
    decreases |items|
  {
    if |items| == 0 then cart else AddAll(AddToCart(cart, items[0]), items[1..])
  }

  /** Units requested for `id` over a sequence of adds. */
  function Requested(items: seq<NewItem>, id: string): (n: nat)
  {
    if |items| == 0 then 0
    else (if items[0].id == id then Incoming(items[0]) else 0) + Requested(items[1..], id)
  }

  /** Number of adds in the sequence that name `id`. */
  function Adds(items: seq<NewItem>, id: string): (n: nat)
  {
    if |items| == 0 then 0
    else (if items[0].id == id then 1 else 0) + Adds(items[1..], id)
  }

  /** A session of adds keeps the cart well-formed and adds exactly the requested units per id. */
  lemma {:induction false} AddAllQuantities(cart: Cart, items: seq<NewItem>, id: string)
    requires WellFormed(cart)
    ensures WellFormed(AddAll(cart, items))
    ensures QuantityOf(AddAll(cart, items), id) == QuantityOf(cart, id) + Requested(items, id)
    decreases |items|
  {
    if |items| > 0 {
      AddToCartPreservesWellFormed(cart, items[0]);
      AddToCartQuantities(cart, items[0], id);
      AddAllQuantities(AddToCart(cart, items[0]), items[1..], id);
    }
  }

  /** Without explicit quantities every add requests exactly one unit. */
  lemma {:induction false} RequestedDefaultsToAdds(items: seq<NewItem>, id: string)
    requires forall i :: 0 <= i < |items| ==> items[i].quantity.None?
    ensures Requested(items, id) == Adds(items, id)
  {
    if |items| > 0 {
      RequestedDefaultsToAdds(items[1..], id);
    }
  }

  /** An id is requested at least once exactly when some add names it. */
  lemma {:induction false} RequestedPositive(items: seq<NewItem>, id: string)
    ensures Requested(items, id) >= 1 <==> exists i :: 0 <= i < |items| && items[i].id == id
  {
    if |items| > 0 {
      RequestedPositive(items[1..], id);
      if exists i :: 0 <= i < |items[1..]| && items[1..][i].id == id {
        var i :| 0 <= i < |items[1..]| && items[1..][i].id == id;
        assert items[i + 1].id == id;
      }
      if exists i :: 0 <= i < |items| && items[i].id == id {
        var i :| 0 <= i < |items| && items[i].id == id;
        if i > 0 {
          assert items[1..][i - 1].id == id;
        }
      }
    }
  }

  /**
    Starting from an empty cart, a session of plain adds yields one row per
    distinct id added, each holding as many units as there were adds of it.
   */
  lemma AddAllFromEmpty(items: seq<NewItem>, id: string)
    requires forall i :: 0 <= i < |items| ==> items[i].quantity.None?
    ensures WellFormed(AddAll([], items))
    ensures HasId(AddAll([], items), id) <==> exists i :: 0 <= i < |items| && items[i].id == id
    ensures QuantityOf(AddAll([], items), id) == Adds(items, id)
  {
    AddAllQuantities([], items, id);
    RequestedDefaultsToAdds(items, id);
    RequestedPositive(items, id);
    QuantityOfRow(AddAll([], items), id);
  }

  // ---------------------------------------------------------------- a worked session

  /** A tomato at 2.50 added twice, then decreased by two: the cart is empty again. */
  lemma TomatoSession()
    ensures var p1 := NewItem("p1", "Tomate", Cents(250), "t.png", None);
      var once := AddToCart([], p1);
      var twice := AddToCart(once, p1);
      && once == [LineItem("p1", "Tomate", Cents(250), "t.png", 1)]
      && Count(once) == 1 && Total(once) == 250
      && twice == [LineItem("p1", "Tomate", Cents(250), "t.png", 2)]
      && Count(twice) == 2 && Total(twice) == 500
      && ChangeQty(twice, "p1", -2) == []
  {
    var p1 := NewItem("p1", "Tomate", Cents(250), "t.png", None);
    var row1 := LineItem("p1", "Tomate", Cents(250), "t.png", 1);
    var row2 := LineItem("p1", "Tomate", Cents(250), "t.png", 2);
    assert !HasId([], "p1");
    var once := AddToCart([], p1);
    assert |once| == 1 && once[0] == NewRow(p1) == row1;
    assert once == [row1];
    SingleRowAggregates(row1, "p1");
    assert HasId(once, "p1") by { assert once[0].id == "p1"; }
    assert IndexOf(once, "p1") == 0;
    var twice := AddToCart(once, p1);
    assert |twice| == 1 && twice[0] == MergedRow(row1, p1) == row2;
    assert twice == [row2];
    SingleRowAggregates(row2, "p1");
    assert HasId(twice, "p1") by { assert twice[0].id == "p1"; }
    assert IndexOf(twice, "p1") == 0;
    assert |ChangeQty(twice, "p1", -2)| == 0;
  }
}
