/**
  The two aggregates the page shows: the navbar badge (total number of
  units) and the cart total (sum of unit price times quantity). Each is
  given as a reference definition over the sequence and as the left-to-right
  `reduce` loop the page runs, proved to agree.
 */
module CartTotals {
  import opened LineItems

  /** Badge value: the sum of all stored quantities. */
  function Count(cart: Cart): (n: nat)
  {
    if |cart| == 0 then 0 else cart[0].quantity + Count(cart[1..])
  }

  /** One row's share of the total; a NaN price contributes nothing. */
  function LineValue(row: LineItem): (v: int)
  {
    UnitValue(row.price) * row.quantity
  }

  /** Cart total in cents. */
  function Total(cart: Cart): (t: int)
  {
    if |cart| == 0 then 0 else LineValue(cart[0]) + Total(cart[1..])
  }

  /** Units held under one id: the sum over the rows carrying it. */
  function QuantityOf(cart: Cart, id: string): (n: nat)
  {
    if |cart| == 0 then 0
    else (if cart[0].id == id then cart[0].quantity else 0) + QuantityOf(cart[1..], id)
  }

  lemma {:induction false} CountConcat(a: Cart, b: Cart)
    ensures Count(a + b) == Count(a) + Count(b)
  {
    if |a| == 0 {
      assert a + b == b;
    } else {
      assert (a + b)[1..] == a[1..] + b;
      CountConcat(a[1..], b);
    }
  }

  lemma {:induction false} TotalConcat(a: Cart, b: Cart)
    ensures Total(a + b) == Total(a) + Total(b)
  {
    if |a| == 0 {
      assert a + b == b;
    } else {
      assert (a + b)[1..] == a[1..] + b;
      TotalConcat(a[1..], b);
    }
  }

  lemma {:induction false} QuantityOfConcat(a: Cart, b: Cart, id: string)
    ensures QuantityOf(a + b, id) == QuantityOf(a, id) + QuantityOf(b, id)
  {
    if |a| == 0 {
      assert a + b == b;
    } else {
      assert (a + b)[1..] == a[1..] + b;
      QuantityOfConcat(a[1..], b, id);
    }
  }

  /**
    Replacing the row at `k` by the rows `mid` moves each aggregate by the
    difference between what `mid` holds and what the old row held.
   */
  lemma ReplaceRowAggregates(cart: Cart, k: int, mid: Cart, id: string)
    requires 0 <= k < |cart|
    ensures Count(cart[..k] + mid + cart[k + 1..]) == Count(cart) - cart[k].quantity + Count(mid)
    ensures Total(cart[..k] + mid + cart[k + 1..]) == Total(cart) - LineValue(cart[k]) + Total(mid)
    ensures QuantityOf(cart[..k] + mid + cart[k + 1..], id)
      == QuantityOf(cart, id) - QuantityOf([cart[k]], id) + QuantityOf(mid, id)
  {
    var row := [cart[k]];
    assert cart == cart[..k] + row + cart[k + 1..];
    assert row[1..] == [];
    CountConcat(cart[..k] + mid, cart[k + 1..]);
    CountConcat(cart[..k], mid);
    CountConcat(cart[..k] + row, cart[k + 1..]);
    CountConcat(cart[..k], row);
    TotalConcat(cart[..k] + mid, cart[k + 1..]);
    TotalConcat(cart[..k], mid);
    TotalConcat(cart[..k] + row, cart[k + 1..]);
    TotalConcat(cart[..k], row);
    QuantityOfConcat(cart[..k] + mid, cart[k + 1..], id);
    QuantityOfConcat(cart[..k], mid, id);
    QuantityOfConcat(cart[..k] + row, cart[k + 1..], id);
    QuantityOfConcat(cart[..k], row, id);
  }

  /** A single row's aggregates are its own quantity and value. */
  lemma SingleRowAggregates(row: LineItem, id: string)
    ensures Count([row]) == row.quantity
    ensures Total([row]) == LineValue(row)
    ensures QuantityOf([row], id) == if row.id == id then row.quantity else 0
  {
    assert [row][1..] == [];
  }

  /** Both aggregates vanish on the empty cart and grow by exactly the appended row. */
  lemma AggregatesOfAppend(cart: Cart, row: LineItem)
    ensures Count([]) == 0 && Total([]) == 0
    ensures Count(cart + [row]) == Count(cart) + row.quantity
    ensures Total(cart + [row]) == Total(cart) + LineValue(row)
  {
    CountConcat(cart, [row]);
    TotalConcat(cart, [row]);
  }

  /** With every quantity at least one, the badge is at least the number of rows, and zero only for the empty cart. */
  lemma {:induction false} CountBoundsRows(cart: Cart)
    requires PositiveQuantities(cart)
    ensures Count(cart) >= |cart|
    ensures Count(cart) == 0 <==> |cart| == 0
  {
    if |cart| > 0 {
      assert PositiveQuantities(cart[1..]) by {
        forall i | 0 <= i < |cart[1..]|
          ensures cart[1..][i].quantity >= 1
        {
          assert cart[1..][i] == cart[i + 1];
        }
      }
      CountBoundsRows(cart[1..]);
    }
  }

  /**
    In a well-formed cart the units held under `id` are exactly the
    quantity of its single row, or 0 when no row carries it.
   */
  lemma {:induction false} QuantityOfRow(cart: Cart, id: string)
    requires WellFormed(cart)
    ensures !HasId(cart, id) ==> QuantityOf(cart, id) == 0
    ensures HasId(cart, id) ==> QuantityOf(cart, id) == cart[IndexOf(cart, id)].quantity
    ensures QuantityOf(cart, id) >= 1 <==> HasId(cart, id)
  {
    if |cart| > 0 {
      TailWellFormed(cart);
      QuantityOfRow(cart[1..], id);
      if cart[0].id == id {
        assert !HasId(cart[1..], id);
      } else if HasId(cart, id) {
        var k := IndexOf(cart, id);
        assert k >= 1;
        IndexOfUnique(cart[1..], id, k - 1);
      } else {
        HasIdCons(cart, id);
      }
    }
  }

  /** The badge computation: a left-to-right fold adding each row's quantity. */
  method BadgeCount(cart: Cart) returns (n: nat)
    ensures n == Count(cart)
  {
    n := 0;
    var i := 0;
    while i < |cart|
      invariant 0 <= i <= |cart|
      invariant n == Count(cart[..i])
    {
      AggregatesOfAppend(cart[..i], cart[i]);
      assert cart[..i + 1] == cart[..i] + [cart[i]];
      n := n + cart[i].quantity;
      i := i + 1;
    }
    assert cart[..i] == cart;
  }

  /** The total computation: a left-to-right fold adding price times quantity, a NaN price counting as 0. */
  method CartTotal(cart: Cart) returns (t: int)
    ensures t == Total(cart)
  {
    t := 0;
    var i := 0;
    while i < |cart|
      invariant 0 <= i <= |cart|
      invariant t == Total(cart[..i])
    {
      AggregatesOfAppend(cart[..i], cart[i]);
      assert cart[..i + 1] == cart[..i] + [cart[i]];
      t := t + UnitValue(cart[i].price) * cart[i].quantity;
      i := i + 1;
    }
    assert cart[..i] == cart;
  }
}
