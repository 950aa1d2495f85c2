/** The cart page: how it drives the ledger (the minus and plus buttons of a
    line) and the decisions it makes from the ledger's values. */
module CartPage {
  import opened Wrappers
  import opened Products
  import opened CartLedger

  /** The "Your Cart is Empty" view replaces the page when there are no lines. */
  predicate ShowsEmptyView(items: seq<CartItem>) {
    |items| == 0
  }

  /** The count in the page heading: it counts lines, not units. */
  function HeadingCount(items: seq<CartItem>): nat {
    |items|
  }

  /** The minus button of line `k`: `updateQuantity(id, quantity - 1)`. It
      drops the product from the cart exactly when the line held one unit or
      fewer, and never lengthens the cart. */
  function Decrement(items: seq<CartItem>, k: nat): (r: seq<CartItem>)
    requires k < |items|
    ensures Ids(r) == if items[k].quantity <= 1 then Ids(items) - {items[k].product.id} else Ids(items)
    ensures |r| <= |items|
  {
    UpdateQuantity(items, items[k].product.id, items[k].quantity - 1)
  }

  /** The plus button of line `k`: `updateQuantity(id, quantity + 1)`. On a
      line holding no negative count it keeps every product in the cart. */
  function Increment(items: seq<CartItem>, k: nat): (r: seq<CartItem>)
    requires k < |items|
    ensures items[k].quantity >= 0 ==> Ids(r) == Ids(items)
    ensures |r| <= |items|
  {
    UpdateQuantity(items, items[k].product.id, items[k].quantity + 1)
  }

  /** Minus on a line holding one unit removes that line and nothing else. */
  lemma DecrementRemovesLastUnit(items: seq<CartItem>, k: nat)
    requires WellFormed(items) && k < |items| && items[k].quantity == 1
    ensures Decrement(items, k) == items[..k] + items[k + 1..]
    ensures Decrement(items, k) == RemoveFromCart(items, items[k].product.id)
  {
    RemoveCutsLine(items, items[k].product.id, k);
  }

  /** Minus on a line holding more than one unit takes exactly one off it. */
  lemma DecrementTakesOne(items: seq<CartItem>, k: nat)
    requires UniqueLines(items) && k < |items| && items[k].quantity > 1
    ensures Decrement(items, k) == items[k := items[k].(quantity := items[k].quantity - 1)]
  {
    UpdateSets(items, items[k].product.id, items[k].quantity - 1, k);
  }

  /** Plus adds exactly one unit to that line only. */
  lemma IncrementAddsOne(items: seq<CartItem>, k: nat)
    requires WellFormed(items) && k < |items|
    ensures Increment(items, k) == items[k := items[k].(quantity := items[k].quantity + 1)]
    ensures TotalItems(Increment(items, k)) == TotalItems(items) + 1
  {
    var line := items[k].(quantity := items[k].quantity + 1);
    UpdateSets(items, items[k].product.id, items[k].quantity + 1, k);
    SumReplace(items, k, line, Units);
  }

  /** Minus undoes plus. */
  lemma DecrementUndoesIncrement(items: seq<CartItem>, k: nat)
    requires WellFormed(items) && k < |items|
    ensures Decrement(Increment(items, k), k) == items
  {
    IncrementAddsOne(items, k);
    var more := Increment(items, k);
    assert UniqueLines(more) by {
      assert forall j :: 0 <= j < |items| ==> more[j].product.id == items[j].product.id;
    }
    DecrementTakesOne(more, k);
  }

  /** Neither button breaks the cart's invariant. */
  lemma SteppersKeepWellFormed(items: seq<CartItem>, k: nat)
    requires WellFormed(items) && k < |items|
    ensures WellFormed(Decrement(items, k)) && WellFormed(Increment(items, k))
  {
    UpdateKeepsWellFormed(items, items[k].product.id, items[k].quantity - 1);
    UpdateKeepsWellFormed(items, items[k].product.id, items[k].quantity + 1);
  }

  /** With every line at one unit or more, the heading's line count never
      exceeds the unit count, and equals it exactly when every line holds a
      single unit. */
  lemma {:induction false} LinesAtMostUnits(items: seq<CartItem>)
    requires forall j :: 0 <= j < |items| ==> items[j].quantity >= 1
    ensures HeadingCount(items) <= TotalItems(items)
    ensures HeadingCount(items) == TotalItems(items)
        <==> forall j :: 0 <= j < |items| ==> items[j].quantity == 1
  {
    if items != [] {
      var rest := items[1..];
      assert forall j :: 0 <= j < |rest| ==> rest[j] == items[j + 1];
      LinesAtMostUnits(rest);
      if forall j :: 0 <= j < |items| ==> items[j].quantity == 1 {
        assert items[0].quantity == 1;
      }
    }
  }

  /** In a cart whose lines all hold a unit or more, the empty view shows
      exactly when there are no units at all (the header's badge condition,
      negated). */
  lemma EmptyViewIffNoUnits(items: seq<CartItem>)
    requires forall j :: 0 <= j < |items| ==> items[j].quantity >= 1
    ensures ShowsEmptyView(items) <==> TotalItems(items) == 0
  {
    LinesAtMostUnits(items);
  }

  /** What a line shows: its amount, and the unit price only when the line
      holds more than one unit. */
  datatype LineView = LineView(amount: int, each: Option<int>)

  /** The shown unit price times the quantity is the shown amount. In a line
      that keeps the cart's invariant, hiding the unit price loses nothing: the
      line then holds one unit and its amount is the unit price. */
  function ShowLine(item: CartItem): (r: LineView)
    ensures r.each.Some? <==> item.quantity > 1
    ensures r.each.Some? ==> r.amount == r.each.value * item.quantity
    ensures r.each.None? && item.quantity >= 1 ==> r.amount == item.product.price
  {
    LineView(LineAmount(item),
      if item.quantity > 1 then Some(item.product.price) else None)
  }

  /** The summary's shipping row: "Free" or the fee, and the free-shipping
      hint. */
  datatype ShippingView = ShippingView(free: bool, hint: bool)

  /** For any fee that is not negative, exactly one of "Free" and the hint
      shows. */
  function ShowShipping(shipping: int): (r: ShippingView)
    ensures shipping >= 0 ==> (r.free <==> !r.hint)
    ensures r.free <==> shipping == 0
  {
    ShippingView(shipping == 0, shipping > 0)
  }

  /** Exactly one of "Free" and the hint shows, and "Free" shows exactly when
      the subtotal is strictly above the threshold. */
  lemma ShippingViewMatchesThreshold(items: seq<CartItem>)
    ensures ShowShipping(TotalsOf(items).shipping).free <==> Subtotal(items) > FreeShippingAbove
    ensures ShowShipping(TotalsOf(items).shipping).hint <==> !ShowShipping(TotalsOf(items).shipping).free
  {
  }
}
