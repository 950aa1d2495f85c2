/** The cart ledger: an ordered list of (product, quantity) lines, the four
    operations that change it, and the totals derived from it on every read.

    Each operation is a pure transition from the previous list of lines to the
    next one, as the state updater passed to `setItems` is. */
module CartLedger {
  import opened Wrappers
  import opened Seqs
  import opened Rounding
  import opened Products

  datatype CartItem = CartItem(product: Product, quantity: int)

  /** The quantity `addToCart` uses when its caller gives none. */
  const DefaultQuantity: int := 1

  /** Shipping is free only for a subtotal strictly above this amount. */
  const FreeShippingAbove: int := 5000

  /** The flat shipping fee charged otherwise. */
  const FlatShipping: int := 199

  /** The GST rate, in percent. */
  const GstPercent: int := 18

  /** True when some line of the cart is for product `id`. */
  ghost predicate HasLine(items: seq<CartItem>, id: ProductId) {
    exists j :: 0 <= j < |items| && items[j].product.id == id
  }

  /** The product ids the cart has lines for. */
  ghost function Ids(items: seq<CartItem>): set<ProductId> {
    set j | 0 <= j < |items| :: items[j].product.id
  }

  /** No two lines are for the same product. */
  ghost predicate UniqueLines(items: seq<CartItem>) {
    forall i, j :: 0 <= i < j < |items| ==> items[i].product.id != items[j].product.id
  }

  /** The cart's invariant: one line per product and no line below one unit. */
  ghost predicate WellFormed(items: seq<CartItem>) {
    && UniqueLines(items)
    && forall j :: 0 <= j < |items| ==> items[j].quantity >= 1
  }

  /** `items.find(item => item.product.id === id)`, as a position: the first
      line for `id`, or `None` when there is none. */
  function LineIndex(items: seq<CartItem>, id: ProductId): (r: Option<nat>)
    ensures r.Some? ==> r.value < |items| && items[r.value].product.id == id
    ensures r.Some? ==> forall j :: 0 <= j < r.value ==> items[j].product.id != id
    ensures r.None? <==> !HasLine(items, id)
  {
    if items == [] then None
    else if items[0].product.id == id then Some(0)
    else match LineIndex(items[1..], id)
      case None =>
        assert forall j :: 1 <= j < |items| ==> items[j] == items[1..][j - 1];
        None
      case Some(k) => Some(k + 1)
  }

  /** The line for `id` with its quantity replaced, every other line as it was
      (the `map` shared by `addToCart` and `updateQuantity`). */
  function Requantify(items: seq<CartItem>, id: ProductId, newQuantity: int -> int): (r: seq<CartItem>)
    ensures |r| == |items|
    ensures forall j :: 0 <= j < |items| ==> r[j].product == items[j].product
    ensures Ids(r) == Ids(items)
  {
    var r := seq(|items|, j requires 0 <= j < |items| =>
      if items[j].product.id == id then items[j].(quantity := newQuantity(items[j].quantity)) else items[j]);
    assert forall j :: 0 <= j < |items| ==> r[j].product.id == items[j].product.id;
    r
  }

  /** `addToCart(product, quantity)`: merge into the product's line when there
      is one, otherwise append a new line. */
  function AddToCart(items: seq<CartItem>, product: Product, quantity: int): (r: seq<CartItem>)
    ensures |r| == if HasLine(items, product.id) then |items| else |items| + 1
    ensures Ids(r) == Ids(items) + {product.id}
    ensures forall j :: 0 <= j < |items| ==> r[j].product == items[j].product
    ensures !HasLine(items, product.id) ==> r[|items|] == CartItem(product, quantity)
  {
    if LineIndex(items, product.id).Some? then
      var k := LineIndex(items, product.id).value;
      assert items[k].product.id in Ids(items);
      Requantify(items, product.id, q => q + quantity)
    else
      var r := items + [CartItem(product, quantity)];
      assert r[|items|].product.id in Ids(r);
      assert forall j :: 0 <= j < |items| ==> r[j] == items[j];
      r
  }

  /** `removeFromCart(id)`: drop every line for `id`, keeping the others in
      order. */
  function RemoveFromCart(items: seq<CartItem>, id: ProductId): (r: seq<CartItem>)
    ensures Ids(r) == Ids(items) - {id}
    ensures IsSubsequence(r, items)
  {
    FilterIsSubsequence(items, OtherThan(id));
    FilterIds(items, id);
    Filter(items, OtherThan(id))
  }

  /** The filter callback of `removeFromCart`: keep lines for other products. */
  function OtherThan(id: ProductId): CartItem -> bool {
    (item: CartItem) => item.product.id != id
  }

  lemma FilterIds(items: seq<CartItem>, id: ProductId)
    ensures Ids(Filter(items, OtherThan(id))) == Ids(items) - {id}
  {
    var keep := OtherThan(id);
    var r := Filter(items, keep);
    FilterMembers(items, keep);
    forall x | x in Ids(items) - {id}
      ensures x in Ids(r)
    {
      var j :| 0 <= j < |items| && items[j].product.id == x;
      assert items[j] in r;
      var m :| 0 <= m < |r| && r[m] == items[j];
    }
    forall x | x in Ids(r)
      ensures x in Ids(items) - {id}
    {
      var m :| 0 <= m < |r| && r[m].product.id == x;
      assert keep(r[m]);
      assert r[m] in items;
      var j :| 0 <= j < |items| && items[j] == r[m];
    }
  }

  /** `updateQuantity(id, quantity)`: a quantity of zero or less removes the
      line, any other quantity replaces the line's quantity. */
  function UpdateQuantity(items: seq<CartItem>, id: ProductId, quantity: int): (r: seq<CartItem>)
    ensures Ids(r) == if quantity <= 0 then Ids(items) - {id} else Ids(items)
    ensures |r| <= |items|
  {
    if quantity <= 0 then RemoveFromCart(items, id)
    else Requantify(items, id, _ => quantity)
  }

  /** `clearCart()`. */
  function ClearCart(): (r: seq<CartItem>)
    ensures Ids(r) == {}
  {
    []
  }

  // ---------------------------------------------------------------------
  // What each operation does to a cart that keeps its invariant.
  // ---------------------------------------------------------------------

  /** Adding to a product that has a line changes exactly that line, by exactly
      the quantity added. */
  lemma AddMerges(items: seq<CartItem>, product: Product, quantity: int, k: nat)
    requires UniqueLines(items)
    requires k < |items| && items[k].product.id == product.id
    ensures AddToCart(items, product, quantity)
         == items[k := items[k].(quantity := items[k].quantity + quantity)]
  {
    assert LineIndex(items, product.id).Some?;
  }

  /** Adding a product with no line appends one line, leaving the others. */
  lemma AddAppends(items: seq<CartItem>, product: Product, quantity: int)
    requires !HasLine(items, product.id)
    ensures AddToCart(items, product, quantity) == items + [CartItem(product, quantity)]
  {
  }

  /** Adding keeps one line per product, whatever the quantity: it merges into
      the product's line when there is one. */
  lemma AddKeepsUnique(items: seq<CartItem>, product: Product, quantity: int)
    requires UniqueLines(items)
    ensures UniqueLines(AddToCart(items, product, quantity))
  {
    var r := AddToCart(items, product, quantity);
    if !HasLine(items, product.id) {
      assert r == items + [CartItem(product, quantity)];
    }
  }

  /** With a positive quantity (the callers always pass at least one) adding
      also keeps every line at one unit or more, so it keeps the invariant. */
  lemma AddKeepsWellFormed(items: seq<CartItem>, product: Product, quantity: int)
    requires WellFormed(items) && quantity >= 1
    ensures WellFormed(AddToCart(items, product, quantity))
  {
    AddKeepsUnique(items, product, quantity);
    var r := AddToCart(items, product, quantity);
    if !HasLine(items, product.id) {
      assert r == items + [CartItem(product, quantity)];
    }
  }

  /** Removing a product that has a line cuts out exactly that line. */
  lemma RemoveCutsLine(items: seq<CartItem>, id: ProductId, k: nat)
    requires UniqueLines(items)
    requires k < |items| && items[k].product.id == id
    ensures RemoveFromCart(items, id) == items[..k] + items[k + 1..]
  {
    var keep := OtherThan(id);
    var before, after := items[..k], items[k + 1..];
    assert items == before + [items[k]] + after;
    assert !HasLine(before, id) by {
      assert forall j :: 0 <= j < |before| ==> before[j] == items[j];
    }
    assert !HasLine(after, id) by {
      assert forall j :: 0 <= j < |after| ==> after[j] == items[k + 1 + j];
    }
    RemoveAbsent(before, id);
    RemoveAbsent(after, id);
    assert Filter([items[k]], keep) == [];
    calc {
      Filter(items, keep);
      { FilterConcat(before + [items[k]], after, keep); }
      Filter(before + [items[k]], keep) + Filter(after, keep);
      { FilterConcat(before, [items[k]], keep); }
      Filter(before, keep) + Filter(after, keep);
    }
  }

  /** Removing a product that has no line changes nothing. */
  lemma RemoveAbsent(items: seq<CartItem>, id: ProductId)
    requires !HasLine(items, id)
    ensures RemoveFromCart(items, id) == items
  {
    FilterKeepsAll(items, OtherThan(id));
  }

  /** Removing keeps the invariant. */
  lemma {:induction false} RemoveKeepsWellFormed(items: seq<CartItem>, id: ProductId)
    requires WellFormed(items)
    ensures WellFormed(RemoveFromCart(items, id))
  {
    if HasLine(items, id) {
      var k :| 0 <= k < |items| && items[k].product.id == id;
      RemoveCutsLine(items, id, k);
      CutKeepsWellFormed(items, k);
    } else {
      RemoveAbsent(items, id);
    }
  }

  /** Cutting one line out of a well-formed cart leaves it well-formed. */
  lemma CutKeepsWellFormed(items: seq<CartItem>, k: nat)
    requires WellFormed(items) && k < |items|
    ensures WellFormed(items[..k] + items[k + 1..])
  {
    var r := items[..k] + items[k + 1..];
    forall i, j | 0 <= i < j < |r|
      ensures r[i].product.id != r[j].product.id
    {
      var i', j' := if i < k then i else i + 1, if j < k then j else j + 1;
      assert r[i] == items[i'] && r[j] == items[j'];
    }
    forall j | 0 <= j < |r|
      ensures r[j].quantity >= 1
    {
      assert r[j] == items[if j < k then j else j + 1];
    }
  }

  /** A positive quantity replaces (does not add to) the line's quantity and
      changes nothing else. */
  lemma UpdateSets(items: seq<CartItem>, id: ProductId, quantity: int, k: nat)
    requires UniqueLines(items) && quantity > 0
    requires k < |items| && items[k].product.id == id
    ensures UpdateQuantity(items, id, quantity) == items[k := items[k].(quantity := quantity)]
  {
  }

  /** Updating a product that has no line never creates one: nothing changes,
      whatever the quantity. */
  lemma UpdateAbsent(items: seq<CartItem>, id: ProductId, quantity: int)
    requires !HasLine(items, id)
    ensures UpdateQuantity(items, id, quantity) == items
  {
    if quantity <= 0 {
      RemoveAbsent(items, id);
    }
  }

  /** Updating keeps the invariant for every quantity: a quantity below one
      removes the line instead of storing it. */
  lemma UpdateKeepsWellFormed(items: seq<CartItem>, id: ProductId, quantity: int)
    requires WellFormed(items)
    ensures WellFormed(UpdateQuantity(items, id, quantity))
  {
    if quantity <= 0 {
      RemoveKeepsWellFormed(items, id);
    }
  }

  /** Clearing gives the empty cart, which keeps the invariant and holds no
      units and costs nothing. */
  lemma ClearEmpties()
    ensures ClearCart() == [] && WellFormed(ClearCart())
    ensures TotalItems(ClearCart()) == 0 && Subtotal(ClearCart()) == 0
  {
  }

  /** Two adds of the same product merge into one line with the summed
      quantity. */
  lemma AddTwiceMerges(product: Product)
    ensures AddToCart(AddToCart([], product, 2), product, 3) == [CartItem(product, 5)]
  {
    var once := AddToCart([], product, 2);
    assert once == [CartItem(product, 2)];
    AddMerges(once, product, 3, 0);
  }

  /** Setting the only line's quantity to zero empties the cart. */
  lemma UpdateToZeroEmpties(product: Product, quantity: int)
    ensures UpdateQuantity([CartItem(product, quantity)], product.id, 0) == []
  {
    RemoveCutsLine([CartItem(product, quantity)], product.id, 0);
  }

  // ---------------------------------------------------------------------
  // Derived totals.
  // ---------------------------------------------------------------------

  /** The sum of `amount` over the lines. */
  function Sum(items: seq<CartItem>, amount: CartItem -> int): int {
    if items == [] then 0 else amount(items[0]) + Sum(items[1..], amount)
  }

  function Units(item: CartItem): int {
    item.quantity
  }

  /** What one line costs: its product's price times its quantity. */
  function LineAmount(item: CartItem): int {
    item.product.price * item.quantity
  }

  /** `totalItems`: the number of units in the cart. */
  function TotalItems(items: seq<CartItem>): int {
    Sum(items, Units)
  }

  /** `subtotal`: what the lines cost before tax and shipping. */
  function Subtotal(items: seq<CartItem>): int {
    Sum(items, LineAmount)
  }

  /** `gst`: `Math.round(subtotal * 0.18)`, i.e. 18% of the subtotal rounded to
      the nearest unit with halves going up. */
  function Gst(subtotal: int): (r: int)
    ensures GstPercent * subtotal - 50 < 100 * r <= GstPercent * subtotal + 50
  {
    RoundHalfUp(GstPercent * subtotal, 100)
  }

  /** `shipping`: free strictly above the threshold, a flat fee otherwise. */
  function Shipping(subtotal: int): (r: int)
    ensures r == 0 || r == FlatShipping
    ensures r == 0 <==> subtotal > FreeShippingAbove
  {
    if subtotal > FreeShippingAbove then 0 else FlatShipping
  }

  datatype Totals = Totals(totalItems: int, subtotal: int, gst: int, shipping: int, total: int)

  /** The five derived values: two `reduce` passes over the lines, then the tax,
      the shipping fee and their sum. */
  method ComputeTotals(items: seq<CartItem>) returns (t: Totals)
    ensures t == TotalsOf(items)
  {
    var units := 0;
    var i := 0;
    while i < |items|
      invariant 0 <= i <= |items|
      invariant units + Sum(items[i..], Units) == Sum(items, Units)
    {
      assert items[i..][1..] == items[i + 1..];
      units := units + items[i].quantity;
      i := i + 1;
    }
    var subtotal := 0;
    i := 0;
    while i < |items|
      invariant 0 <= i <= |items|
      invariant subtotal + Sum(items[i..], LineAmount) == Sum(items, LineAmount)
    {
      assert items[i..][1..] == items[i + 1..];
      subtotal := subtotal + items[i].product.price * items[i].quantity;
      i := i + 1;
    }
    var gst := Gst(subtotal);
    var shipping := Shipping(subtotal);
    t := Totals(units, subtotal, gst, shipping, subtotal + gst + shipping);
  }

  /** The totals as the page reads them: the unit count and the cost of the
      lines, 18% tax on the cost to the nearest unit, the fee unless the cost
      is above the threshold, and the sum of the last three. */
  function TotalsOf(items: seq<CartItem>): (t: Totals)
    ensures t.totalItems == Sum(items, Units) && t.subtotal == Sum(items, LineAmount)
    ensures GstPercent * t.subtotal - 50 < 100 * t.gst <= GstPercent * t.subtotal + 50
    ensures t.shipping == 0 <==> t.subtotal > FreeShippingAbove
    ensures t.shipping != 0 ==> t.shipping == FlatShipping
    ensures t.total == t.subtotal + t.gst + t.shipping
  {
    var subtotal := Subtotal(items);
    Totals(TotalItems(items), subtotal, Gst(subtotal), Shipping(subtotal),
      subtotal + Gst(subtotal) + Shipping(subtotal))
  }

  lemma {:induction false} SumConcat(a: seq<CartItem>, b: seq<CartItem>, amount: CartItem -> int)
    ensures Sum(a + b, amount) == Sum(a, amount) + Sum(b, amount)
  {
    if a == [] {
      assert a + b == b;
    } else {
      assert (a + b)[1..] == a[1..] + b;
      SumConcat(a[1..], b, amount);
    }
  }

  /** Replacing one line changes a sum by the difference of the two lines. */
  lemma SumReplace(items: seq<CartItem>, k: nat, item: CartItem, amount: CartItem -> int)
    requires k < |items|
    ensures Sum(items[k := item], amount) == Sum(items, amount) - amount(items[k]) + amount(item)
  {
    assert items == items[..k] + [items[k]] + items[k + 1..];
    assert items[k := item] == items[..k] + [item] + items[k + 1..];
    SumConcat(items[..k] + [items[k]], items[k + 1..], amount);
    SumConcat(items[..k], [items[k]], amount);
    SumConcat(items[..k] + [item], items[k + 1..], amount);
    SumConcat(items[..k], [item], amount);
  }

  /** The unit price an add is charged at: that of the line the add merges
      into, or the added product's own when it gets a new line. */
  function ChargedPrice(items: seq<CartItem>, product: Product): int {
    match LineIndex(items, product.id)
    case Some(k) => items[k].product.price
    case None => product.price
  }

  /** Adding `quantity` units adds exactly that many units and that many times
      the unit price to the subtotal. */
  lemma AddTotals(items: seq<CartItem>, product: Product, quantity: int)
    requires UniqueLines(items)
    ensures TotalItems(AddToCart(items, product, quantity)) == TotalItems(items) + quantity
    ensures Subtotal(AddToCart(items, product, quantity))
         == Subtotal(items) + ChargedPrice(items, product) * quantity
  {
    match LineIndex(items, product.id)
    case Some(k) =>
      var item := items[k].(quantity := items[k].quantity + quantity);
      AddMerges(items, product, quantity, k);
      SumReplace(items, k, item, Units);
      SumReplace(items, k, item, LineAmount);
      assert LineAmount(item) == LineAmount(items[k]) + items[k].product.price * quantity;
    case None =>
      SumConcat(items, [CartItem(product, quantity)], Units);
      SumConcat(items, [CartItem(product, quantity)], LineAmount);
  }

  /** Removing a product's line takes exactly its units and its amount off. */
  lemma RemoveTotals(items: seq<CartItem>, k: nat)
    requires UniqueLines(items) && k < |items|
    ensures TotalItems(RemoveFromCart(items, items[k].product.id)) == TotalItems(items) - items[k].quantity
    ensures Subtotal(RemoveFromCart(items, items[k].product.id)) == Subtotal(items) - LineAmount(items[k])
  {
    RemoveCutsLine(items, items[k].product.id, k);
    assert items == items[..k] + [items[k]] + items[k + 1..];
    SumConcat(items[..k] + [items[k]], items[k + 1..], Units);
    SumConcat(items[..k], [items[k]], Units);
    SumConcat(items[..k], items[k + 1..], Units);
    SumConcat(items[..k] + [items[k]], items[k + 1..], LineAmount);
    SumConcat(items[..k], [items[k]], LineAmount);
    SumConcat(items[..k], items[k + 1..], LineAmount);
  }

  /** One line of 4000 at quantity one: subtotal 4000, GST 720, shipping 199,
      total 4919. */
  lemma PricingExample(product: Product)
    requires product.price == 4000
    ensures TotalsOf([CartItem(product, 1)]) == Totals(1, 4000, 720, 199, 4919)
  {
    assert Sum([CartItem(product, 1)][1..], Units) == 0;
    assert Sum([CartItem(product, 1)][1..], LineAmount) == 0;
  }

  /** The threshold is strict: 5000 still pays the fee, 5001 does not. */
  lemma ShippingBoundary()
    ensures Shipping(5000) == 199 && Shipping(5001) == 0
  {
  }

  /** The empty cart still reads a shipping fee, as the threshold is applied
      without looking at the number of lines. */
  lemma EmptyCartTotals()
    ensures TotalsOf(ClearCart()) == Totals(0, 0, 0, 199, 199)
  {
  }
}
