/** The product card: its discount badge and its one-unit add button. The
    detail page computes the same discount with the same expression. */
module ProductCard {
  import opened Wrappers
  import opened Rounding
  import opened Products
  import opened CartLedger

  /** The discount in percent, `Math.round((originalPrice - price) /
      originalPrice * 100)` when `originalPrice` is truthy, 0 otherwise. An
      absent and a zero `originalPrice` are both falsy, so neither divides. */
  function Discount(p: Product): (r: int)
    ensures p.originalPrice.None? || p.originalPrice == Some(0) ==> r == 0
    ensures p.originalPrice.Some? && p.originalPrice.value > 0 ==>
      var o := p.originalPrice.value;
      2 * o * r <= 200 * (o - p.price) + o < 2 * o * r + 2 * o
    ensures p.originalPrice.Some? && p.originalPrice.value < 0 ==>
      var o := p.originalPrice.value;
      2 * o * r >= 200 * (o - p.price) + o > 2 * o * r + 2 * o
  {
    match p.originalPrice
    case None => 0
    case Some(o) => if o == 0 then 0 else RoundHalfUp(100 * (o - p.price), o)
  }

  /** The badge shows only a positive discount: never without a (truthy)
      original price, and for a positive one exactly when the price is at
      least half a percent below it. */
  function ShowsBadge(p: Product): (r: bool)
    ensures p.originalPrice.None? || p.originalPrice == Some(0) ==> !r
    ensures p.originalPrice.Some? && p.originalPrice.value > 0 ==>
      (r <==> 200 * (p.originalPrice.value - p.price) >= p.originalPrice.value)
  {
    DiscountSign(p);
    Discount(p) > 0
  }

  /** With a positive original price no lower than the price, the discount is a
      percentage between 0 and 100, and 0 when the two prices are equal. */
  lemma DiscountIsPercentage(p: Product)
    requires p.originalPrice.Some? && p.originalPrice.value > 0
    requires 0 <= p.price <= p.originalPrice.value
    ensures 0 <= Discount(p) <= 100
    ensures p.price == p.originalPrice.value ==> Discount(p) == 0
  {
    var o, r := p.originalPrice.value, Discount(p);
    if r > 100 {
      ScaleMonotone(2 * o, 101, r);
      assert false;
    }
    if r < 0 {
      ScaleMonotone(2 * o, r + 1, 0);
      assert false;
    }
    if p.price == o && r > 0 {
      ScaleMonotone(2 * o, 1, r);
      assert false;
    }
  }

  /** For a positive original price the sign of the discount: positive
      exactly when the price is at least half a percent below the original
      price, negative exactly when it is more than half a percent above it. A
      price at or above the original price never gives a positive discount. */
  lemma DiscountSign(p: Product)
    ensures p.originalPrice.Some? && p.originalPrice.value > 0 ==>
      (Discount(p) > 0 <==> 200 * (p.originalPrice.value - p.price) >= p.originalPrice.value)
    ensures p.originalPrice.Some? && p.originalPrice.value > 0 ==>
      (Discount(p) < 0 <==> 200 * (p.price - p.originalPrice.value) > p.originalPrice.value)
    ensures p.originalPrice.Some? && p.originalPrice.value > 0 && p.price >= p.originalPrice.value ==>
      Discount(p) <= 0
  {
    if p.originalPrice.Some? && p.originalPrice.value > 0 {
      var o, r := p.originalPrice.value, Discount(p);
      if r > 0 {
        ScaleMonotone(2 * o, 1, r);
      } else if r < 0 {
        ScaleMonotone(2 * o, r + 1, 0);
      } else {
        assert 2 * o * r == 0;
      }
    }
  }

  /** 800 against 1000 is 20% off; no original price is no discount; 1250
      against 1000 is a discount of -25, which the card hides. */
  lemma DiscountExamples(p: Product)
    requires p.price == 800
    ensures Discount(p.(originalPrice := Some(1000))) == 20
    ensures Discount(p.(originalPrice := None)) == 0
    ensures Discount(p.(price := 1250, originalPrice := Some(1000))) == -25
    ensures !ShowsBadge(p.(price := 1250, originalPrice := Some(1000)))
  {
  }

  /** The card's add button: `addToCart(product)` with the default quantity.
      The product is in the cart afterwards, on a new last line exactly when
      it had none. */
  function AddOne(items: seq<CartItem>, product: Product): (r: seq<CartItem>)
    ensures Ids(r) == Ids(items) + {product.id}
    ensures !HasLine(items, product.id) ==> |r| == |items| + 1 && r[|items|] == CartItem(product, 1)
    ensures HasLine(items, product.id) ==> |r| == |items|
  {
    AddToCart(items, product, DefaultQuantity)
  }

  /** The card's button adds exactly one unit and keeps the cart's invariant. */
  lemma AddOneAddsOneUnit(items: seq<CartItem>, product: Product)
    requires WellFormed(items)
    ensures TotalItems(AddOne(items, product)) == TotalItems(items) + 1
    ensures WellFormed(AddOne(items, product))
  {
    AddTotals(items, product, DefaultQuantity);
    AddKeepsWellFormed(items, product, DefaultQuantity);
  }
}
