/** The product detail page: the product looked up by its slug, its related
    products, its discount, and the quantity stepper that feeds the cart. */
module ProductDetail {
  import opened Wrappers
  import opened Seqs
  import opened Products
  import opened CartLedger
  import opened ProductCard

  /** At most this many related products are shown. */
  const RelatedCount: nat := 4

  /** The quantity the stepper starts at. */
  const InitialQuantity: int := 1

  /** The position of the first product whose slug is `slug`. */
  function SlugIndex(catalog: seq<Product>, slug: string): (r: Option<nat>)
    ensures r.Some? ==> r.value < |catalog| && catalog[r.value].slug == slug
    ensures r.Some? ==> forall j :: 0 <= j < r.value ==> catalog[j].slug != slug
    ensures r.None? ==> forall j :: 0 <= j < |catalog| ==> catalog[j].slug != slug
  {
    if catalog == [] then None
    else if catalog[0].slug == slug then Some(0)
    else match SlugIndex(catalog[1..], slug)
      case None =>
        assert forall j :: 1 <= j < |catalog| ==> catalog[j] == catalog[1..][j - 1];
        None
      case Some(k) => Some(k + 1)
  }

  /** Position `k` holds the first product whose slug is `slug`. */
  ghost predicate FirstWithSlug(catalog: seq<Product>, slug: string, k: int) {
    && 0 <= k < |catalog|
    && catalog[k].slug == slug
    && forall j :: 0 <= j < k ==> catalog[j].slug != slug
  }

  /** `products.find(p => p.slug === slug)`: the first product with the slug. */
  function FindBySlug(catalog: seq<Product>, slug: string): (r: Option<Product>)
    ensures r.None? <==> forall j :: 0 <= j < |catalog| ==> catalog[j].slug != slug
    ensures r.Some? ==> r.value.slug == slug && r.value in catalog
    ensures r.Some? ==> exists k :: FirstWithSlug(catalog, slug, k) && catalog[k] == r.value
  {
    match SlugIndex(catalog, slug)
    case None => None
    case Some(k) => Some(catalog[k])
  }

  /** The filter callback of `related`: same category, another product. */
  function SameCategoryOther(product: Product): Product -> bool {
    (p: Product) => p.category == product.category && p.id != product.id
  }

  /** `related`: the first four other products of the same category, in
      catalog order. */
  function Related(catalog: seq<Product>, product: Product): (r: seq<Product>)
    ensures |r| <= RelatedCount
    ensures forall i :: 0 <= i < |r| ==> r[i].category == product.category && r[i].id != product.id
  {
    var r := Take(Filter(catalog, SameCategoryOther(product)), RelatedCount);
    TakeFilterFacts(catalog, SameCategoryOther(product), RelatedCount);
    r
  }

  /** The page: "Product not found." or the product with what is shown beside
      it. */
  datatype DetailPage = NotFound | Found(product: Product, related: seq<Product>, discount: int)

  function ShowDetail(catalog: seq<Product>, slug: string): (r: DetailPage)
    ensures r.NotFound? <==> forall j :: 0 <= j < |catalog| ==> catalog[j].slug != slug
    ensures r.Found? ==> r.product.slug == slug
    ensures r.Found? ==> exists k :: FirstWithSlug(catalog, slug, k) && catalog[k] == r.product
    ensures r.Found? ==> r.product !in r.related
    ensures r.Found? ==> r.discount == Discount(r.product)
  {
    match FindBySlug(catalog, slug)
    case None => NotFound
    case Some(product) =>
      Found(product, Related(catalog, product), Discount(product))
  }

  /** The detail page prints the discount without checking its sign: a product
      priced above its original price shows a negative percentage. */
  lemma DetailShowsNegativeDiscount(p: Product)
    requires p.price == 1250 && p.originalPrice == Some(1000)
    ensures ShowDetail([p], p.slug) == Found(p, [], -25)
  {
    assert FindBySlug([p], p.slug) == Some(p);
    assert Filter([p], SameCategoryOther(p)) == [] by {
      assert Filter([p][1..], SameCategoryOther(p)) == [];
    }
  }

  /** The related list is a subsequence of the catalog, never holds the product
      itself, holds four products whenever four qualify, and holds every
      qualifying product that fewer than four qualifying products precede. */
  lemma RelatedFacts(catalog: seq<Product>, product: Product)
    ensures IsSubsequence(Related(catalog, product), catalog)
    ensures product !in Related(catalog, product)
    ensures |Related(catalog, product)| == if |Filter(catalog, SameCategoryOther(product))| < RelatedCount
      then |Filter(catalog, SameCategoryOther(product))| else RelatedCount
    ensures forall i ::
      (0 <= i < |catalog| && catalog[i].category == product.category && catalog[i].id != product.id
       && |Filter(catalog[..i], SameCategoryOther(product))| < RelatedCount)
      ==> catalog[i] in Related(catalog, product)
  {
    var keep := SameCategoryOther(product);
    TakeFilterFacts(catalog, keep, RelatedCount);
    forall i | 0 <= i < |catalog| && keep(catalog[i]) && |Filter(catalog[..i], keep)| < RelatedCount
      ensures catalog[i] in Related(catalog, product)
    {
      FirstKept(catalog, keep, RelatedCount, i);
    }
  }

  // ---------------------------------------------------------------------
  // The quantity stepper and the add buttons.
  // ---------------------------------------------------------------------

  /** Minus: `Math.max(1, q - 1)`. */
  function StepDown(q: int): int {
    if q - 1 > 1 then q - 1 else 1
  }

  /** Plus: `q + 1`. */
  function StepUp(q: int): int {
    q + 1
  }

  datatype Press = Minus | Plus

  /** The quantity after a sequence of presses, starting from the initial one:
      never below one, and at most one more per press. */
  function Stepper(presses: seq<Press>): (r: int)
    ensures 1 <= r <= 1 + |presses|
  {
    if presses == [] then InitialQuantity
    else
      var q := Stepper(presses[..|presses| - 1]);
      match presses[|presses| - 1]
      case Minus => StepDown(q)
      case Plus => StepUp(q)
  }

  function IsPlus(p: Press): bool { p.Plus? }
  function IsMinus(p: Press): bool { p.Minus? }

  /** The shown quantity never drops below one, never exceeds one more than the
      number of presses, and is at least what the plus presses minus the minus
      presses would give. */
  lemma {:induction false} StepperBounds(presses: seq<Press>)
    ensures 1 <= Stepper(presses) <= 1 + |presses|
    ensures Stepper(presses) >= 1 + |Filter(presses, IsPlus)| - |Filter(presses, IsMinus)|
  {
    if presses != [] {
      var n := |presses| - 1;
      var init := presses[..n];
      StepperBounds(init);
      assert presses == init + [presses[n]];
      FilterConcat(init, [presses[n]], IsPlus);
      FilterConcat(init, [presses[n]], IsMinus);
    }
  }

  /** The detail page's add: `addToCart(product, quantity)` with the stepper's
      quantity. */
  function HandleAdd(items: seq<CartItem>, product: Product, quantity: int): (r: seq<CartItem>)
    ensures Ids(r) == Ids(items) + {product.id}
    ensures !HasLine(items, product.id) ==> |r| == |items| + 1 && r[|items|] == CartItem(product, quantity)
    ensures HasLine(items, product.id) ==> |r| == |items|
  {
    AddToCart(items, product, quantity)
  }

  /** Whatever the presses, the add puts exactly the shown quantity, at least
      one unit, into the cart, and keeps the cart's invariant. */
  lemma HandleAddAddsShownQuantity(items: seq<CartItem>, product: Product, presses: seq<Press>)
    requires WellFormed(items)
    ensures TotalItems(HandleAdd(items, product, Stepper(presses))) == TotalItems(items) + Stepper(presses)
    ensures TotalItems(HandleAdd(items, product, Stepper(presses))) > TotalItems(items)
    ensures WellFormed(HandleAdd(items, product, Stepper(presses)))
  {
    StepperBounds(presses);
    AddTotals(items, product, Stepper(presses));
    AddKeepsWellFormed(items, product, Stepper(presses));
  }
}
