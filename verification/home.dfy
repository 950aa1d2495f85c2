/** The home page's featured strip. */
module Home {
  import opened Seqs
  import opened Products

  /** At most this many featured products are shown. */
  const FeaturedCount: nat := 8

  function IsFeatured(p: Product): bool { p.featured }

  /** `products.filter(p => p.featured).slice(0, 8)`. */
  function Featured(catalog: seq<Product>): (r: seq<Product>)
    ensures |r| <= FeaturedCount
    ensures forall i :: 0 <= i < |r| ==> r[i].featured
  {
    TakeFilterFacts(catalog, IsFeatured, FeaturedCount);
    Take(Filter(catalog, IsFeatured), FeaturedCount)
  }

  /** The strip is a subsequence of the catalog (so in catalog order). With
      eight or more featured products it holds eight of them, and every
      featured product that fewer than eight featured products precede is in
      it; with fewer than eight it holds all of them. */
  lemma FeaturedFacts(catalog: seq<Product>)
    ensures IsSubsequence(Featured(catalog), catalog)
    ensures |Featured(catalog)| == if |Filter(catalog, IsFeatured)| < FeaturedCount
      then |Filter(catalog, IsFeatured)| else FeaturedCount
    ensures forall i ::
      (0 <= i < |catalog| && catalog[i].featured && |Filter(catalog[..i], IsFeatured)| < FeaturedCount)
      ==> catalog[i] in Featured(catalog)
    ensures |Filter(catalog, IsFeatured)| < FeaturedCount ==>
      forall i :: 0 <= i < |catalog| && catalog[i].featured ==> catalog[i] in Featured(catalog)
  {
    TakeFilterFacts(catalog, IsFeatured, FeaturedCount);
    forall i | 0 <= i < |catalog| && catalog[i].featured && |Filter(catalog[..i], IsFeatured)| < FeaturedCount
      ensures catalog[i] in Featured(catalog)
    {
      FirstKept(catalog, IsFeatured, FeaturedCount, i);
    }
    if |Filter(catalog, IsFeatured)| < FeaturedCount {
      FilterMembers(catalog, IsFeatured);
    }
  }
}
