/** The catalog record. The catalog data itself is not part of this model: every
    operation takes the catalog as an arbitrary sequence of products. */
module Products {
  import opened Wrappers

  type ProductId = string

  /** The fields of a catalog product that the storefront's logic reads.
      `kind` is the product's `type` (indoor or outdoor); `createdAt` is the
      creation date as a timestamp. Prices are whole currency units. */
  datatype Product = Product(
    id: ProductId,
    slug: string,
    category: string,
    brand: string,
    kind: string,
    resolution: string,
    price: int,
    originalPrice: Option<int>,
    createdAt: int,
    featured: bool,
    bestSelling: bool
  )

  /** No two products share an id. */
  ghost predicate UniqueIds(catalog: seq<Product>) {
    forall i, j :: 0 <= i < j < |catalog| ==> catalog[i].id != catalog[j].id
  }
}
