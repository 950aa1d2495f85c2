/** The shop page's catalog query: up to four equality filters applied one after
    the other, then a stable sort chosen by the sort key. */
module Shop {
  import opened Wrappers
  import opened Seqs
  import opened Products

  /** The page's filter state. An empty criterion imposes nothing. */
  datatype Filters = Filters(category: string, brand: string, kind: string, resolution: string, sortBy: string)

  /** The state the page opens with: the category from the URL's `category`
      parameter (none reads as empty), no other criterion, newest first. */
  function InitialFilters(categoryParam: Option<string>): (r: Filters)
    ensures ParseSort(r.sortBy) == Newest
    ensures HasFilters(r) <==> categoryParam.Some? && categoryParam.value != ""
    ensures forall p :: Matches(r, p) <==>
      (categoryParam.None? || categoryParam.value == "" || p.category == categoryParam.value)
  {
    Filters(categoryParam.GetOr(""), "", "", "", "newest")
  }

  /** `p` satisfies every non-empty criterion of `f`. */
  predicate Matches(f: Filters, p: Product) {
    && (f.category == "" || p.category == f.category)
    && (f.brand == "" || p.brand == f.brand)
    && (f.kind == "" || p.kind == f.kind)
    && (f.resolution == "" || p.resolution == f.resolution)
  }

  function MatchesAll(f: Filters): Product -> bool {
    (p: Product) => Matches(f, p)
  }

  // The four filter callbacks of the page.
  function InCategory(c: string): Product -> bool { (p: Product) => p.category == c }
  function OfBrand(b: string): Product -> bool { (p: Product) => p.brand == b }
  function OfKind(t: string): Product -> bool { (p: Product) => p.kind == t }
  function AtResolution(r: string): Product -> bool { (p: Product) => p.resolution == r }

  /** `if (active) result = result.filter(keep)`. */
  function Stage<T>(s: seq<T>, active: bool, keep: T -> bool): seq<T> {
    if active then Filter(s, keep) else s
  }

  /** The filtering half of the query, one criterion at a time, in the page's
      order. The four successive filters select exactly the products that
      satisfy every non-empty criterion, in catalog order. */
  function Narrow(catalog: seq<Product>, f: Filters): (r: seq<Product>)
    ensures r == Filter(catalog, MatchesAll(f))
  {
    var byCategory := Stage(catalog, f.category != "", InCategory(f.category));
    var byBrand := Stage(byCategory, f.brand != "", OfBrand(f.brand));
    var byKind := Stage(byBrand, f.kind != "", OfKind(f.kind));
    var r := Stage(byKind, f.resolution != "", AtResolution(f.resolution));
    StagesAreConjunction(catalog, f);
    r
  }

  /** One more stage on a filtered list is one filter by the conjunction. */
  lemma StageOfFilter<T>(s: seq<T>, acc: T -> bool, active: bool, keep: T -> bool, next: T -> bool)
    requires forall x :: next(x) == (acc(x) && (!active || keep(x)))
    ensures Stage(Filter(s, acc), active, keep) == Filter(s, next)
  {
    if active {
      FilterTwice(s, acc, keep, next);
    } else {
      FilterSame(s, acc, next);
    }
  }

  /** The body of `Narrow` is one filter by the conjunction of the criteria. */
  lemma StagesAreConjunction(catalog: seq<Product>, f: Filters)
    ensures Stage(Stage(Stage(Stage(catalog, f.category != "", InCategory(f.category)),
                                f.brand != "", OfBrand(f.brand)),
                          f.kind != "", OfKind(f.kind)),
                  f.resolution != "", AtResolution(f.resolution))
         == Filter(catalog, MatchesAll(f))
  {
    var all := (p: Product) => true;
    var a1 := (p: Product) => f.category == "" || p.category == f.category;
    var a2 := (p: Product) => a1(p) && (f.brand == "" || p.brand == f.brand);
    var a3 := (p: Product) => a2(p) && (f.kind == "" || p.kind == f.kind);
    var a4 := (p: Product) => a3(p) && (f.resolution == "" || p.resolution == f.resolution);
    FilterKeepsAll(catalog, all);
    StageOfFilter(catalog, all, f.category != "", InCategory(f.category), a1);
    StageOfFilter(catalog, a1, f.brand != "", OfBrand(f.brand), a2);
    StageOfFilter(catalog, a2, f.kind != "", OfKind(f.kind), a3);
    StageOfFilter(catalog, a3, f.resolution != "", AtResolution(f.resolution), a4);
    FilterSame(catalog, a4, MatchesAll(f));
  }

  // ---------------------------------------------------------------------
  // Sorting.
  // ---------------------------------------------------------------------

  datatype SortOrder = Newest | PriceAsc | PriceDesc | BestSelling

  /** The `switch` on the sort key: any key other than the three named ones
      takes the default branch, newest first. */
  function ParseSort(sortBy: string): (r: SortOrder)
    ensures r == PriceAsc <==> sortBy == "price-asc"
    ensures r == PriceDesc <==> sortBy == "price-desc"
    ensures r == BestSelling <==> sortBy == "best-selling"
    ensures r == Newest <==> sortBy != "price-asc" && sortBy != "price-desc" && sortBy != "best-selling"
  {
    if sortBy == "price-asc" then PriceAsc
    else if sortBy == "price-desc" then PriceDesc
    else if sortBy == "best-selling" then BestSelling
    else Newest
  }

  /** The position key each order sorts ascending by. */
  function Rank(order: SortOrder, p: Product): int {
    match order
    case PriceAsc => p.price
    case PriceDesc => -p.price
    case BestSelling => if p.bestSelling then -1 else 0
    case Newest => -p.createdAt
  }

  /** The comparator passed to `sort`, as written. Each one is the difference
      of the ranks, so it orders by rank and calls products of equal rank equal. */
  function Compare(order: SortOrder, a: Product, b: Product): (r: int)
    ensures r == Rank(order, a) - Rank(order, b)
  {
    match order
    case PriceAsc => a.price - b.price
    case PriceDesc => b.price - a.price
    case BestSelling => (if b.bestSelling then 1 else 0) - (if a.bestSelling then 1 else 0)
    case Newest => b.createdAt - a.createdAt
  }

  /** Inserts `x` before the first element it does not compare above. */
  function Insert(x: Product, s: seq<Product>, order: SortOrder): seq<Product> {
    if s == [] then [x]
    else if Compare(order, x, s[0]) <= 0 then [x] + s
    else [s[0]] + Insert(x, s[1..], order)
  }

  /** `Array.prototype.sort` with the order's comparator. The language requires
      this sort to be stable; an insertion sort that places each element before
      the later elements it compares equal to is one. */
  function SortBy(s: seq<Product>, order: SortOrder): (r: seq<Product>)
    ensures multiset(r) == multiset(s)
    ensures Sorted(r, order)
  {
    if s == [] then []
    else
      var rest := SortBy(s[1..], order);
      InsertPermutes(s[0], rest, order);
      InsertSorted(s[0], rest, order);
      assert s == [s[0]] + s[1..];
      Insert(s[0], rest, order)
  }

  ghost predicate Sorted(s: seq<Product>, order: SortOrder) {
    forall i, j :: 0 <= i < j < |s| ==> Rank(order, s[i]) <= Rank(order, s[j])
  }

  function HasRank(order: SortOrder, k: int): Product -> bool {
    (p: Product) => Rank(order, p) == k
  }

  /** The products of one rank, in the order they appear in `s`. */
  function RankGroup(s: seq<Product>, order: SortOrder, k: int): seq<Product> {
    Filter(s, HasRank(order, k))
  }

  lemma {:induction false} InsertPermutes(x: Product, s: seq<Product>, order: SortOrder)
    ensures multiset(Insert(x, s, order)) == multiset(s) + multiset{x}
  {
    if s != [] && Compare(order, x, s[0]) > 0 {
      InsertPermutes(x, s[1..], order);
      assert s == [s[0]] + s[1..];
    }
  }

  /** Every element of an insertion's result is the inserted product or came
      from the list inserted into. */
  lemma {:induction false} InsertFrom(x: Product, s: seq<Product>, order: SortOrder)
    ensures forall j :: 0 <= j < |Insert(x, s, order)| ==> Insert(x, s, order)[j] == x || Insert(x, s, order)[j] in s
  {
    if s != [] && Compare(order, x, s[0]) > 0 {
      InsertFrom(x, s[1..], order);
      var t := Insert(x, s[1..], order);
      assert forall j :: 1 <= j < |t| + 1 ==> ([s[0]] + t)[j] == t[j - 1];
      assert forall y | y in s[1..] :: y in s;
    }
  }

  /** Putting an element no higher than all others in front keeps a list
      sorted. */
  lemma SortedCons(y: Product, t: seq<Product>, order: SortOrder)
    requires Sorted(t, order)
    requires forall j :: 0 <= j < |t| ==> Rank(order, y) <= Rank(order, t[j])
    ensures Sorted([y] + t, order)
  {
    var r := [y] + t;
    forall i, j | 0 <= i < j < |r|
      ensures Rank(order, r[i]) <= Rank(order, r[j])
    {
      assert r[j] == t[j - 1];
      if i > 0 {
        assert r[i] == t[i - 1];
      }
    }
  }

  lemma {:induction false} InsertSorted(x: Product, s: seq<Product>, order: SortOrder)
    requires Sorted(s, order)
    ensures Sorted(Insert(x, s, order), order)
  {
    if s == [] {
    } else if Compare(order, x, s[0]) <= 0 {
      SortedCons(x, s, order);
    } else {
      var t := Insert(x, s[1..], order);
      assert Sorted(s[1..], order) by {
        assert forall j :: 0 <= j < |s[1..]| ==> s[1..][j] == s[j + 1];
      }
      InsertSorted(x, s[1..], order);
      InsertFrom(x, s[1..], order);
      forall j | 0 <= j < |t|
        ensures Rank(order, s[0]) <= Rank(order, t[j])
      {
        if t[j] != x {
          var m :| 0 <= m < |s[1..]| && s[1..][m] == t[j];
          assert s[m + 1] == t[j];
        }
      }
      SortedCons(s[0], t, order);
    }
  }

  /** Inserting never reorders products of the same rank: the inserted product
      only passes products of a strictly lower rank. */
  lemma {:induction false} InsertKeepsGroups(x: Product, s: seq<Product>, order: SortOrder, k: int)
    ensures RankGroup(Insert(x, s, order), order, k) == RankGroup([x] + s, order, k)
  {
    if s != [] && Compare(order, x, s[0]) > 0 {
      var keep := HasRank(order, k);
      var t := Insert(x, s[1..], order);
      InsertKeepsGroups(x, s[1..], order, k);
      FilterCons(s[0], t, keep);
      FilterCons(x, s[1..], keep);
      FilterCons(x, s, keep);
      FilterCons(s[0], s[1..], keep);
      assert [s[0]] + s[1..] == s;
    }
  }

  lemma {:induction false} SortKeepsGroups(s: seq<Product>, order: SortOrder, k: int)
    ensures RankGroup(SortBy(s, order), order, k) == RankGroup(s, order, k)
  {
    if s != [] {
      var rest := SortBy(s[1..], order);
      SortKeepsGroups(s[1..], order, k);
      InsertKeepsGroups(s[0], rest, order, k);
      FilterCons(s[0], rest, HasRank(order, k));
      FilterCons(s[0], s[1..], HasRank(order, k));
      assert [s[0]] + s[1..] == s;
    }
  }

  /** The sort returns a stable ordering of its input by rank: a permutation,
      ascending by rank, and every group of equal rank in its input order. */
  lemma SortByFacts(s: seq<Product>, order: SortOrder)
    ensures multiset(SortBy(s, order)) == multiset(s)
    ensures Sorted(SortBy(s, order), order)
    ensures forall k :: RankGroup(SortBy(s, order), order, k) == RankGroup(s, order, k)
  {
    forall k
      ensures RankGroup(SortBy(s, order), order, k) == RankGroup(s, order, k)
    {
      SortKeepsGroups(s, order, k);
    }
  }

  /** Sortedness and stability determine the result: any two lists that are
      ascending by rank and agree on every rank group are equal. So every
      stable sort with this comparator, whatever its algorithm, returns what
      `SortBy` returns. */
  lemma {:induction false} StableSortUnique(a: seq<Product>, b: seq<Product>, order: SortOrder)
    requires Sorted(a, order) && Sorted(b, order)
    requires forall k :: RankGroup(a, order, k) == RankGroup(b, order, k)
    ensures a == b
    decreases |a|
  {
    if a == [] && b != [] {
      GroupOfFirst(b, order);
      assert false;
    } else if a != [] && b == [] {
      GroupOfFirst(a, order);
      assert false;
    } else if a != [] {
      FirstOfLeastRank(a, b, order);
      FirstOfLeastRank(b, a, order);
      SameFirst(a, b, order);
      TailGroups(a, b, order);
      SortedTail(a, order);
      SortedTail(b, order);
      StableSortUnique(a[1..], b[1..], order);
      assert a == [a[0]] + a[1..] && b == [b[0]] + b[1..];
    }
  }

  /** The first element of a list is in its rank's group. */
  lemma GroupOfFirst(s: seq<Product>, order: SortOrder)
    requires s != []
    ensures RankGroup(s, order, Rank(order, s[0])) != []
  {
  }

  /** Two sorted lists with the same rank groups start with the same element:
      the first of the least rank. */
  lemma SameFirst(a: seq<Product>, b: seq<Product>, order: SortOrder)
    requires a != [] && b != []
    requires Rank(order, a[0]) == Rank(order, b[0])
    requires forall k :: RankGroup(a, order, k) == RankGroup(b, order, k)
    ensures a[0] == b[0]
  {
    var k := Rank(order, a[0]);
    assert RankGroup(a, order, k)[0] == a[0];
    assert RankGroup(b, order, k)[0] == b[0];
  }

  /** Lists that agree on every rank group and on their first element agree on
      every rank group of their tails. */
  lemma TailGroups(a: seq<Product>, b: seq<Product>, order: SortOrder)
    requires a != [] && b != [] && a[0] == b[0]
    requires forall k :: RankGroup(a, order, k) == RankGroup(b, order, k)
    ensures forall k :: RankGroup(a[1..], order, k) == RankGroup(b[1..], order, k)
  {
    forall k
      ensures RankGroup(a[1..], order, k) == RankGroup(b[1..], order, k)
    {
      assert a == [a[0]] + a[1..] && b == [b[0]] + b[1..];
      FilterCons(a[0], a[1..], HasRank(order, k));
      FilterCons(b[0], b[1..], HasRank(order, k));
      var head: seq<Product> := if Rank(order, a[0]) == k then [a[0]] else [];
      assert RankGroup(a, order, k) == head + RankGroup(a[1..], order, k);
      assert RankGroup(b, order, k) == head + RankGroup(b[1..], order, k);
      assert (head + RankGroup(a[1..], order, k))[|head|..] == RankGroup(a[1..], order, k);
      assert (head + RankGroup(b[1..], order, k))[|head|..] == RankGroup(b[1..], order, k);
    }
  }

  /** The tail of a sorted list is sorted. */
  lemma SortedTail(s: seq<Product>, order: SortOrder)
    requires s != [] && Sorted(s, order)
    ensures Sorted(s[1..], order)
  {
    var t := s[1..];
    forall i, j | 0 <= i < j < |t|
      ensures Rank(order, t[i]) <= Rank(order, t[j])
    {
      assert t[i] == s[i + 1] && t[j] == s[j + 1];
    }
  }

  /** In a sorted list the first element has the least rank, so another list
      with the same rank groups holds nothing of lower rank. */
  lemma FirstOfLeastRank(a: seq<Product>, b: seq<Product>, order: SortOrder)
    requires a != [] && b != []
    requires Sorted(a, order)
    requires forall k :: RankGroup(a, order, k) == RankGroup(b, order, k)
    ensures Rank(order, a[0]) <= Rank(order, b[0])
  {
    var k := Rank(order, b[0]);
    FilterMembers(b, HasRank(order, k));
    assert b[0] in RankGroup(b, order, k);
    assert b[0] in RankGroup(a, order, k);
    FilterMembers(a, HasRank(order, k));
    var m :| 0 <= m < |a| && a[m] == b[0];
    assert m == 0 || Rank(order, a[0]) <= Rank(order, a[m]);
  }

  // ---------------------------------------------------------------------
  // The query and what it promises.
  // ---------------------------------------------------------------------

  /** The page's `filtered` list: the matching products, reordered by the
      sort key. */
  function Query(catalog: seq<Product>, f: Filters): (r: seq<Product>)
    ensures multiset(r) == multiset(Filter(catalog, MatchesAll(f)))
    ensures Sorted(r, ParseSort(f.sortBy))
  {
    SortBy(Narrow(catalog, f), ParseSort(f.sortBy))
  }

  /** A product is listed exactly when it is in the catalog and satisfies every
      non-empty criterion; the list is a permutation of the matching products
      (nothing repeated, nothing lost). An unknown category lists nothing. */
  lemma QueryMembers(catalog: seq<Product>, f: Filters)
    ensures forall i :: 0 <= i < |Query(catalog, f)| ==>
      Matches(f, Query(catalog, f)[i]) && Query(catalog, f)[i] in catalog
    ensures forall i :: 0 <= i < |catalog| && Matches(f, catalog[i]) ==> catalog[i] in Query(catalog, f)
    ensures multiset(Query(catalog, f)) == multiset(Filter(catalog, MatchesAll(f)))
  {
    var n := Narrow(catalog, f);
    var r := Query(catalog, f);
    FilterMembers(catalog, MatchesAll(f));
    SortByFacts(n, ParseSort(f.sortBy));
    forall i | 0 <= i < |r|
      ensures Matches(f, r[i]) && r[i] in catalog
    {
      assert r[i] in multiset(r);
      assert r[i] in n;
      var m :| 0 <= m < |n| && n[m] == r[i];
      assert MatchesAll(f)(n[m]);
    }
    forall i | 0 <= i < |catalog| && Matches(f, catalog[i])
      ensures catalog[i] in r
    {
      assert MatchesAll(f)(catalog[i]);
      assert catalog[i] in multiset(n);
    }
  }

  /** Filling in an empty criterion (or leaving a criterion as it is) lists a
      subsequence of what was listed before, so never more products. */
  lemma TighterNeverGrows(catalog: seq<Product>, loose: Filters, strict: Filters)
    requires loose.category == "" || strict.category == loose.category
    requires loose.brand == "" || strict.brand == loose.brand
    requires loose.kind == "" || strict.kind == loose.kind
    requires loose.resolution == "" || strict.resolution == loose.resolution
    ensures IsSubsequence(Narrow(catalog, strict), Narrow(catalog, loose))
    ensures |Query(catalog, strict)| <= |Query(catalog, loose)|
  {
    StricterFilter(catalog, MatchesAll(loose), MatchesAll(strict));
    SortByFacts(Narrow(catalog, strict), ParseSort(strict.sortBy));
    SortByFacts(Narrow(catalog, loose), ParseSort(loose.sortBy));
    assert |Query(catalog, strict)| == |multiset(Query(catalog, strict))|;
    assert |Query(catalog, loose)| == |multiset(Query(catalog, loose))|;
  }

  function PricedAt(v: int): Product -> bool { (p: Product) => p.price == v }
  function CreatedAt(t: int): Product -> bool { (p: Product) => p.createdAt == t }
  function Flagged(flag: bool): Product -> bool { (p: Product) => p.bestSelling == flag }

  /** "price-asc": prices never decrease, and products of equal price keep their
      catalog order. */
  lemma PriceAscending(catalog: seq<Product>, f: Filters)
    requires f.sortBy == "price-asc"
    ensures forall i, j :: 0 <= i < j < |Query(catalog, f)| ==>
      Query(catalog, f)[i].price <= Query(catalog, f)[j].price
    ensures forall v :: Filter(Query(catalog, f), PricedAt(v)) == Filter(Narrow(catalog, f), PricedAt(v))
  {
    var n := Narrow(catalog, f);
    SortByFacts(n, PriceAsc);
    forall v
      ensures Filter(Query(catalog, f), PricedAt(v)) == Filter(n, PricedAt(v))
    {
      FilterSame(Query(catalog, f), PricedAt(v), HasRank(PriceAsc, v));
      FilterSame(n, PricedAt(v), HasRank(PriceAsc, v));
      assert RankGroup(Query(catalog, f), PriceAsc, v) == RankGroup(n, PriceAsc, v);
    }
  }

  /** "price-desc": prices never increase, and products of equal price keep
      their catalog order. */
  lemma PriceDescending(catalog: seq<Product>, f: Filters)
    requires f.sortBy == "price-desc"
    ensures forall i, j :: 0 <= i < j < |Query(catalog, f)| ==>
      Query(catalog, f)[i].price >= Query(catalog, f)[j].price
    ensures forall v :: Filter(Query(catalog, f), PricedAt(v)) == Filter(Narrow(catalog, f), PricedAt(v))
  {
    var n := Narrow(catalog, f);
    SortByFacts(n, PriceDesc);
    forall v
      ensures Filter(Query(catalog, f), PricedAt(v)) == Filter(n, PricedAt(v))
    {
      FilterSame(Query(catalog, f), PricedAt(v), HasRank(PriceDesc, -v));
      FilterSame(n, PricedAt(v), HasRank(PriceDesc, -v));
      assert RankGroup(Query(catalog, f), PriceDesc, -v) == RankGroup(n, PriceDesc, -v);
    }
  }

  /** Every sort key other than the three named ones (including "newest"):
      creation times never increase, and ties keep their catalog order. */
  lemma NewestFirst(catalog: seq<Product>, f: Filters)
    requires f.sortBy != "price-asc" && f.sortBy != "price-desc" && f.sortBy != "best-selling"
    ensures forall i, j :: 0 <= i < j < |Query(catalog, f)| ==>
      Query(catalog, f)[i].createdAt >= Query(catalog, f)[j].createdAt
    ensures forall t :: Filter(Query(catalog, f), CreatedAt(t)) == Filter(Narrow(catalog, f), CreatedAt(t))
  {
    var n := Narrow(catalog, f);
    SortByFacts(n, Newest);
    forall t
      ensures Filter(Query(catalog, f), CreatedAt(t)) == Filter(n, CreatedAt(t))
    {
      FilterSame(Query(catalog, f), CreatedAt(t), HasRank(Newest, -t));
      FilterSame(n, CreatedAt(t), HasRank(Newest, -t));
      assert RankGroup(Query(catalog, f), Newest, -t) == RankGroup(n, Newest, -t);
    }
  }

  /** A list sorted by a rank that takes only the values -1 and 0 is its rank -1
      elements followed by its rank 0 elements. */
  lemma {:induction false} TwoRankSplit(s: seq<Product>, order: SortOrder)
    requires Sorted(s, order)
    requires forall i :: 0 <= i < |s| ==> Rank(order, s[i]) == -1 || Rank(order, s[i]) == 0
    ensures s == RankGroup(s, order, -1) + RankGroup(s, order, 0)
  {
    if s != [] {
      TailOfTwoRanks(s, order);
      TwoRankSplit(s[1..], order);
      if Rank(order, s[0]) == 0 {
        RestAfterTopRank(s, order);
      }
      SplitStep(s, order);
    }
  }

  /** One element in front of a split list keeps it split, when it has rank -1
      or when it has rank 0 and only rank 0 follows. */
  lemma SplitStep(s: seq<Product>, order: SortOrder)
    requires s != []
    requires s[1..] == RankGroup(s[1..], order, -1) + RankGroup(s[1..], order, 0)
    requires Rank(order, s[0]) == -1
      || (Rank(order, s[0]) == 0 && forall i :: 0 <= i < |s[1..]| ==> Rank(order, s[1..][i]) == 0)
    ensures s == RankGroup(s, order, -1) + RankGroup(s, order, 0)
  {
    var t := s[1..];
    if Rank(order, s[0]) == 0 {
      FilterKeepsAll(t, HasRank(order, 0));
      FilterKeepsNone(t, HasRank(order, -1));
    }
  }

  /** The tail of a sorted list of ranks -1 and 0 is one too. */
  lemma TailOfTwoRanks(s: seq<Product>, order: SortOrder)
    requires s != [] && Sorted(s, order)
    requires forall i :: 0 <= i < |s| ==> Rank(order, s[i]) == -1 || Rank(order, s[i]) == 0
    ensures Sorted(s[1..], order)
    ensures forall i :: 0 <= i < |s[1..]| ==> Rank(order, s[1..][i]) == -1 || Rank(order, s[1..][i]) == 0
  {
    var t := s[1..];
    forall i, j | 0 <= i < j < |t|
      ensures Rank(order, t[i]) <= Rank(order, t[j])
    {
      assert t[i] == s[i + 1] && t[j] == s[j + 1];
    }
    forall i | 0 <= i < |t|
      ensures Rank(order, t[i]) == -1 || Rank(order, t[i]) == 0
    {
      assert t[i] == s[i + 1];
    }
  }

  /** In such a list, an element of rank 0 at the front leaves only rank 0
      behind it. */
  lemma RestAfterTopRank(s: seq<Product>, order: SortOrder)
    requires s != [] && Sorted(s, order) && Rank(order, s[0]) == 0
    requires forall i :: 0 <= i < |s| ==> Rank(order, s[i]) == -1 || Rank(order, s[i]) == 0
    ensures forall i :: 0 <= i < |s[1..]| ==> Rank(order, s[1..][i]) == 0
  {
    forall i | 0 <= i < |s[1..]|
      ensures Rank(order, s[1..][i]) == 0
    {
      assert s[1..][i] == s[i + 1];
    }
  }

  /** "best-selling": all best sellers first, then the others, each group in
      catalog order. */
  lemma BestSellersFirst(catalog: seq<Product>, f: Filters)
    requires f.sortBy == "best-selling"
    ensures Query(catalog, f)
         == Filter(Narrow(catalog, f), Flagged(true)) + Filter(Narrow(catalog, f), Flagged(false))
  {
    var n := Narrow(catalog, f);
    var r := Query(catalog, f);
    SortByFacts(n, BestSelling);
    TwoRankSplit(r, BestSelling);
    FilterSame(n, Flagged(true), HasRank(BestSelling, -1));
    FilterSame(n, Flagged(false), HasRank(BestSelling, 0));
    assert RankGroup(r, BestSelling, -1) == RankGroup(n, BestSelling, -1);
    assert RankGroup(r, BestSelling, 0) == RankGroup(n, BestSelling, 0);
  }

  // ---------------------------------------------------------------------
  // Clearing filters.
  // ---------------------------------------------------------------------

  /** `clearFilters`: every criterion back to empty; the sort key is kept. */
  function ClearFilters(f: Filters): (r: Filters)
    ensures !HasFilters(r) && r.sortBy == f.sortBy
    ensures forall p :: Matches(r, p)
  {
    f.(category := "", brand := "", kind := "", resolution := "")
  }

  /** `hasFilters`: some criterion is set. A filter state has one exactly when
      it can exclude some product. */
  function HasFilters(f: Filters): (r: bool)
    ensures r <==> exists p :: !Matches(f, p)
  {
    SetCriterionExcludes(f);
    f.category != "" || f.brand != "" || f.kind != "" || f.resolution != ""
  }

  /** A product whose every field differs from the criterion fails every set
      criterion. */
  lemma SetCriterionExcludes(f: Filters)
    ensures f.category != "" || f.brand != "" || f.kind != "" || f.resolution != "" ==>
      exists p :: !Matches(f, p)
  {
    var p := Product("", "", f.category + "-", f.brand + "-", f.kind + "-", f.resolution + "-",
      0, None, 0, false, false);
    assert |p.category| != |f.category| && |p.brand| != |f.brand|;
    assert |p.kind| != |f.kind| && |p.resolution| != |f.resolution|;
    if f.category != "" || f.brand != "" || f.kind != "" || f.resolution != "" {
      assert !Matches(f, p);
    }
  }

  /** After clearing, no criterion is set, the sort key is unchanged and the
      page lists the whole catalog, reordered by the sort key only. */
  lemma ClearFiltersShowsAll(catalog: seq<Product>, f: Filters)
    ensures !HasFilters(ClearFilters(f)) && ClearFilters(f).sortBy == f.sortBy
    ensures Narrow(catalog, ClearFilters(f)) == catalog
    ensures multiset(Query(catalog, ClearFilters(f))) == multiset(catalog)
  {
    var g := ClearFilters(f);
    FilterKeepsAll(catalog, MatchesAll(g));
    SortByFacts(catalog, ParseSort(g.sortBy));
  }
}
