/**
 * The catalog listing's query-parameter handling (products/views.py): the
 * search term, the sort key and direction, the comma-separated category
 * filter, and the lookup of a parent category with its children.
 */
module ProductViews {
  import opened Wrappers
  import opened Text
  import opened Catalog

  /** `request.GET`: each parameter's value as `get` returns it. */
  type Query = map<string, string>

  /** `request.GET.get(key, default)` */
  function Param(get: Query, key: string, default: string): string {
    if key in get then get[key] else default
  }

  // ---------------------------------------------------------------------------
  // Search term, direction and sort key (_apply_search_sort)
  // ---------------------------------------------------------------------------

  /** The search term: the `q` parameter stripped. */
  function SearchTerm(get: Query): (q: string)
    ensures IsStripped(q)
  {
    StripSpec(Param(get, "q", ""));
    Strip(Param(get, "q", ""))
  }

  /** The listing is filtered by the term exactly when the raw `q` holds a non-whitespace character. */
  lemma SearchFilterIff(get: Query)
    ensures SearchTerm(get) != "" <==>
      exists i :: 0 <= i < |Param(get, "q", "")| && !IsSpace(Param(get, "q", "")[i])
  {
    StripEmptyIff(Param(get, "q", ""));
  }

  /** Feeding the returned term back as `q` gives the same term: the search box round-trips. */
  lemma SearchTermStable(get: Query)
    ensures SearchTerm(get["q" := SearchTerm(get)]) == SearchTerm(get)
  {
    StripIdempotent(Param(get, "q", ""));
  }

  /** The direction: the parameter (default "asc") lower-cased, anything but "asc"/"desc" becoming "asc". */
  function Direction(get: Query): (d: string)
    ensures d == "asc" || d == "desc"
    ensures d == "desc" <==> Lower(Param(get, "direction", "asc")) == "desc"
  {
    var raw := Lower(Param(get, "direction", "asc"));
    if raw == "asc" || raw == "desc" then raw else "asc"
  }

  lemma DirectionExamples()
    ensures Direction(map[]) == "asc"
    ensures Direction(map["direction" := "DESC"]) == "desc"
    ensures Direction(map["direction" := "up"]) == "asc"
  {
    assert Lower("DESC") == "desc";
    assert Lower("up") == "up";
  }

  /** The column a recognised `sort` value orders by; None when no ordering applies. */
  function SortKey(sort: string): Option<string> {
    if sort == "name" then Some("lower_name")
    else if sort == "price" then Some("price")
    else if sort == "category" then Some("category__name")
    else None
  }

  /** The `order_by` argument, if any: the sort key, prefixed with "-" for a descending direction. */
  function OrderBy(sort: string, direction: string): Option<string> {
    match SortKey(sort)
    case None => None
    case Some(key) => Some(if direction == "desc" then "-" + key else key)
  }

  /**
   * Ordering applies exactly for the three known sorts; the argument is the
   * key, with a leading "-" exactly when the direction is "desc".
   */
  lemma OrderBySpec(sort: string, direction: string)
    ensures OrderBy(sort, direction).Some? <==> sort in {"name", "price", "category"}
    ensures OrderBy(sort, direction).Some? ==>
      var o := OrderBy(sort, direction).value;
      && |o| > 0
      && (o[0] == '-' <==> direction == "desc")
      && (if direction == "desc" then o[1..] else o) == SortKey(sort).value
  {
    if SortKey(sort).Some? {
      var key := SortKey(sort).value;
      assert key[0] != '-';
      if direction == "desc" {
        assert ("-" + key)[1..] == key;
      }
    }
  }

  /** Distinct recognised (sort, direction) pairs order differently. */
  lemma OrderByInjective(s1: string, d1: string, s2: string, d2: string)
    requires s1 in {"name", "price", "category"} && s2 in {"name", "price", "category"}
    requires d1 in {"asc", "desc"} && d2 in {"asc", "desc"}
    requires OrderBy(s1, d1) == OrderBy(s2, d2)
    ensures s1 == s2 && d1 == d2
  {
    OrderBySpec(s1, d1);
    OrderBySpec(s2, d2);
    var o := OrderBy(s1, d1).value;
    assert d1 == d2;
    assert SortKey(s1) == SortKey(s2);
  }

  /** What `_apply_search_sort` decides: the filter term (if any), the ordering (if any) and the echoed values. */
  datatype Listing = Listing(filterTerm: Option<string>, orderBy: Option<string>, q: string, sort: string, direction: string)

  function ApplySearchSort(get: Query): Listing {
    var q := SearchTerm(get);
    var sort := Param(get, "sort", "");
    var direction := Direction(get);
    Listing(if q != "" then Some(q) else None, OrderBy(sort, direction), q, sort, direction)
  }

  /**
   * The listing filters by the stripped term when it is non-empty, echoes the
   * raw sort and the normalised direction, and orders by the key the sort and
   * direction pick.
   */
  lemma ApplySearchSortSpec(get: Query)
    ensures var r := ApplySearchSort(get);
      && (r.filterTerm.Some? <==> r.q != "")
      && (r.filterTerm.Some? ==> r.filterTerm.value == r.q && IsStripped(r.q))
      && r.q == Strip(Param(get, "q", ""))
      && r.sort == Param(get, "sort", "")
      && (r.direction == "asc" || r.direction == "desc")
      && (r.orderBy.Some? <==> r.sort in {"name", "price", "category"})
      && (r.orderBy.Some? ==> (r.orderBy.value[0] == '-' <==> r.direction == "desc"))
  {
    var r := ApplySearchSort(get);
    OrderBySpec(r.sort, r.direction);
  }

  // ---------------------------------------------------------------------------
  // The `category` parameter: a comma-separated list of slugs
  // ---------------------------------------------------------------------------

  /** `[s for s in parts if s]` */
  function NonEmpty(parts: seq<string>): (r: seq<string>)
    ensures |r| <= |parts|
    ensures forall s <- r :: s != "" && s in parts
    ensures forall s <- parts :: s != "" ==> s in r
  {
    if parts == [] then []
    else (if parts[0] != "" then [parts[0]] else []) + NonEmpty(parts[1..])
  }

  /** The selected slugs: the parameter stripped, split on commas, empty pieces dropped. */
  function CategorySlugs(get: Query): seq<string> {
    NonEmpty(Split(Strip(Param(get, "category", "")), ","))
  }

  /**
   * The slugs are exactly the non-empty comma-separated pieces of the
   * stripped parameter, and none holds a comma.
   */
  lemma CategorySlugsSpec(get: Query)
    ensures var pieces := Split(Strip(Param(get, "category", "")), ",");
      && (forall s <- CategorySlugs(get) :: s != "" && ',' !in s && s in pieces)
      && (forall s <- pieces :: s != "" ==> s in CategorySlugs(get))
  {
    var pieces := Split(Strip(Param(get, "category", "")), ",");
    SplitPiecesFree(Strip(Param(get, "category", "")), ",");
    forall s <- CategorySlugs(get) ensures ',' !in s {
      assert !Contains(s, ",");
      if ',' in s {
        var k :| 0 <= k < |s| && s[k] == ',';
        assert OccursAt(s, ",", k);
      }
    }
  }

  /** Keeping the non-empty pieces of a list that has no empty piece keeps it whole. */
  lemma {:induction false} NonEmptyOfFull(parts: seq<string>)
    requires forall s <- parts :: s != ""
    ensures NonEmpty(parts) == parts
  {
    if parts != [] {
      assert parts[0] in parts;
      forall s <- parts[1..] ensures s != "" { assert s in parts; }
      NonEmptyOfFull(parts[1..]);
    }
  }

  /**
   * A list of non-empty, comma-free slugs written as the parameter (with no
   * whitespace at either end) is read back as the same list.
   */
  lemma CategorySlugsRoundTrip(slugs: seq<string>)
    requires forall s <- slugs :: s != "" && ',' !in s
    requires IsStripped(Join(slugs, ","))
    ensures CategorySlugs(map["category" := Join(slugs, ",")]) == slugs
  {
    var csv := Join(slugs, ",");
    assert Param(map["category" := csv], "category", "") == csv;
    StripOfStripped(csv);
    if slugs == [] {
      assert Split("", ",") == [""];
    } else {
      SplitJoin(slugs, ',');
      NonEmptyOfFull(slugs);
    }
  }

  // ---------------------------------------------------------------------------
  // A parent category and its children (_ids_for_category_and_children)
  // ---------------------------------------------------------------------------

  /** `Category.objects.get(slug=slug)`: the category carrying that slug (slugs are unique). */
  function FindBySlug(cats: seq<Category>, slug: string): (r: Option<Category>)
    ensures r.Some? ==> r.value in cats && r.value.slug == Some(slug)
    ensures r.None? <==> forall c <- cats :: c.slug != Some(slug)
  {
    if cats == [] then None
    else if cats[0].slug == Some(slug) then Some(cats[0])
    else FindBySlug(cats[1..], slug)
  }

  /** `parent.subcategories.values_list("id")`: the ids of the categories whose parent is `pid`. */
  function ChildIds(cats: seq<Category>, pid: int): (ids: seq<int>)
    ensures forall id <- ids :: exists c <- cats :: c.id == id && c.parent == Some(pid)
    ensures forall c <- cats :: c.parent == Some(pid) ==> c.id in ids
  {
    if cats == [] then []
    else (if cats[0].parent == Some(pid) then [cats[0].id] else []) + ChildIds(cats[1..], pid)
  }

  /** `([parent.id] + child_ids, parent)`, or `([], None)` when no category has the slug. */
  function IdsForCategoryAndChildren(cats: seq<Category>, slug: string): (seq<int>, Option<Category>) {
    match FindBySlug(cats, slug)
    case None => ([], None)
    case Some(parent) => ([parent.id] + ChildIds(cats, parent.id), Some(parent))
  }

  /**
   * An unknown slug gives no ids and no parent; a known one gives the
   * parent's id first, then exactly the ids of its children.
   */
  lemma IdsForCategoryAndChildrenSpec(cats: seq<Category>, slug: string)
    ensures var (ids, parent) := IdsForCategoryAndChildren(cats, slug);
      && (ids == [] <==> parent.None?)
      && (parent.None? <==> forall c <- cats :: c.slug != Some(slug))
      && (parent.Some? ==>
            && parent.value in cats && parent.value.slug == Some(slug)
            && ids[0] == parent.value.id
            && (forall id <- ids[1..] :: exists c <- cats :: c.id == id && c.parent == Some(parent.value.id))
            && (forall c <- cats :: c.parent == Some(parent.value.id) ==> c.id in ids[1..]))
  {
    match FindBySlug(cats, slug)
    case None =>
    case Some(p) =>
      assert ([p.id] + ChildIds(cats, p.id))[1..] == ChildIds(cats, p.id);
  }

  // ---------------------------------------------------------------------------
  // The landing pages' product selection (product_cakes, product_accessories)
  // ---------------------------------------------------------------------------

  /** A product's category id, if it has a category. */
  function CategoryId(p: Product): Option<int> {
    if p.category.Some? then Some(p.category.value.id) else None
  }

  /** `category__slug__in=slugs` */
  predicate InSlugs(p: Product, slugs: seq<string>) {
    p.category.Some? && p.category.value.slug.Some? && p.category.value.slug.value in slugs
  }

  /**
   * The products a landing page lists before search and sort: those in the
   * root category or its children (none when the root slug is unknown),
   * narrowed to the selected slugs when any are given.
   */
  function LandingProducts(products: seq<Product>, cats: seq<Category>, root: string, slugs: seq<string>): (r: seq<Product>)
    ensures forall p <- r :: p in products
  {
    var ids := IdsForCategoryAndChildren(cats, root).0;
    if products == [] then []
    else
      var p := products[0];
      var keep := ids != [] && CategoryId(p).Some? && CategoryId(p).value in ids && (slugs == [] || InSlugs(p, slugs));
      (if keep then [p] else []) + LandingProducts(products[1..], cats, root, slugs)
  }

  /** A product is listed exactly when it sits in the tree and matches the slug selection. */
  lemma {:induction false} LandingProductsSpec(products: seq<Product>, cats: seq<Category>, root: string, slugs: seq<string>, p: Product)
    requires p in products
    ensures var ids := IdsForCategoryAndChildren(cats, root).0;
      p in LandingProducts(products, cats, root, slugs) <==>
        (CategoryId(p).Some? && CategoryId(p).value in ids && (slugs == [] || InSlugs(p, slugs)))
  {
    var ids := IdsForCategoryAndChildren(cats, root).0;
    if products[0] != p {
      LandingProductsSpec(products[1..], cats, root, slugs, p);
    } else if p in products[1..] {
      LandingProductsSpec(products[1..], cats, root, slugs, p);
    }
  }

  /**
   * The listing keeps the queryset's order: listing two runs of products one
   * after the other lists the first run's kept products before the second's.
   */
  lemma {:induction false} LandingProductsAppend(a: seq<Product>, b: seq<Product>, cats: seq<Category>, root: string, slugs: seq<string>)
    ensures LandingProducts(a + b, cats, root, slugs) == LandingProducts(a, cats, root, slugs) + LandingProducts(b, cats, root, slugs)
  {
    if a == [] {
      assert a + b == b;
    } else {
      assert (a + b)[1..] == a[1..] + b;
      LandingProductsAppend(a[1..], b, cats, root, slugs);
    }
  }

  /** A landing page whose root category does not exist lists nothing. */
  lemma UnknownRootListsNothing(products: seq<Product>, cats: seq<Category>, root: string, slugs: seq<string>)
    requires forall c <- cats :: c.slug != Some(root)
    ensures LandingProducts(products, cats, root, slugs) == []
  {
    IdsForCategoryAndChildrenSpec(cats, root);
    if LandingProducts(products, cats, root, slugs) != [] {
      var p := LandingProducts(products, cats, root, slugs)[0];
      LandingProductsSpec(products, cats, root, slugs, p);
    }
  }
}
