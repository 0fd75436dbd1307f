/**
 * The older, strict bag summary (bag/contexts.py): every bag entry must name
 * an existing product by an integer key and hold a numeric quantity, or the
 * whole request fails with an exception.
 */
module BagContexts {
  import opened Wrappers
  import opened Text
  import opened Catalog
  import opened SessionState
  import PyDict

  /** One summary line: the product, the quantity as stored, and price times quantity. */
  datatype BagItem = BagItem(product: Product, quantity: int, lineTotal: Cents)

  /** The summary the template receives. */
  datatype Contents = Contents(items: seq<BagItem>, total: Cents, count: int)

  /**
   * One entry: `int(pid)` must succeed, `Product.objects.get` must find the
   * product, and `price * qty` needs a number (a text or null quantity raises).
   */
  function StrictItem(store: Store, key: string, v: Value): (r: Option<BagItem>)
    ensures r.Some? <==> Accepted(store, key, v)
    ensures r.Some? ==>
      && r.value.product == store.products[ParseInt(key).value]
      && r.value.quantity == v.n
      && r.value.lineTotal == r.value.product.price * r.value.quantity
  {
    match ParseInt(key)
    case None => None
    case Some(pid) =>
      if pid !in store.products || !v.Num? then None
      else Some(BagItem(store.products[pid], v.n, store.products[pid].price * v.n))
  }

  /** An entry the strict summary accepts. */
  predicate Accepted(store: Store, key: string, v: Value) {
    && ParseInt(key).Some?
    && ParseInt(key).value in store.products
    && v.Num?
  }

  /**
   * The items of the whole bag, in iteration order, or None as soon as one
   * entry raises.
   */
  function StrictItems(store: Store, bag: Bag): (r: Option<seq<BagItem>>)
    ensures r.Some? <==> forall i :: 0 <= i < |bag| ==> Accepted(store, bag[i].0, bag[i].1)
    ensures r.Some? ==> |r.value| == |bag|
  {
    if bag == [] then Some([])
    else
      var init := bag[..|bag| - 1];
      var last := bag[|bag| - 1];
      AllAcceptedSnoc(store, bag);
      match StrictItems(store, init)
      case None => None
      case Some(items) =>
        match StrictItem(store, last.0, last.1)
        case None => None
        case Some(item) => Some(items + [item])
  }

  predicate AllAccepted(store: Store, bag: Bag) {
    forall i :: 0 <= i < |bag| ==> Accepted(store, bag[i].0, bag[i].1)
  }

  /** Every entry is accepted exactly when every entry but the last is, and the last is. */
  lemma AllAcceptedSnoc(store: Store, bag: Bag)
    requires bag != []
    ensures AllAccepted(store, bag) <==>
      AllAccepted(store, bag[..|bag| - 1]) && Accepted(store, bag[|bag| - 1].0, bag[|bag| - 1].1)
  {
    var init := bag[..|bag| - 1];
    assert forall i :: 0 <= i < |init| ==> init[i] == bag[i];
  }

  /** Item `i` of the summary is entry `i` of the bag, priced on its own. */
  lemma {:induction false} StrictItemsAt(store: Store, bag: Bag, i: int)
    requires StrictItems(store, bag).Some? && 0 <= i < |bag|
    ensures StrictItems(store, bag).value[i] == StrictItem(store, bag[i].0, bag[i].1).value
  {
    var init := bag[..|bag| - 1];
    if i < |bag| - 1 {
      StrictItemsAt(store, init, i);
    }
  }

  /** The sum of the line totals. */
  function LineSum(items: seq<BagItem>): Cents {
    if items == [] then 0 else LineSum(items[..|items| - 1]) + items[|items| - 1].lineTotal
  }

  /** `sum(bag.values())`: defined only when every value is a number. */
  function ValueSum(bag: Bag): Option<int> {
    if bag == [] then Some(0)
    else
      match ValueSum(bag[..|bag| - 1])
      case None => None
      case Some(s) => if bag[|bag| - 1].1.Num? then Some(s + bag[|bag| - 1].1.n) else None
  }

  /** The sum of the item quantities. */
  function QuantitySum(items: seq<BagItem>): int {
    if items == [] then 0 else QuantitySum(items[..|items| - 1]) + items[|items| - 1].quantity
  }

  /**
   * Once every entry is accepted, `sum(bag.values())` is defined and equals
   * the sum of the quantities the items carry.
   */
  lemma {:induction false} ValueSumOfAccepted(store: Store, bag: Bag)
    requires StrictItems(store, bag).Some?
    ensures ValueSum(bag) == Some(QuantitySum(StrictItems(store, bag).value))
  {
    if bag != [] {
      var init := bag[..|bag| - 1];
      ValueSumOfAccepted(store, init);
      var last := bag[|bag| - 1];
      var item := StrictItem(store, last.0, last.1).value;
      assert StrictItems(store, bag).value == StrictItems(store, init).value + [item];
      assert last.1.Num? && item.quantity == last.1.n;
    }
  }

  /**
   * `bag_contents`: the strict summary, or ServerError when an entry's key is
   * not an integer, names no product, or holds a non-numeric quantity.
   */
  method BagContents(s: Session, store: Store) returns (r: Result<Contents, Response>)
    ensures r.Err? <==> StrictItems(store, s.Contents()).None?
    ensures r.Err? ==> r.error == ServerError
    ensures r.Ok? ==>
      && r.value.items == StrictItems(store, s.Contents()).value
      && r.value.total == LineSum(r.value.items)
      && r.value.count == QuantitySum(r.value.items)
  {
    r := Summarize(store, s.Contents());
  }

  /** The loop of `bag_contents` over the bag's entries, then the count. */
  method Summarize(store: Store, bag: Bag) returns (r: Result<Contents, Response>)
    ensures r.Err? <==> StrictItems(store, bag).None?
    ensures r.Err? ==> r.error == ServerError
    ensures r.Ok? ==>
      && r.value.items == StrictItems(store, bag).value
      && r.value.total == LineSum(r.value.items)
      && r.value.count == QuantitySum(r.value.items)
  {
    var items: seq<BagItem> := [];
    var total: Cents := 0;
    var i := 0;
    while i < |bag|
      invariant 0 <= i <= |bag|
      invariant StrictItems(store, bag[..i]) == Some(items)
      invariant total == LineSum(items)
    {
      var (key, qty) := bag[i];
      match StrictItem(store, key, qty)
      case None =>
        assert !Accepted(store, bag[i].0, bag[i].1);
        return Err(ServerError);
      case Some(item) =>
        assert bag[..i + 1][..i] == bag[..i];
        items := items + [item];
        total := total + item.lineTotal;
        i := i + 1;
    }
    assert bag[..i] == bag;
    var count := 0;
    if bag != [] {
      ValueSumOfAccepted(store, bag);
      count := ValueSum(bag).value;
    }
    r := Ok(Contents(items, total, count));
  }

  /**
   * The key `"5_3"` that the bag views write for option 3 of product 5 is read
   * by `int()` as 53 (underscores group digits): the summary prices product 53,
   * and raises only when there is no product 53.
   */
  lemma SuffixedKeyReadAsOtherProduct(store: Store)
    ensures ParseInt("5_3") == Some(53)
    ensures StrictItem(store, "5_3", Num(1)).Some? <==> 53 in store.products
  {
    SuffixedKeyParses();
  }

  lemma SuffixedKeyParses()
    ensures ParseInt("5_3") == Some(53)
  {
    StripNoSpace("5_3");
    assert DropUnderscores("5_3") == "53" by {
      assert "5_3" == ['5'] + ("_3");
      assert "_3" == ['_'] + "3";
    }
    assert DigitsValue("53") == 53 by {
      assert "53"[..1] == "5";
    }
  }
}
