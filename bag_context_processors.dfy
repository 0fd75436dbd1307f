/**
 * The header's bag summary (bag/context_processors.py): a lenient count of the
 * quantities that `int()` accepts, and a total that is always zero.
 */
module BagContextProcessors {
  import opened Wrappers
  import opened Catalog
  import opened SessionState
  import opened CheckoutViews
  import opened BagContexts

  /** The sum of `int(qty)` over the entries whose quantity converts; the rest add nothing. */
  function LenientCount(bag: Bag): int {
    if bag == [] then 0
    else
      LenientCount(bag[..|bag| - 1])
      + match QuantityOf(bag[|bag| - 1].1) case Some(q) => q case None => 0
  }

  /**
   * `bag_totals`: the count as above (0 for a missing bag) and a total of
   * 0.00 whatever the bag holds. Only the session is read.
   */
  method BagTotals(s: Session) returns (count: int, total: Cents)
    ensures count == LenientCount(s.Contents())
    ensures total == 0
  {
    var bag := s.Contents();
    count := 0;
    var i := 0;
    while i < |bag|
      invariant 0 <= i <= |bag|
      invariant count == LenientCount(bag[..i])
    {
      assert bag[..i + 1][..i] == bag[..i];
      var q := QuantityOf(bag[i].1);
      if q.Some? {
        count := count + q.value;
      }
      i := i + 1;
    }
    assert bag[..i] == bag;
    total := 0;
  }

  /**
   * Keys play no part: two bags holding the same values in the same order
   * get the same count.
   */
  lemma {:induction false} LenientCountIgnoresKeys(a: Bag, b: Bag)
    requires |a| == |b|
    requires forall i :: 0 <= i < |a| ==> a[i].1 == b[i].1
    ensures LenientCount(a) == LenientCount(b)
  {
    if a != [] {
      LenientCountIgnoresKeys(a[..|a| - 1], b[..|b| - 1]);
    }
  }

  /**
   * On a bag the strict summary accepts, the lenient count is the strict
   * `bag_count`: every quantity is a number and counts as itself.
   */
  lemma {:induction false} LenientCountOfAccepted(store: Store, bag: Bag)
    requires StrictItems(store, bag).Some?
    ensures LenientCount(bag) == QuantitySum(StrictItems(store, bag).value)
  {
    if bag != [] {
      var init := bag[..|bag| - 1];
      LenientCountOfAccepted(store, init);
      var last := bag[|bag| - 1];
      var item := StrictItem(store, last.0, last.1).value;
      assert StrictItems(store, bag).value == StrictItems(store, init).value + [item];
    }
  }

  /**
   * A quantity `int()` rejects is skipped rather than raised: adding such an
   * entry leaves the count as it was, where the strict summary fails.
   */
  lemma UnconvertibleEntrySkipped(store: Store, bag: Bag, key: string)
    ensures LenientCount(bag + [(key, Null)]) == LenientCount(bag)
    ensures StrictItems(store, bag + [(key, Null)]).None?
  {
    assert (bag + [(key, Null)])[..|bag|] == bag;
    assert !Accepted(store, (bag + [(key, Null)])[|bag|].0, (bag + [(key, Null)])[|bag|].1);
  }
}
