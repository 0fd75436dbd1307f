/**
 * The checkout view (checkout/views.py): price the session bag line by line,
 * derive the totals, and on a valid form store the order with one line item
 * per priced line and empty the bag.
 */
module CheckoutViews {
  import opened Wrappers
  import opened Text
  import opened Catalog
  import opened SessionState
  import opened CheckoutModels
  import PyDict
  import BagKey

  // ---------------------------------------------------------------------------
  // Pricing the bag
  // ---------------------------------------------------------------------------

  /** One priced line of the bag, as the view hands it to the template and the order. */
  datatype PricedLine = PricedLine(
    product: Product,
    option: Option<ProductOption>,
    quantity: int,
    unitPrice: Cents,
    lineTotal: Cents,
    key: string)

  /** `_pack_price`: the option's pack price when an option resolved, else the product's price. */
  function PackPrice(product: Product, option: Option<ProductOption>): Cents {
    if option.Some? then option.value.packPrice else product.price
  }

  /** `int(qty)` on a stored quantity; None where it raises. */
  function QuantityOf(v: Value): Option<int> {
    match v
    case Num(n) => Some(n)
    case Text(s) => ParseInt(s)
    case Null => None
  }

  /**
   * The option a decoded key names, used only when its id is non-zero and the
   * option belongs to the key's product.
   */
  function ResolveOption(store: Store, productId: int, optionId: Option<int>): Option<ProductOption> {
    if optionId.Some? && optionId.value != 0 && optionId.value in store.options
       && store.options[optionId.value].productId == productId
    then Some(store.options[optionId.value])
    else None
  }

  /**
   * One entry of the bag priced, or None when it is skipped: a key or a
   * quantity `int()` rejects, or a product id that names no product.
   */
  function PriceEntry(store: Store, key: string, v: Value): Option<PricedLine> {
    match BagKey.Decode(key)
    case None => None
    case Some(k) =>
      match QuantityOf(v)
      case None => None
      case Some(q) =>
        if k.productId !in store.products then None
        else
          var product := store.products[k.productId];
          var option := ResolveOption(store, k.productId, k.optionId);
          var unit := PackPrice(product, option);
          Some(PricedLine(product, option, q, unit, unit * q, key))
  }

  /** The priced lines of a bag, in the bag's order. */
  function PricedLines(store: Store, bag: Bag): seq<PricedLine> {
    if bag == [] then []
    else
      var last := bag[|bag| - 1];
      PricedLines(store, bag[..|bag| - 1]) +
        match PriceEntry(store, last.0, last.1)
        case None => []
        case Some(line) => [line]
  }

  /** The sum of the line totals. */
  function Subtotal(lines: seq<PricedLine>): Cents {
    if lines == [] then 0 else Subtotal(lines[..|lines| - 1]) + lines[|lines| - 1].lineTotal
  }

  /** A line as pricing makes it: from a stored product, priced by its pack or product price. */
  ghost predicate WellPriced(store: Store, line: PricedLine) {
    && line.product.id in store.products
    && store.products[line.product.id] == line.product
    && line.unitPrice == PackPrice(line.product, line.option)
    && line.lineTotal == line.unitPrice * line.quantity
    && (line.option.Some? ==>
          line.option.value.productId == line.product.id && line.option.value.id != 0 &&
          line.option.value.id in store.options && store.options[line.option.value.id] == line.option.value)
  }

  /**
   * `_session_items`: walks the bag in order, skipping the entries it cannot
   * price and accumulating the subtotal.
   */
  method SessionItems(s: Session, store: Store) returns (items: seq<PricedLine>, subtotal: Cents)
    ensures items == PricedLines(store, s.Contents())
    ensures subtotal == Subtotal(items)
  {
    items, subtotal := PriceBag(store, s.Contents());
  }

  /** The loop of `_session_items` over the bag's entries, in order. */
  method PriceBag(store: Store, bag: Bag) returns (items: seq<PricedLine>, subtotal: Cents)
    ensures items == PricedLines(store, bag)
    ensures subtotal == Subtotal(items)
  {
    items := [];
    subtotal := 0;
    var i := 0;
    while i < |bag|
      invariant 0 <= i <= |bag|
      invariant items == PricedLines(store, bag[..i])
      invariant subtotal == Subtotal(items)
    {
      items, subtotal := AddEntry(store, bag, i, items, subtotal);
      i := i + 1;
    }
    assert bag[..|bag|] == bag;
  }

  /** One pass of the loop: entry `i` priced and, unless skipped, appended and added to the subtotal. */
  method AddEntry(store: Store, bag: Bag, i: nat, items: seq<PricedLine>, subtotal: Cents)
    returns (items': seq<PricedLine>, subtotal': Cents)
    requires i < |bag| && items == PricedLines(store, bag[..i]) && subtotal == Subtotal(items)
    ensures items' == PricedLines(store, bag[..i + 1]) && subtotal' == Subtotal(items')
  {
    var priced := PriceOne(store, bag[i].0, bag[i].1);
    PricedLinesSnoc(store, bag, i, items, priced);
    if priced.Some? {
      SubtotalSnoc(items, priced.value);
      items' := items + [priced.value];
      subtotal' := subtotal + priced.value.lineTotal;
    } else {
      items', subtotal' := items, subtotal;
    }
  }

  /** The pricing of one entry in `_session_items`: the line, or None when the entry is skipped. */
  method PriceOne(store: Store, key: string, qty: Value) returns (priced: Option<PricedLine>)
    ensures priced == PriceEntry(store, key, qty)
  {
    var k := BagKey.Decode(key);
    var quantity := QuantityOf(qty);
    if k.None? || quantity.None? {
      return None;
    }
    if k.value.productId !in store.products {
      return None;
    }
    var product := store.products[k.value.productId];
    var option := ResolveOption(store, k.value.productId, k.value.optionId);
    var unitPrice := PackPrice(product, option);
    var lineTotal := unitPrice * quantity.value;
    priced := Some(PricedLine(product, option, quantity.value, unitPrice, lineTotal, key));
  }

  /** Pricing one more entry of the bag appends its line, if it has one. */
  lemma PricedLinesSnoc(store: Store, bag: Bag, i: nat, items: seq<PricedLine>, priced: Option<PricedLine>)
    requires i < |bag| && items == PricedLines(store, bag[..i])
    requires priced == PriceEntry(store, bag[i].0, bag[i].1)
    ensures priced.None? ==> PricedLines(store, bag[..i + 1]) == items
    ensures priced.Some? ==> PricedLines(store, bag[..i + 1]) == items + [priced.value]
  {
    assert bag[..i + 1][..i] == bag[..i];
  }

  /** One more line adds its total to the subtotal. */
  lemma SubtotalSnoc(lines: seq<PricedLine>, line: PricedLine)
    ensures Subtotal(lines + [line]) == Subtotal(lines) + line.lineTotal
  {
    assert (lines + [line])[..|lines|] == lines;
  }

  /**
   * Every priced line comes from a stored product and, when it has one, an
   * option of that product with a non-zero id; its unit price is the pack
   * price or the product price and its total is unit price times quantity.
   * There are never more lines than bag entries.
   */
  lemma {:induction false} PricedLinesWellPriced(store: Store, bag: Bag)
    requires store.Valid()
    ensures |PricedLines(store, bag)| <= |bag|
    ensures forall i :: 0 <= i < |PricedLines(store, bag)| ==> WellPriced(store, PricedLines(store, bag)[i])
  {
    if bag != [] {
      var init := bag[..|bag| - 1];
      PricedLinesWellPriced(store, init);
      var last := bag[|bag| - 1];
      var e := PriceEntry(store, last.0, last.1);
      if e.Some? {
        var k := BagKey.Decode(last.0).value;
        assert store.products[k.productId].id == k.productId;
        var o := ResolveOption(store, k.productId, k.optionId);
        if o.Some? {
          assert store.options[k.optionId.value].id == k.optionId.value;
        }
        assert WellPriced(store, e.value);
      }
    }
  }

  /**
   * A line the bag views wrote for a product without option, holding a whole
   * quantity, is priced at the product's price.
   */
  lemma PriceEntryOfPlainLine(store: Store, productId: int, q: int)
    requires productId in store.products
    ensures PriceEntry(store, BagKey.Encode(productId, None), Num(q)) ==
      var p := store.products[productId];
      Some(PricedLine(p, None, q, p.price, p.price * q, BagKey.Encode(productId, None)))
  {
    BagKey.DecodeEncode(productId, None);
  }

  /**
   * A line the bag views wrote for an option of the product is priced at the
   * option's pack price, unless the option id is 0, which is ignored.
   */
  lemma PriceEntryOfOptionLine(store: Store, productId: int, optionId: int, q: int)
    requires productId in store.products
    requires optionId in store.options && store.options[optionId].productId == productId
    ensures var p := store.products[productId];
      var o := store.options[optionId];
      var key := BagKey.Encode(productId, Some(optionId));
      PriceEntry(store, key, Num(q)) ==
        if optionId != 0 then Some(PricedLine(p, Some(o), q, o.packPrice, o.packPrice * q, key))
        else Some(PricedLine(p, None, q, p.price, p.price * q, key))
  {
    BagKey.DecodeEncode(productId, Some(optionId));
  }

  /** Subtotals add up over concatenation. */
  lemma {:induction false} SubtotalAppend(a: seq<PricedLine>, b: seq<PricedLine>)
    ensures Subtotal(a + b) == Subtotal(a) + Subtotal(b)
    decreases |b|
  {
    if b == [] {
      assert a + b == a;
    } else {
      assert (a + b)[..|a + b| - 1] == a + b[..|b| - 1];
      assert (a + b)[|a + b| - 1] == b[|b| - 1];
      SubtotalAppend(a, b[..|b| - 1]);
    }
  }

  /**
   * Quantities are not filtered, so the subtotal is only guaranteed
   * non-negative when every quantity and unit price is.
   */
  lemma {:induction false} SubtotalNonNegative(lines: seq<PricedLine>)
    requires forall i :: 0 <= i < |lines| ==>
      lines[i].lineTotal == lines[i].unitPrice * lines[i].quantity &&
      lines[i].unitPrice >= 0 && lines[i].quantity >= 0
    ensures Subtotal(lines) >= 0
  {
    if lines != [] {
      var last := lines[|lines| - 1];
      assert last.unitPrice * last.quantity >= 0;
      SubtotalNonNegative(lines[..|lines| - 1]);
    }
  }

  // ---------------------------------------------------------------------------
  // Totals and the payment
  // ---------------------------------------------------------------------------

  /**
   * What the bag context reports (its `bag_contents` is not part of this
   * model): each value is absent when the context leaves the key out.
   */
  datatype BagSummary = BagSummary(
    total: Option<Cents>,
    delivery: Option<Cents>,
    discountAmount: Option<Cents>,
    discountCode: Option<string>)

  datatype Totals = Totals(
    subtotal: Cents,
    delivery: Cents,
    discountAmount: Cents,
    discountCode: string,
    preDiscount: Cents,
    grandTotal: Cents)

  /**
   * The totals of the checkout page: the context's total (else the priced
   * subtotal) plus delivery (else 0.00); the discount is the context's
   * (else 0.00) and its code the context's (else empty); the grand total
   * takes off the discount and never goes below 0.00.
   */
  function CheckoutTotals(summary: BagSummary, itemsSubtotal: Cents): (t: Totals)
    ensures t.subtotal == summary.total.GetOr(itemsSubtotal)
    ensures t.delivery == summary.delivery.GetOr(0)
    ensures t.discountAmount == summary.discountAmount.GetOr(0)
    ensures t.discountCode == summary.discountCode.GetOr("")
    ensures t.preDiscount == t.subtotal + t.delivery
    ensures t.grandTotal >= 0 && t.grandTotal >= t.preDiscount - t.discountAmount
    ensures t.grandTotal == 0 || t.grandTotal == t.preDiscount - t.discountAmount
  {
    var subtotal := summary.total.GetOr(itemsSubtotal);
    var delivery := summary.delivery.GetOr(0);
    var discount := summary.discountAmount.GetOr(0);
    var code := summary.discountCode.GetOr("");
    var pre := subtotal + delivery;
    var grand := pre - discount;
    Totals(subtotal, delivery, discount, code, pre, if grand < 0 then 0 else grand)
  }

  /**
   * The amount asked of the payment provider, in cents (`int(grand_total *
   * 100)`): only when both keys are configured and there is something to pay.
   */
  function PaymentAmount(keysConfigured: bool, t: Totals): Option<int> {
    if keysConfigured && t.grandTotal > 0 then Some(t.grandTotal) else None
  }

  /**
   * A payment is requested only for a positive amount, and then it is exactly
   * the order's grand total: the floor at zero never affects a charged amount.
   */
  lemma PaymentMatchesOrder(keysConfigured: bool, summary: BagSummary, itemsSubtotal: Cents, o: Order)
    requires var t := CheckoutTotals(summary, itemsSubtotal);
      o.orderTotal == t.preDiscount && o.discountAmount == t.discountAmount
    requires PaymentAmount(keysConfigured, CheckoutTotals(summary, itemsSubtotal)).Some?
    ensures PaymentAmount(keysConfigured, CheckoutTotals(summary, itemsSubtotal)).value > 0
    ensures PaymentAmount(keysConfigured, CheckoutTotals(summary, itemsSubtotal)).value == o.GrandTotal()
  {
  }

  /**
   * The payment reference stored on the order: the text of the client secret
   * before its first `"_secret"`, or `""` when there is none.
   */
  function PaymentReference(clientSecret: string): string {
    if Contains(clientSecret, "_secret") then Split(clientSecret, "_secret")[0] else ""
  }

  /** The reference is the prefix before the first `"_secret"`, and never contains one. */
  lemma PaymentReferenceSpec(clientSecret: string)
    ensures var r := PaymentReference(clientSecret);
      && (IndexOf(clientSecret, "_secret").Some? ==> r == clientSecret[..IndexOf(clientSecret, "_secret").value])
      && (IndexOf(clientSecret, "_secret").None? ==> r == "")
      && !Contains(r, "_secret")
  {
    SplitPiecesFree(clientSecret, "_secret");
    var parts := Split(clientSecret, "_secret");
    assert parts[0] in parts;
  }

  /**
   * A client secret of the form `<pid>_secret<rest>` yields `<pid>` whenever
   * the pid itself holds no `"_secret"`: no occurrence can straddle the join,
   * because no proper suffix of `"_secret"`'s start is followed by `_`.
   */
  lemma PaymentReferenceOfSecret(pid: string, rest: string)
    requires !Contains(pid, "_secret")
    ensures PaymentReference(pid + "_secret" + rest) == pid
  {
    var marker := "_secret";
    var s := pid + marker + rest;
    assert s[|pid|..|pid| + 7] == marker;
    assert OccursAt(s, marker, |pid|);
    forall j | 0 <= j < |pid|
      ensures !OccursAt(s, marker, j)
    {
      if j + 7 <= |pid| {
        assert s[j..j + 7] == pid[j..j + 7];
        assert !OccursAt(pid, marker, j);
      } else {
        var m := |pid| - j;
        assert 1 <= m < 7;
        assert s[|pid|] == '_';
        assert marker[m] != '_';
        if j + 7 <= |s| {
          assert s[j..j + 7][m] == s[|pid|];
        }
      }
    }
    assert IndexOf(s, marker) == Some(|pid|);
    PaymentReferenceSpec(s);
    assert s[..|pid|] == pid;
  }

  // ---------------------------------------------------------------------------
  // The name saved on the account, and who may see an order
  // ---------------------------------------------------------------------------

  /**
   * The first and last name saved from the order form's full name: nothing
   * when it is blank; otherwise its first word and the rest joined by single
   * spaces.
   */
  function NameParts(fullName: Option<string>): Option<(string, string)> {
    var full := Strip(fullName.GetOr(""));
    if full == "" then None
    else
      StripSpec(fullName.GetOr(""));
      var parts := Words(full);
      Some((parts[0], if |parts| > 1 then Join(parts[1..], " ") else ""))
  }

  /**
   * The first name is one word, and splitting the last name gives back the
   * remaining words of the full name: re-joining loses only extra whitespace.
   */
  lemma NamePartsSpec(fullName: Option<string>)
    ensures NameParts(fullName).None? <==> Strip(fullName.GetOr("")) == ""
    ensures NameParts(fullName).Some? ==>
      var (first, last) := NameParts(fullName).value;
      var ws := Words(Strip(fullName.GetOr("")));
      && IsWord(first)
      && ws == [first] + Words(last)
  {
    var full := Strip(fullName.GetOr(""));
    if full != "" {
      StripSpec(fullName.GetOr(""));
      FirstWordAndRest(Words(full));
    }
  }

  /** A non-empty list of words is its first word followed by the words of the rest joined by spaces. */
  lemma FirstWordAndRest(ws: seq<string>)
    requires ws != [] && forall w <- ws :: |w| > 0 && forall c <- w :: !IsSpace(c)
    ensures IsWord(ws[0])
    ensures ws == [ws[0]] + Words(if |ws| > 1 then Join(ws[1..], " ") else "")
  {
    assert ws[0] in ws;
    if |ws| == 1 {
      assert LeadingSpaces("") == 0;
      assert ws == [ws[0]] + [];
    } else {
      var rest := ws[1..];
      forall i | 0 <= i < |rest| ensures IsWord(rest[i]) {
        assert rest[i] == ws[i + 1];
        assert ws[i + 1] in ws;
      }
      WordsOfJoin(rest);
      assert ws == [ws[0]] + rest;
    }
  }

  /** `checkout_success` and `order_detail` let in staff and the order's owner. */
  predicate CanViewOrder(order: Order, user: User)
    reads order
  {
    user.isStaff || order.userId == Some(user.id)
  }

  /** The answer of an order page: 404 for an unknown order, 403 for anyone else. */
  function OrderPage(orders: map<int, Order>, orderId: int, user: User): (r: Response)
    reads orders.Values
    ensures r == NotFound <==> orderId !in orders
    ensures r == Done <==> orderId in orders && (user.isStaff || orders[orderId].userId == Some(user.id))
    ensures r == Forbidden <==> orderId in orders && !user.isStaff && orders[orderId].userId != Some(user.id)
  {
    if orderId !in orders then NotFound
    else if !CanViewOrder(orders[orderId], user) then Forbidden
    else Done
  }

  // ---------------------------------------------------------------------------
  // Placing the order
  // ---------------------------------------------------------------------------

  /** The order's line items mirror the priced lines, each saved with its captured price. */
  ghost predicate LinesMirror(lineitems: seq<OrderLineItem>, lines: seq<PricedLine>)
    reads lineitems
  {
    && |lineitems| == |lines|
    && forall i :: 0 <= i < |lines| ==>
         && lineitems[i].product == lines[i].product
         && lineitems[i].option == lines[i].option
         && lineitems[i].quantity == lines[i].quantity
         && lineitems[i].lineitemPrice == SavedPrice(lines[i].unitPrice, lines[i].option, lines[i].product)
         && lineitems[i].Valid()
  }

  /**
   * `checkout`: with nothing priceable it changes nothing. Otherwise the
   * removed-discount notice is consumed, and on a valid POSTed form the order
   * is stored with the pre-discount total, the discount and the payment
   * reference, one line item per priced line, and the bag is emptied with the
   * discount and notice gone.
   */
  method Checkout(s: Session, store: Store, summary: BagSummary, user: User,
                  isPost: bool, formValid: bool, clientSecret: string)
    returns (order: Order?)
    requires s.Valid()
    modifies s`bag, s`discount, s`removedNotice
    ensures s.Valid()
    ensures PricedLines(store, old(s.Contents())) == [] ==>
      order == null && s.bag == old(s.bag) && s.discount == old(s.discount) && s.removedNotice == old(s.removedNotice)
    ensures PricedLines(store, old(s.Contents())) != [] ==> s.removedNotice == None
    ensures PricedLines(store, old(s.Contents())) != [] && !(isPost && formValid) ==>
      order == null && s.bag == old(s.bag) && s.discount == old(s.discount)
    ensures PricedLines(store, old(s.Contents())) != [] && isPost && formValid ==>
      var lines := PricedLines(store, old(s.Contents()));
      var t := CheckoutTotals(summary, Subtotal(lines));
      && order != null && fresh(order)
      && order.userId == Some(user.id)
      && order.stripePid == PaymentReference(clientSecret)
      && order.originalBag == old(s.Contents())
      && order.orderTotal == t.preDiscount
      && order.discountAmount == t.discountAmount
      && order.discountCode == t.discountCode
      && !order.paid
      && (forall i :: 0 <= i < |order.lineitems| ==> fresh(order.lineitems[i]))
      && LinesMirror(order.lineitems, lines)
      && s.bag == Some([]) && s.discount == None
  {
    var items, subtotal := SessionItems(s, store);
    if items == [] {
      return null;
    }
    s.removedNotice := None;
    var t := CheckoutTotals(summary, subtotal);
    if !(isPost && formValid) {
      return null;
    }
    order := PlaceOrder(s, items, t, user, clientSecret);
  }

  /**
   * The valid-POST branch of `checkout`: the order is created from the totals
   * and the bag as it stands, its line items from the priced lines, and the
   * bag and discount are cleared.
   */
  method PlaceOrder(s: Session, items: seq<PricedLine>, t: Totals, user: User, clientSecret: string)
    returns (order: Order)
    requires s.Valid()
    modifies s`bag, s`discount
    ensures s.Valid()
    ensures fresh(order)
    ensures order.userId == Some(user.id)
    ensures order.stripePid == PaymentReference(clientSecret)
    ensures order.originalBag == old(s.Contents())
    ensures order.orderTotal == t.preDiscount
    ensures order.discountAmount == t.discountAmount
    ensures order.discountCode == t.discountCode
    ensures !order.paid
    ensures forall i :: 0 <= i < |order.lineitems| ==> fresh(order.lineitems[i])
    ensures LinesMirror(order.lineitems, items)
    ensures s.bag == Some([]) && s.discount == None
  {
    var bag := s.Contents();
    order := new Order(Some(user.id), t.preDiscount, t.discountAmount, t.discountCode,
                       PaymentReference(clientSecret), bag);
    CreateLineItems(order, items);
    s.bag := Some([]);
    s.discount := None;
  }

  /** `OrderLineItem.objects.create(...)` for each priced line, in order, at its captured unit price. */
  method CreateLineItems(order: Order, items: seq<PricedLine>)
    requires order.lineitems == []
    modifies order`lineitems
    ensures (forall i :: 0 <= i < |order.lineitems| ==> fresh(order.lineitems[i]))
    ensures LinesMirror(order.lineitems, items)
  {
    var i := 0;
    while i < |items|
      invariant 0 <= i <= |items|
      invariant forall j :: 0 <= j < |order.lineitems| ==> fresh(order.lineitems[j])
      invariant LinesMirror(order.lineitems, items[..i])
    {
      var line := items[i];
      var li := new OrderLineItem(line.product, line.option, line.quantity, line.unitPrice);
      li.Save();
      MirrorSnoc(order.lineitems, items[..i], li, line);
      assert items[..i + 1] == items[..i] + [line];
      order.lineitems := order.lineitems + [li];
      i := i + 1;
    }
    assert items[..|items|] == items;
  }

  /** A line item saved from the next priced line extends the mirror by one. */
  lemma MirrorSnoc(lineitems: seq<OrderLineItem>, lines: seq<PricedLine>, li: OrderLineItem, line: PricedLine)
    requires LinesMirror(lineitems, lines)
    requires li.product == line.product && li.option == line.option && li.quantity == line.quantity
    requires li.lineitemPrice == SavedPrice(line.unitPrice, line.option, line.product) && li.Valid()
    ensures LinesMirror(lineitems + [li], lines + [line])
  {
  }
}
