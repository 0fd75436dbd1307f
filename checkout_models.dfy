/**
 * The order records (checkout/models.py): an order keeps its pre-discount
 * total and its discount apart and derives the grand total; a line item fixes
 * its unit price and total when it is saved.
 */
module CheckoutModels {
  import opened Wrappers
  import opened Catalog
  import opened SessionState

  /**
   * The unit price a line item keeps when saved: a captured price above zero
   * stays; otherwise the option's price when it has a non-zero one, else the
   * product's price.
   */
  function SavedPrice(captured: Cents, option: Option<ProductOption>, product: Product): Cents {
    if captured > 0 then captured
    else if option.Some? && option.value.price.Some? && option.value.price.value != 0 then option.value.price.value
    else product.price
  }

  /** Saving again changes nothing: the stored price is already what a save would pick. */
  lemma SavedPriceIdempotent(captured: Cents, option: Option<ProductOption>, product: Product)
    ensures SavedPrice(SavedPrice(captured, option, product), option, product) == SavedPrice(captured, option, product)
  {
  }

  /** One line of an order. */
  class OrderLineItem {
    var product: Product
    var option: Option<ProductOption>
    var quantity: int
    /** `lineitem_price`, defaulting to 0.00. */
    var lineitemPrice: Cents
    /** `lineitem_total`, set by every save. */
    var lineitemTotal: Cents

    /** Every saved line item's total is its price times its quantity. */
    ghost predicate Valid()
      reads this
    {
      lineitemTotal == lineitemPrice * quantity
    }

    /** A new, unsaved line item; `OrderLineItem.objects.create` saves it straight away. */
    constructor (product: Product, option: Option<ProductOption>, quantity: int, price: Cents)
      ensures this.product == product && this.option == option && this.quantity == quantity
      ensures lineitemPrice == price
    {
      this.product := product;
      this.option := option;
      this.quantity := quantity;
      lineitemPrice := price;
      lineitemTotal := 0;
    }

    /** `save()`: fixes the unit price by the fallback rule and recomputes the total. */
    method Save()
      modifies this`lineitemPrice, this`lineitemTotal
      ensures Valid()
      ensures lineitemPrice == SavedPrice(old(lineitemPrice), option, product)
      ensures old(lineitemPrice) > 0 ==> lineitemPrice == old(lineitemPrice)
    {
      var unit := lineitemPrice;
      if unit <= 0 {
        if option.Some? && option.value.price.Some? && option.value.price.value != 0 {
          unit := option.value.price.value;
        } else {
          unit := product.price;
        }
        lineitemPrice := unit;
      }
      lineitemTotal := unit * quantity;
    }
  }

  /** The sum of the line totals, 0.00 for no lines. */
  function LineTotals(items: seq<OrderLineItem>): Cents
    reads items
  {
    if items == [] then 0 else LineTotals(items[..|items| - 1]) + items[|items| - 1].lineitemTotal
  }

  /** Sums split over concatenation. */
  lemma {:induction false} LineTotalsAppend(a: seq<OrderLineItem>, b: seq<OrderLineItem>)
    ensures LineTotals(a + b) == LineTotals(a) + LineTotals(b)
    decreases |b|
  {
    if b == [] {
      assert a + b == a;
    } else {
      assert (a + b)[..|a + b| - 1] == a + b[..|b| - 1];
      assert (a + b)[|a + b| - 1] == b[|b| - 1];
      LineTotalsAppend(a, b[..|b| - 1]);
    }
  }

  /** With saved line items, the order total is the sum of price times quantity. */
  lemma {:induction false} LineTotalsOfSaved(items: seq<OrderLineItem>)
    requires forall i :: 0 <= i < |items| ==> items[i].Valid()
    ensures LineTotals(items) == PriceTimesQuantity(items)
  {
    if items != [] {
      LineTotalsOfSaved(items[..|items| - 1]);
    }
  }

  /** The sum of price times quantity over the lines. */
  function PriceTimesQuantity(items: seq<OrderLineItem>): Cents
    reads items
  {
    if items == [] then 0
    else PriceTimesQuantity(items[..|items| - 1]) + items[|items| - 1].lineitemPrice * items[|items| - 1].quantity
  }

  /** An order; only the fields the pricing, payment and access code touch. */
  class Order {
    /** `user_id`, null for an order without a user. */
    var userId: Option<int>
    var orderTotal: Cents
    var discountAmount: Cents
    var discountCode: string
    var stripePid: string
    /** `original_bag`: the session bag at checkout (stored as its JSON text). */
    var originalBag: Bag
    var paid: bool
    /** The reverse relation `order.lineitems`. */
    var lineitems: seq<OrderLineItem>

    constructor (userId: Option<int>, orderTotal: Cents, discountAmount: Cents, discountCode: string,
                 stripePid: string, originalBag: Bag)
      ensures this.userId == userId && this.orderTotal == orderTotal
      ensures this.discountAmount == discountAmount && this.discountCode == discountCode
      ensures this.stripePid == stripePid && this.originalBag == originalBag
      ensures !paid && lineitems == []
    {
      this.userId := userId;
      this.orderTotal := orderTotal;
      this.discountAmount := discountAmount;
      this.discountCode := discountCode;
      this.stripePid := stripePid;
      this.originalBag := originalBag;
      paid := false;
      lineitems := [];
    }

    /** The `grand_total` property: what remains after the discount, with no floor at zero. */
    function GrandTotal(): Cents
      reads this
    {
      orderTotal - discountAmount
    }

    /** `update_total()`: the order total becomes the sum of the line totals; nothing else changes. */
    method UpdateTotal()
      modifies this`orderTotal
      ensures orderTotal == LineTotals(lineitems)
    {
      orderTotal := LineTotals(lineitems);
    }
  }

  /**
   * The grand total is the order total less the discount; it is below zero
   * exactly when the discount exceeds the order total.
   */
  lemma GrandTotalSpec(o: Order)
    ensures o.GrandTotal() + o.discountAmount == o.orderTotal
    ensures o.GrandTotal() < 0 <==> o.discountAmount > o.orderTotal
  {
  }

  /** After `update_total` on saved lines, the grand total is the priced lines less the discount. */
  lemma GrandTotalAfterUpdate(o: Order)
    requires o.orderTotal == LineTotals(o.lineitems)
    requires forall i :: 0 <= i < |o.lineitems| ==> o.lineitems[i].Valid()
    ensures o.GrandTotal() == PriceTimesQuantity(o.lineitems) - o.discountAmount
  {
    LineTotalsOfSaved(o.lineitems);
  }
}
