/**
 * The bag views (bag/views.py): add, adjust and remove lines of the session
 * bag in place, and apply or remove the WELCOME10 discount code.
 */
module BagViews {
  import opened Wrappers
  import opened Text
  import opened Catalog
  import opened SessionState
  import PyDict
  import BagKey

  const DepositSku: string := "CUST-DEP"
  const DepositNameFallback: string := "Custom Cake Deposit"
  const WelcomeCode: string := "WELCOME10"

  // ---------------------------------------------------------------------------
  // Pure rules
  // ---------------------------------------------------------------------------

  /** The single-quantity deposit product: recognised by its SKU, else by its exact name. */
  predicate IsDepositProduct(p: Product) {
    var sku := Strip(p.sku.GetOr(""));
    var name := Strip(p.name);
    (sku != "" && sku == DepositSku) || name == DepositNameFallback
  }

  /** Options are honoured only for products whose category slug or name is "cupcakes". */
  predicate IsCupcakeProduct(p: Product) {
    var slug := if p.category.Some? then p.category.value.slug.GetOr("") else "";
    var name := if p.category.Some? then p.category.value.name else "";
    Lower(slug) == "cupcakes" || Lower(name) == "cupcakes"
  }

  /** `int(request.POST.get("quantity", 1))`, falling back to 1 when `int()` raises. */
  function PostedQuantity(posted: Option<string>): int {
    match posted
    case None => 1
    case Some(s) => ParseInt(s).GetOr(1)
  }

  /** The quantity added: the posted one, never below 1. */
  function AddQuantity(posted: Option<string>): (q: int)
    ensures q >= 1
    ensures q >= PostedQuantity(posted)
    ensures PostedQuantity(posted) >= 1 ==> q == PostedQuantity(posted)
  {
    var q := PostedQuantity(posted);
    if q < 1 then 1 else q
  }

  /** A posted field that is present and non-empty (Python truthiness of the string). */
  predicate Given(posted: Option<string>) {
    posted.Some? && posted.value != ""
  }

  /** `request.POST.get(a) or request.POST.get(b)` */
  function FirstGiven(a: Option<string>, b: Option<string>): Option<string> {
    if Given(a) then a else b
  }

  /**
   * `ProductOption.objects.filter(pk=posted, product=product).first()`: the
   * option with that id when it belongs to the product; a posted id that
   * `int()` rejects makes the query raise (Err).
   */
  function LookupOption(store: Store, product: Product, posted: string): Result<Option<ProductOption>, string> {
    match ParseInt(posted)
    case None => Err("ValueError")
    case Some(id) =>
      if id in store.options && store.options[id].productId == product.id
      then Ok(Some(store.options[id]))
      else Ok(None)
  }

  /**
   * The key for adjust and remove: `str(product_id)`, suffixed with the option
   * id when a non-empty posted option id names an option of the product.
   */
  function OptionKey(store: Store, product: Product, posted: Option<string>): Result<string, string> {
    if Given(posted) then
      match LookupOption(store, product, posted.value)
      case Err(e) => Err(e)
      case Ok(None) => Ok(BagKey.Encode(product.id, None))
      case Ok(Some(o)) => Ok(BagKey.Encode(product.id, Some(o.id)))
    else Ok(BagKey.Encode(product.id, None))
  }

  /** The key for add: options are looked up only for cupcakes, from `option_id` or else `box_size`. */
  function AddKey(store: Store, product: Product, optionId: Option<string>, boxSize: Option<string>): Result<string, string> {
    if IsCupcakeProduct(product) then OptionKey(store, product, FirstGiven(optionId, boxSize))
    else Ok(BagKey.Encode(product.id, None))
  }

  /** `bag.get(key, 0)` when the stored quantity is a number. */
  function StoredQuantity(bag: Bag, key: string): int {
    var current: Option<Value> := PyDict.Get(bag, key);
    if current.Some? && current.value.Num? then current.value.n else 0
  }

  /** `bag.get(key, 0) + qty` raises TypeError: the stored quantity is not a number. */
  predicate StoredNonNumber(bag: Bag, key: string) {
    var current: Option<Value> := PyDict.Get(bag, key);
    current.Some? && !current.value.Num?
  }

  /**
   * The bag after adding `qty` under `key`: the deposit is stored as 1, any
   * other product adds to what is there. None: the stored quantity is not a
   * number, so `bag.get(key, 0) + qty` raises TypeError.
   */
  function AddedBag(bag: Bag, key: string, qty: int, deposit: bool): Option<Bag> {
    if deposit then Some(PyDict.Set(bag, key, Num(1)))
    else if StoredNonNumber(bag, key) then None
    else Some(PyDict.Set(bag, key, Num(StoredQuantity(bag, key) + qty)))
  }

  /** The bag after adjusting `key` to `qty`: removed when qty <= 0, else set (the deposit to 1). */
  function AdjustedBag(bag: Bag, key: string, qty: int, deposit: bool): Bag {
    if qty <= 0 then PyDict.Pop(bag, key)
    else PyDict.Set(bag, key, Num(if deposit then 1 else qty))
  }

  /** The bag after removing `key`, unchanged when it is not there. */
  function RemovedBag(bag: Bag, key: string): Bag {
    if key in PyDict.Keys(bag) then PyDict.Pop(bag, key) else bag
  }

  /**
   * `x / 10` rounded to a whole number, ties to even: how `Decimal.quantize`
   * rounds a tenth of an amount in cents under the default context.
   */
  function DivTenHalfEven(x: int): int {
    var q, r := x / 10, x % 10;
    if r > 5 then q + 1
    else if r < 5 then q
    else if q % 2 == 0 then q
    else q + 1
  }

  /** The discount `(subtotal * Decimal("0.10")).quantize(Decimal("0.01"))`, in cents. */
  function Welcome10Amount(subtotal: Cents): Cents {
    DivTenHalfEven(subtotal)
  }

  /** `session["discount"]` after applying a normalised non-empty code against `subtotal`. */
  function DiscountAfterApply(code: string, subtotal: Cents): Option<Discount> {
    var amount := if code == WelcomeCode then Welcome10Amount(subtotal) else 0;
    if amount <= 0 then None else Some(Discount(code, amount))
  }

  // ---------------------------------------------------------------------------
  // Properties of the rules
  // ---------------------------------------------------------------------------

  /**
   * The discount is a tenth of the subtotal rounded to the nearest cent, ties
   * going to an even number of cents.
   */
  lemma DivTenHalfEvenIsNearest(x: int)
    ensures -5 <= x - 10 * DivTenHalfEven(x) <= 5
    ensures (x - 10 * DivTenHalfEven(x) == 5 || x - 10 * DivTenHalfEven(x) == -5) ==> DivTenHalfEven(x) % 2 == 0
  {
    var q, r := x / 10, x % 10;
    assert x == 10 * q + r;
  }

  /** On a non-negative subtotal the discount never exceeds it and is never negative. */
  lemma Welcome10Bounds(subtotal: Cents)
    requires subtotal >= 0
    ensures 0 <= Welcome10Amount(subtotal) <= subtotal
  {
    DivTenHalfEvenIsNearest(subtotal);
  }

  /**
   * A code is stored exactly when it is WELCOME10 and the subtotal is at least
   * 6 cents (a 5-cent subtotal rounds to a zero discount); a stored discount is
   * always positive.
   */
  lemma DiscountAfterApplySpec(code: string, subtotal: Cents)
    ensures DiscountAfterApply(code, subtotal).Some? <==> code == WelcomeCode && subtotal >= 6
    ensures DiscountAfterApply(code, subtotal).Some? ==>
      DiscountAfterApply(code, subtotal).value == Discount(WelcomeCode, Welcome10Amount(subtotal)) &&
      Welcome10Amount(subtotal) > 0
  {
    DivTenHalfEvenIsNearest(subtotal);
    if subtotal >= 6 {
      assert DivTenHalfEven(subtotal) >= 1;
    } else {
      assert DivTenHalfEven(subtotal) <= 0;
    }
  }

  /**
   * Adding fails only when a non-deposit line already holds a non-number.
   * Otherwise it sets the deposit to 1 and adds `qty` to any other product's
   * quantity (from 0 when absent); every other key keeps its value.
   */
  lemma AddedBagSpec(bag: Bag, key: string, qty: int, deposit: bool, other: string)
    requires other != key
    ensures AddedBag(bag, key, qty, deposit).None? <==> !deposit && StoredNonNumber(bag, key)
    ensures AddedBag(bag, key, qty, deposit).Some? ==>
      && (PyDict.Valid(bag) ==> PyDict.Valid(AddedBag(bag, key, qty, deposit).value))
      && PyDict.Get(AddedBag(bag, key, qty, deposit).value, key) ==
           Some(Num(if deposit then 1 else StoredQuantity(bag, key) + qty))
      && PyDict.Get(AddedBag(bag, key, qty, deposit).value, other) == PyDict.Get(bag, other)
  {
    if !(!deposit && StoredNonNumber(bag, key)) {
      var v := Num(if deposit then 1 else StoredQuantity(bag, key) + qty);
      assert AddedBag(bag, key, qty, deposit) == Some(PyDict.Set(bag, key, v));
      PyDict.SetGet(bag, key, v, key);
      PyDict.SetGet(bag, key, v, other);
      if PyDict.Valid(bag) {
        PyDict.SetValid(bag, key, v);
      }
    }
  }

  /**
   * Adjusting removes the key when qty <= 0 and otherwise stores qty (1 for
   * the deposit); every other key keeps its value.
   */
  lemma AdjustedBagSpec(bag: Bag, key: string, qty: int, deposit: bool, other: string)
    requires PyDict.Valid(bag)
    requires other != key
    ensures PyDict.Valid(AdjustedBag(bag, key, qty, deposit))
    ensures PyDict.Get(AdjustedBag(bag, key, qty, deposit), key) ==
      if qty <= 0 then None else Some(Num(if deposit then 1 else qty))
    ensures PyDict.Get(AdjustedBag(bag, key, qty, deposit), other) == PyDict.Get(bag, other)
  {
    if qty <= 0 {
      PyDict.PopSpec(bag, key);
    } else {
      var v := Num(if deposit then 1 else qty);
      PyDict.SetGet(bag, key, v, key);
      PyDict.SetGet(bag, key, v, other);
      PyDict.SetValid(bag, key, v);
    }
  }

  /** Removing leaves the key absent and every other key as it was. */
  lemma RemovedBagSpec(bag: Bag, key: string, other: string)
    requires PyDict.Valid(bag)
    requires other != key
    ensures PyDict.Valid(RemovedBag(bag, key))
    ensures PyDict.Get(RemovedBag(bag, key), key) == None
    ensures PyDict.Get(RemovedBag(bag, key), other) == PyDict.Get(bag, other)
  {
    PyDict.PopSpec(bag, key);
  }

  /**
   * The add key names the product, and names an option only for a cupcake
   * product and only an option of that product: exactly the option whose id
   * the first posted field parses to, when that option is stored for the
   * product, and no option otherwise.
   */
  lemma AddKeySpec(store: Store, product: Product, optionId: Option<string>, boxSize: Option<string>)
    requires store.Valid()
    requires AddKey(store, product, optionId, boxSize).Ok?
    ensures var k := BagKey.Decode(AddKey(store, product, optionId, boxSize).value);
      && k.Some? && k.value.productId == product.id
      && (k.value.optionId.Some? ==>
            IsCupcakeProduct(product) &&
            k.value.optionId.value in store.options &&
            store.options[k.value.optionId.value].productId == product.id)
    ensures var k := BagKey.Decode(AddKey(store, product, optionId, boxSize).value);
      var posted := FirstGiven(optionId, boxSize);
      if IsCupcakeProduct(product) && Given(posted) && ParseInt(posted.value).Some?
         && ParseInt(posted.value).value in store.options
         && store.options[ParseInt(posted.value).value].productId == product.id
      then k.value.optionId == ParseInt(posted.value)
      else k.value.optionId.None?
  {
    var posted := FirstGiven(optionId, boxSize);
    if IsCupcakeProduct(product) && Given(posted) && LookupOption(store, product, posted.value).value.Some? {
      var id := ParseInt(posted.value).value;
      var o := store.options[id];
      assert o.id == id;
      BagKey.DecodeEncode(product.id, Some(o.id));
    } else {
      BagKey.DecodeEncode(product.id, None);
    }
  }

  /**
   * The bag test's flow on a fresh bag, for any line key: posting quantity
   * "2" stores 2, adjusting to "1" stores 1, removing leaves an empty bag.
   */
  lemma AddAdjustRemoveFlow(key: string)
    ensures AddedBag([], key, AddQuantity(Some("2")), false) == Some([(key, Num(2))])
    ensures AdjustedBag([(key, Num(2))], key, PostedQuantity(Some("1")), false) == [(key, Num(1))]
    ensures RemovedBag([(key, Num(1))], key) == []
  {
    PostedQuantityOfIntToString(2);
    assert IntToString(2) == "2";
    PostedQuantityOfIntToString(1);
    assert IntToString(1) == "1";
    assert AddedBag([], key, 2, false) == Some([(key, Num(2))]);
  }

  /** A posted whole number in canonical form is read as itself. */
  lemma PostedQuantityOfIntToString(i: int)
    ensures PostedQuantity(Some(IntToString(i))) == i
  {
    ParseIntOfIntToString(i);
  }

  // ---------------------------------------------------------------------------
  // The views, as methods on the session
  // ---------------------------------------------------------------------------

  /** `session.setdefault("bag", {})`: the bag, created empty when absent. */
  method GetBag(s: Session) returns (bag: Bag)
    requires s.Valid()
    modifies s`bag
    ensures s.Valid()
    ensures s.bag == Some(old(s.Contents())) && bag == s.bag.value
  {
    if s.bag.None? {
      s.bag := Some([]);
    }
    bag := s.bag.value;
  }

  /** `add_to_bag`: POST only; 404 for an unknown product. */
  method AddToBag(s: Session, store: Store, isPost: bool, productId: int,
                  postedQty: Option<string>, optionId: Option<string>, boxSize: Option<string>)
    returns (resp: Response)
    requires s.Valid() && store.Valid()
    modifies s`bag
    ensures s.Valid()
    ensures !isPost || productId !in store.products ==> s.bag == old(s.bag)
    ensures !isPost ==> resp == Done
    ensures isPost && productId !in store.products ==> resp == NotFound
    ensures isPost && productId in store.products ==>
      var product := store.products[productId];
      var key := AddKey(store, product, optionId, boxSize);
      var added := if key.Ok? then AddedBag(old(s.Contents()), key.value, AddQuantity(postedQty), IsDepositProduct(product)) else None;
      && (added.Some? ==> resp == Done && s.bag == added)
      && (added.None? ==> resp == ServerError && s.bag == Some(old(s.Contents())))
  {
    if !isPost {
      return Done;
    }
    if productId !in store.products {
      return NotFound;
    }
    var product := store.products[productId];
    var qty := AddQuantity(postedQty);
    var bag := GetBag(s);
    assert bag == old(s.Contents());
    var key := AddKey(store, product, optionId, boxSize);
    if key.Err? {
      return ServerError;
    }
    var deposit := IsDepositProduct(product);
    var added := AddedBag(bag, key.value, qty, deposit);
    if added.None? {
      return ServerError;
    }
    AddedBagSpec(bag, key.value, qty, deposit, key.value + "_");
    s.bag := added;
    resp := Done;
  }

  /** `adjust_bag`: POST only; 404 for an unknown product. */
  method AdjustBag(s: Session, store: Store, isPost: bool, productId: int,
                   optionId: Option<string>, postedQty: Option<string>)
    returns (resp: Response)
    requires s.Valid() && store.Valid()
    modifies s`bag
    ensures s.Valid()
    ensures !isPost || productId !in store.products ==> s.bag == old(s.bag)
    ensures !isPost ==> resp == Done
    ensures isPost && productId !in store.products ==> resp == NotFound
    ensures isPost && productId in store.products ==>
      var product := store.products[productId];
      var key := OptionKey(store, product, optionId);
      && (key.Ok? ==>
            resp == Done &&
            s.bag == Some(AdjustedBag(old(s.Contents()), key.value, PostedQuantity(postedQty), IsDepositProduct(product))))
      && (key.Err? ==> resp == ServerError && s.bag == Some(old(s.Contents())))
  {
    if !isPost {
      return Done;
    }
    if productId !in store.products {
      return NotFound;
    }
    var product := store.products[productId];
    var qty := PostedQuantity(postedQty);
    var bag := GetBag(s);
    var key := OptionKey(store, product, optionId);
    if key.Err? {
      return ServerError;
    }
    var deposit := IsDepositProduct(product);
    if qty <= 0 {
      PyDict.PopSpec(bag, key.value);
      s.bag := Some(PyDict.Pop(bag, key.value));
    } else {
      var stored := if deposit then 1 else qty;
      PyDict.SetValid(bag, key.value, Num(stored));
      s.bag := Some(PyDict.Set(bag, key.value, Num(stored)));
    }
    resp := Done;
  }

  /** `remove_from_bag`: any method; 404 for an unknown product. */
  method RemoveFromBag(s: Session, store: Store, productId: int, optionId: Option<string>)
    returns (resp: Response)
    requires s.Valid() && store.Valid()
    modifies s`bag
    ensures s.Valid()
    ensures productId !in store.products ==> resp == NotFound && s.bag == old(s.bag)
    ensures productId in store.products ==>
      var key := OptionKey(store, store.products[productId], optionId);
      && (key.Ok? ==> resp == Done && s.bag == Some(RemovedBag(old(s.Contents()), key.value)))
      && (key.Err? ==> resp == ServerError && s.bag == Some(old(s.Contents())))
  {
    if productId !in store.products {
      return NotFound;
    }
    var product := store.products[productId];
    var bag := GetBag(s);
    var key := OptionKey(store, product, optionId);
    if key.Err? {
      return ServerError;
    }
    if key.value in PyDict.Keys(bag) {
      PyDict.PopSpec(bag, key.value);
      s.bag := Some(PyDict.Pop(bag, key.value));
    }
    resp := Done;
  }

  /**
   * `apply_discount`: POST only. The code is stripped and upper-cased; an
   * empty code changes nothing. `subtotal` is the `total` the bag context
   * reports (0.00 when it reports none).
   */
  method ApplyDiscount(s: Session, isPost: bool, postedCode: Option<string>, subtotal: Option<Cents>)
    modifies s`discount
    ensures var code := Upper(Strip(postedCode.GetOr("")));
      s.discount == if !isPost || code == "" then old(s.discount)
                    else DiscountAfterApply(code, subtotal.GetOr(0))
  {
    if !isPost {
      return;
    }
    var code := Upper(Strip(postedCode.GetOr("")));
    if code == "" {
      return;
    }
    var total := subtotal.GetOr(0);
    var amount := 0;
    if code == WelcomeCode {
      amount := Welcome10Amount(total);
    }
    if amount <= 0 {
      s.discount := None;
      return;
    }
    s.discount := Some(Discount(code, amount));
  }

  /** `remove_discount`: clears the discount whatever the request. */
  method RemoveDiscount(s: Session)
    modifies s`discount
    ensures s.discount == None
  {
    s.discount := None;
  }
}
