/**
 * The per-visitor session the bag and checkout views read and write in place:
 * `session["bag"]`, `session["discount"]` and `session["discount_removed_notice"]`.
 */
module SessionState {
  import opened Wrappers
  import opened Catalog
  import PyDict

  /** A quantity as stored in the session: normally an int, but any JSON scalar can appear. */
  datatype Value = Num(n: int) | Text(s: string) | Null

  /** `session["bag"]`: line key -> quantity, in insertion order. */
  type Bag = PyDict.Dict<string, Value>

  /** `session["discount"]`: the applied code and its amount. */
  datatype Discount = Discount(code: string, amount: Cents)

  /** What a view answers: a redirect or page, a 404, PermissionDenied (a 403), or an exception (a 500). */
  datatype Response = Done | NotFound | Forbidden | ServerError

  /** `request.user`: a signed-in account. */
  datatype User = User(id: int, isStaff: bool)

  class Session {
    /** `session["bag"]`, absent until a bag view creates it. */
    var bag: Option<Bag>
    /** `session["discount"]` */
    var discount: Option<Discount>
    /** `session["discount_removed_notice"]` */
    var removedNotice: Option<string>

    ghost predicate Valid()
      reads this
    {
      bag.Some? ==> PyDict.Valid(bag.value)
    }

    constructor (bag: Option<Bag>, discount: Option<Discount>, removedNotice: Option<string>)
      requires bag.Some? ==> PyDict.Valid(bag.value)
      ensures Valid()
      ensures this.bag == bag && this.discount == discount && this.removedNotice == removedNotice
    {
      this.bag := bag;
      this.discount := discount;
      this.removedNotice := removedNotice;
    }

    /** `session.get("bag", {}) or {}`: the bag, empty when absent. */
    function Contents(): Bag
      reads this
    {
      bag.GetOr([])
    }
  }
}
