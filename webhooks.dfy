/**
 * The payment webhook (checkout/webhooks.py): on a verified
 * `payment_intent.succeeded` event, the one order whose payment reference is
 * the intent's id is marked paid.
 */
module Webhooks {
  import opened Wrappers
  import opened CheckoutModels

  /**
   * A verified event as the payment provider's library returns it: its type
   * and the id of the payment intent it carries, if any.
   */
  datatype Event = Event(eventType: string, intentId: Option<string>)

  const SucceededType: string := "payment_intent.succeeded"

  /** How many orders carry the payment reference `pid`. */
  function MatchCount(orders: seq<Order>, pid: string): nat
    reads orders`stripePid
  {
    if orders == [] then 0
    else MatchCount(orders[..|orders| - 1], pid) + (if orders[|orders| - 1].stripePid == pid then 1 else 0)
  }

  /** An order at some index carries `pid`. */
  predicate MatchesAt(orders: seq<Order>, pid: string, k: int)
    reads orders`stripePid
  {
    0 <= k < |orders| && orders[k].stripePid == pid
  }

  /** There is a match exactly when the count is positive. */
  lemma {:induction false} MatchCountPositive(orders: seq<Order>, pid: string)
    ensures MatchCount(orders, pid) > 0 <==> exists k :: MatchesAt(orders, pid, k)
  {
    if orders != [] {
      var init := orders[..|orders| - 1];
      MatchCountPositive(init, pid);
      if exists k :: MatchesAt(init, pid, k) {
        var k :| MatchesAt(init, pid, k);
        assert MatchesAt(orders, pid, k);
      }
      if orders[|orders| - 1].stripePid == pid {
        assert MatchesAt(orders, pid, |orders| - 1);
      }
      if exists k :: MatchesAt(orders, pid, k) {
        var k :| MatchesAt(orders, pid, k);
        if k < |init| {
          assert MatchesAt(init, pid, k);
        } else {
          assert orders[|orders| - 1].stripePid == pid;
        }
      }
    }
  }

  /** Two different matching orders make the count at least two. */
  lemma {:induction false} MatchCountTwo(orders: seq<Order>, pid: string, j: int, k: int)
    requires j < k
    requires MatchesAt(orders, pid, j) && MatchesAt(orders, pid, k)
    ensures MatchCount(orders, pid) >= 2
  {
    var init := orders[..|orders| - 1];
    assert MatchesAt(init, pid, j);
    if k == |orders| - 1 {
      MatchCountPositive(init, pid);
    } else {
      assert MatchesAt(init, pid, k);
      MatchCountTwo(init, pid, j, k);
    }
  }

  /** The status the webhook answers, from the configuration, the verification and the orders. */
  function WebhookStatus(secret: string, verified: Option<Event>, orders: seq<Order>): int
    reads orders`stripePid
  {
    if secret == "" then 200
    else if verified.None? then 400
    else
      var e := verified.value;
      if e.eventType == SucceededType && e.intentId.Some? && e.intentId.value != ""
         && MatchCount(orders, e.intentId.value) > 1
      then 500
      else 200
  }

  /** The payment reference whose order becomes paid, if any. */
  function PaidReference(secret: string, verified: Option<Event>, orders: seq<Order>): Option<string>
    reads orders`stripePid
  {
    if secret != "" && verified.Some? && verified.value.eventType == SucceededType
       && verified.value.intentId.Some? && verified.value.intentId.value != ""
       && MatchCount(orders, verified.value.intentId.value) == 1
    then verified.value.intentId
    else None
  }

  /**
   * `stripe_webhook`: answers 200 without a secret, 400 when verification
   * fails, 500 when several orders share the intent's id, else 200. Only the
   * `paid` flag of orders is written, and only the single order matching the
   * intent of a succeeded event ends up paid; an unknown id, a missing id and
   * other event types change nothing. `orders` is the table: each row once.
   */
  method StripeWebhook(secret: string, verified: Option<Event>, orders: seq<Order>) returns (status: int)
    requires forall i, j :: 0 <= i < j < |orders| ==> orders[i] != orders[j]
    modifies orders`paid
    ensures status == WebhookStatus(secret, verified, orders)
    ensures var pid := PaidReference(secret, verified, orders);
      forall o <- orders :: o.paid == (old(o.paid) || (pid.Some? && o.stripePid == pid.value))
  {
    if secret == "" {
      return 200;
    }
    if verified.None? {
      return 400;
    }
    var event := verified.value;
    if event.eventType == SucceededType {
      if event.intentId.None? || event.intentId.value == "" {
        return 200;
      }
      var pid := event.intentId.value;
      var count := MatchCount(orders, pid);
      if count > 1 {
        return 500;
      }
      if count == 1 {
        MatchCountPositive(orders, pid);
        var k :| MatchesAt(orders, pid, k);
        var order := orders[k];
        if !order.paid {
          order.paid := true;
        }
        forall o <- orders
          ensures o.stripePid == pid ==> o == order
        {
          if o.stripePid == pid {
            var j :| 0 <= j < |orders| && orders[j] == o;
            if j < k {
              MatchCountTwo(orders, pid, j, k);
              assert false;
            } else if k < j {
              MatchCountTwo(orders, pid, k, j);
              assert false;
            }
          }
        }
      }
    }
    return 200;
  }

  /**
   * A redelivered event (the provider retries until it sees a 200) gets the
   * same answer and leaves the paid flags as the first delivery left them.
   */
  method DeliverTwice(secret: string, verified: Option<Event>, orders: seq<Order>) returns (first: int, second: int)
    requires forall i, j :: 0 <= i < j < |orders| ==> orders[i] != orders[j]
    modifies orders`paid
    ensures first == second
    ensures var pid := PaidReference(secret, verified, orders);
      forall o <- orders :: o.paid == (old(o.paid) || (pid.Some? && o.stripePid == pid.value))
  {
    first := StripeWebhook(secret, verified, orders);
    second := StripeWebhook(secret, verified, orders);
  }
}
