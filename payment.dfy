/**
 * The billing endpoints: checkout against a fixed price table creates a
 * subscription and the payment for it; the "current" subscription is the
 * caller's active one that started last; cancelling marks that one cancelled;
 * and the payment history lists the caller's payments, newest first.
 * Amounts are in cents. The payment provider's identifiers, generated from
 * fresh GUIDs, and the end date one calendar month on, are parameters.
 */
module PaymentApi {
  import opened Wrappers
  import opened Collections
  import opened Sorting
  import opened Models
  import opened Database

  /** The plan table: plan id to monthly price in cents. */
  const PlanPrices: map<string, int> := map["basic" := 599, "standard" := 999, "premium" := 1499]

  /** The payment method recorded when the request names none. */
  const DefaultPaymentMethod := "card"

  /** Every plan has a positive price, and the plans are priced in increasing order. */
  lemma PlanPricesOrdered()
    ensures forall p | p in PlanPrices :: PlanPrices[p] > 0
    ensures PlanPrices["basic"] < PlanPrices["standard"] < PlanPrices["premium"]
    ensures forall p :: p in PlanPrices <==> p == "basic" || p == "standard" || p == "premium"
  {
  }

  /** The user with primary key `userId` exists (`FindAsync`, whatever the account's status). */
  predicate UserExists(users: seq<User>, userId: int) {
    exists u | u in users :: u.id == userId
  }

  function NewSubscription(id: int, userId: int, planId: string, now: int, endDate: int, customerId: string, providerSubscriptionId: string)
    : Subscription
  {
    Subscription(id, userId, planId, StatusActive, now, Some(endDate), None, Some(providerSubscriptionId), Some(customerId), now, now)
  }

  function NewPayment(id: int, userId: int, subscriptionId: int, amount: int, paymentMethod: Option<string>, transactionId: string, now: int)
    : Payment
  {
    Payment(id, userId, subscriptionId, amount, DefaultCurrency, paymentMethod.GetOr(DefaultPaymentMethod), StatusCompleted,
      None, Some(transactionId), now, now)
  }

  /**
   * POST api/payment/create-checkout-session: Unauthorized when the caller is
   * not a user, BadRequest for a plan outside the table (both with no change);
   * otherwise one active subscription of the caller on that plan and one
   * completed payment of the plan's price in USD for it are appended, and the
   * subscription's identity is returned.
   */
  method CreateCheckoutSession(
    db: Store, userId: int, planId: string, paymentMethod: Option<string>, now: int, endDate: int,
    customerId: string, providerSubscriptionId: string, transactionId: string)
    returns (r: Response<int>)
    requires db.SubscriptionTableValid() && db.PaymentTableValid()
    modifies db`subscriptions, db`nextSubscriptionId, db`payments, db`nextPaymentId
    ensures db.SubscriptionTableValid() && db.PaymentTableValid()
    ensures !UserExists(db.users, userId) ==>
      r == Unauthorized("") && db.subscriptions == old(db.subscriptions) && db.payments == old(db.payments)
    ensures UserExists(db.users, userId) && planId !in PlanPrices ==>
      && r == BadRequest("Invalid plan ID.")
      && db.subscriptions == old(db.subscriptions) && db.payments == old(db.payments)
    ensures UserExists(db.users, userId) && planId in PlanPrices ==>
      var sid := old(db.nextSubscriptionId);
      && r == Ok(sid)
      && db.subscriptions == old(db.subscriptions) + [NewSubscription(sid, userId, planId, now, endDate, customerId, providerSubscriptionId)]
      && db.payments == old(db.payments) + [NewPayment(old(db.nextPaymentId), userId, sid, PlanPrices[planId], paymentMethod, transactionId, now)]
  {
    if !UserExists(db.users, userId) {
      return Unauthorized("");
    }
    if planId !in PlanPrices {
      return BadRequest("Invalid plan ID.");
    }
    var amount := PlanPrices[planId];
    var subscription := NewSubscription(db.nextSubscriptionId, userId, planId, now, endDate, customerId, providerSubscriptionId);
    DistinctByAppend(db.subscriptions, subscription, SubscriptionKey);
    db.subscriptions := db.subscriptions + [subscription];
    db.nextSubscriptionId := db.nextSubscriptionId + 1;
    var payment := NewPayment(db.nextPaymentId, userId, subscription.id, amount, paymentMethod, transactionId, now);
    DistinctByAppend(db.payments, payment, PaymentKey);
    db.payments := db.payments + [payment];
    db.nextPaymentId := db.nextPaymentId + 1;
    return Ok(subscription.id);
  }

  /** A subscription of `userId` whose status is "Active". */
  predicate ActiveOf(userId: int, s: Subscription) {
    s.userId == userId && s.status == StatusActive
  }

  /** `OrderByDescending(s => s.StartDate)`. */
  predicate ByStartDateDesc(a: Subscription, b: Subscription) {
    a.startDate >= b.startDate
  }

  lemma ByStartDateDescIsTotalPreorder()
    ensures TotalPreorder(ByStartDateDesc)
  {
  }

  /**
   * The caller's current subscription: an active one that started no earlier
   * than any other active one of theirs; none when they have no active one.
   */
  function CurrentSubscription(subs: seq<Subscription>, userId: int): (r: Option<Subscription>)
    ensures r.None? <==> forall s | s in subs :: !ActiveOf(userId, s)
    ensures r.Some? ==> r.value in subs && ActiveOf(userId, r.value)
    ensures r.Some? ==> forall s | s in subs && ActiveOf(userId, s) :: s.startDate <= r.value.startDate
  {
    ByStartDateDescIsTotalPreorder();
    var candidates := Filter(subs, s => ActiveOf(userId, s));
    var top := TopK(candidates, ByStartDateDesc, 1);
    if top == [] then
      assert candidates == [];
      None
    else
      LatestStart(candidates, top);
      Some(top[0])
  }

  /** The first of the candidates ordered by start date, newest first, started no earlier than any of them. */
  lemma LatestStart(candidates: seq<Subscription>, top: seq<Subscription>)
    requires |top| == 1 && forall x | x in top :: x in candidates
    requires forall x, y | x in candidates && x !in top && y in top :: ByStartDateDesc(y, x)
    ensures top[0] in candidates
    ensures forall s | s in candidates :: s.startDate <= top[0].startDate
  {
    assert top[0] in top;
    forall s | s in candidates ensures s.startDate <= top[0].startDate {
      if s !in top {
        assert ByStartDateDesc(top[0], s);
      }
    }
  }

  /**
   * GET api/payment/subscription: the current subscription, or NotFound when the
   * caller has no active one.
   */
  function GetCurrentSubscription(subs: seq<Subscription>, userId: int): (r: Response<Subscription>)
    ensures r.Ok? || r == NotFound("No active subscription found.")
    ensures r.Ok? <==> exists s | s in subs :: ActiveOf(userId, s)
    ensures r.Ok? ==> Some(r.value) == CurrentSubscription(subs, userId)
  {
    match CurrentSubscription(subs, userId)
    case None => NotFound("No active subscription found.")
    case Some(s) => Ok(s)
  }

  /** A subscription after cancellation at time `now`. */
  function Cancelled(s: Subscription, now: int): Subscription {
    s.(status := StatusCancelled, cancelledAt := Some(now), updatedAt := now)
  }

  /**
   * The subscriptions table after the caller cancels: none when the caller has
   * no active subscription; otherwise the current one, and only the row with
   * its id, is marked cancelled at `now`. Ids are left as they were.
   */
  function CancelCurrent(subs: seq<Subscription>, userId: int, now: int): (r: Option<seq<Subscription>>)
    ensures r.None? <==> CurrentSubscription(subs, userId).None?
    ensures r.Some? ==>
      var current := CurrentSubscription(subs, userId).value;
      && |r.value| == |subs|
      && forall k | 0 <= k < |subs| :: r.value[k] == if subs[k].id == current.id then Cancelled(current, now) else subs[k]
    ensures r.Some? ==> SameKeys(subs, r.value, SubscriptionKey)
  {
    match CurrentSubscription(subs, userId)
    case None => None
    case Some(c) => Some(CancelById(subs, c, now))
  }

  /** Every row with the id of `c` replaced by `c` cancelled at `now`. */
  function CancelById(subs: seq<Subscription>, c: Subscription, now: int): (r: seq<Subscription>)
    ensures |r| == |subs|
    ensures forall k | 0 <= k < |subs| :: r[k] == if subs[k].id == c.id then Cancelled(c, now) else subs[k]
    ensures SameKeys(subs, r, SubscriptionKey)
  {
    seq(|subs|, k requires 0 <= k < |subs| => if subs[k].id == c.id then Cancelled(c, now) else subs[k])
  }

  /**
   * POST api/payment/cancel-subscription: NotFound with no change when the
   * caller has no active subscription; otherwise the current one is marked
   * cancelled at `now` and every other subscription is left as it was.
   */
  method CancelSubscription(db: Store, userId: int, now: int) returns (r: Response<string>)
    requires db.SubscriptionTableValid()
    modifies db`subscriptions
    ensures db.SubscriptionTableValid()
    ensures CancelCurrent(old(db.subscriptions), userId, now).None? ==>
      r == NotFound("No active subscription found.") && db.subscriptions == old(db.subscriptions)
    ensures CancelCurrent(old(db.subscriptions), userId, now).Some? ==>
      r == Ok("Subscription cancelled successfully.") && db.subscriptions == CancelCurrent(old(db.subscriptions), userId, now).value
  {
    var cancelled := CancelCurrent(db.subscriptions, userId, now);
    if cancelled.None? {
      return NotFound("No active subscription found.");
    }
    KeysBelowSameKeys(db.subscriptions, cancelled.value, SubscriptionKey, db.nextSubscriptionId);
    db.subscriptions := cancelled.value;
    return Ok("Subscription cancelled successfully.");
  }

  /** The number of active subscriptions of `userId`. */
  function ActiveCount(subs: seq<Subscription>, userId: int): nat {
    if subs == [] then 0
    else ActiveCount(subs[..|subs| - 1], userId) + (if ActiveOf(userId, subs[|subs| - 1]) then 1 else 0)
  }

  /** Cancelling one active subscription leaves the user with one active subscription fewer. */
  lemma {:induction false} ActiveCountAfterCancel(subs: seq<Subscription>, userId: int, i: nat, now: int)
    requires i < |subs| && ActiveOf(userId, subs[i])
    ensures ActiveCount(subs[i := Cancelled(subs[i], now)], userId) == ActiveCount(subs, userId) - 1
    decreases |subs|
  {
    var s' := subs[i := Cancelled(subs[i], now)];
    assert s'[..|s'| - 1] == if i == |subs| - 1 then subs[..|subs| - 1] else subs[..|subs| - 1][i := Cancelled(subs[i], now)];
    if i < |subs| - 1 {
      ActiveCountAfterCancel(subs[..|subs| - 1], userId, i, now);
    }
  }

  /** A user has an active subscription exactly when the active count is positive. */
  lemma {:induction false} ActiveCountPositive(subs: seq<Subscription>, userId: int)
    ensures ActiveCount(subs, userId) > 0 <==> exists s | s in subs :: ActiveOf(userId, s)
    decreases |subs|
  {
    if subs != [] {
      var init := subs[..|subs| - 1];
      ActiveCountPositive(init, userId);
      assert subs == init + [subs[|subs| - 1]];
      assert forall s | s in init :: s in subs;
    }
  }

  /**
   * A checkout at a time no earlier than every existing start date makes the
   * caller's current subscription one that started at that time.
   */
  lemma CheckoutBecomesCurrent(subs: seq<Subscription>, s: Subscription, userId: int, now: int)
    requires forall t | t in subs :: t.startDate <= now
    requires ActiveOf(userId, s) && s.startDate == now
    ensures CurrentSubscription(subs + [s], userId).Some?
    ensures CurrentSubscription(subs + [s], userId).value.startDate == now
  {
    assert s in subs + [s];
    var c := CurrentSubscription(subs + [s], userId).value;
    assert c in subs || c == s;
  }

  /** The caller's payments. */
  predicate PaidBy(userId: int, p: Payment) {
    p.userId == userId
  }

  /** `OrderByDescending(p => p.PaymentDate)`. */
  predicate ByPaymentDateDesc(a: Payment, b: Payment) {
    a.paymentDate >= b.paymentDate
  }

  lemma ByPaymentDateDescIsTotalPreorder()
    ensures TotalPreorder(ByPaymentDateDesc)
  {
  }

  /** GET api/payment/payment-history: exactly the caller's payments, newest first. */
  function GetPaymentHistory(payments: seq<Payment>, userId: int): (r: seq<Payment>)
    ensures forall p :: multiset(r)[p] == if PaidBy(userId, p) then multiset(payments)[p] else 0
    ensures SortedBy(r, ByPaymentDateDesc)
  {
    ByPaymentDateDescIsTotalPreorder();
    Sort(Filter(payments, p => PaidBy(userId, p)), ByPaymentDateDesc)
  }
}
