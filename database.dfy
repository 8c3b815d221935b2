/**
 * The application's database context: one in-memory table per entity, and one
 * identity counter per table that assigns the next primary key on insert.
 * Every request is one synchronous, atomic update of these tables.
 */
module Database {
  import opened Collections
  import opened Models

  /** The rows' keys are distinct and each is below the table's identity counter. */
  ghost predicate KeysBelow<T>(rows: seq<T>, key: T -> int, next: int) {
    DistinctBy(rows, key) && forall r | r in rows :: key(r) < next
  }

  /** `b` rewrites the rows of `a` one for one, keeping each row's key. */
  ghost predicate SameKeys<T, K>(a: seq<T>, b: seq<T>, key: T -> K) {
    |a| == |b| && forall k | 0 <= k < |a| :: key(b[k]) == key(a[k])
  }

  /** Rewriting rows without changing their keys keeps the keys distinct and below the counter. */
  lemma KeysBelowSameKeys<T>(a: seq<T>, b: seq<T>, key: T -> int, next: int)
    requires KeysBelow(a, key, next) && SameKeys(a, b, key)
    ensures KeysBelow(b, key, next)
  {
    forall r | r in b ensures key(r) < next {
      var k :| 0 <= k < |b| && b[k] == r;
      assert a[k] in a;
    }
  }

  class Store {
    var users: seq<User>
    var profiles: seq<Profile>
    var contents: seq<Content>
    var watchHistories: seq<WatchHistory>
    var watchlists: seq<Watchlist>
    var ratings: seq<Rating>
    var subscriptions: seq<Subscription>
    var payments: seq<Payment>

    var nextUserId: int
    var nextProfileId: int
    var nextContentId: int
    var nextHistoryId: int
    var nextWatchlistId: int
    var nextSubscriptionId: int
    var nextPaymentId: int

    /**
     * Primary keys are unique and below their table's counter; the controllers
     * keep e-mails, watch-history slots and watchlist pairs unique. A request
     * states the part of each table it writes; its `modifies` clause keeps the
     * other parts.
     */
    ghost predicate Valid()
      reads this
    {
      && UserTableValid() && ProfileTableValid() && ContentTableValid() && HistoryTableValid()
      && WatchlistTableValid() && RatingTableValid() && SubscriptionTableValid() && PaymentTableValid()
    }

    ghost predicate UserTableValid()
      reads this
    {
      KeysBelow(users, UserKey, nextUserId) && DistinctBy(users, UserEmail)
    }

    ghost predicate ProfileTableValid()
      reads this
    {
      KeysBelow(profiles, ProfileKey, nextProfileId)
    }

    ghost predicate ContentTableValid()
      reads this
    {
      KeysBelow(contents, ContentKey, nextContentId)
    }

    ghost predicate HistoryTableValid()
      reads this
    {
      KeysBelow(watchHistories, HistoryKey, nextHistoryId) && DistinctBy(watchHistories, HistorySlot)
    }

    ghost predicate WatchlistTableValid()
      reads this
    {
      KeysBelow(watchlists, WatchlistKey, nextWatchlistId) && DistinctBy(watchlists, WatchlistPair)
    }

    ghost predicate RatingTableValid()
      reads this
    {
      DistinctBy(ratings, RatingKey)
    }

    ghost predicate SubscriptionTableValid()
      reads this
    {
      KeysBelow(subscriptions, SubscriptionKey, nextSubscriptionId)
    }

    ghost predicate PaymentTableValid()
      reads this
    {
      KeysBelow(payments, PaymentKey, nextPaymentId)
    }

    /** An empty database whose identity columns start at 1. */
    constructor ()
      ensures Valid()
      ensures users == [] && profiles == [] && contents == [] && watchHistories == []
      ensures watchlists == [] && ratings == [] && subscriptions == [] && payments == []
    {
      users, profiles, contents, watchHistories := [], [], [], [];
      watchlists, ratings, subscriptions, payments := [], [], [], [];
      nextUserId, nextProfileId, nextContentId, nextHistoryId := 1, 1, 1, 1;
      nextWatchlistId, nextSubscriptionId, nextPaymentId := 1, 1, 1;
    }
  }
}
