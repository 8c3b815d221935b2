/**
 * The records of the platform's tables. Nullable columns are `Option`s,
 * `decimal` ratings are integers in tenths (8.7 is 87), `decimal` amounts are
 * integers in cents, and timestamps are integer seconds.
 */
module Models {
  import opened Wrappers
  import opened Sorting

  /** A movie or a series of the catalog. `isActive == false` is a soft delete. */
  datatype Content = Content(
    id: int,
    title: string,
    description: Option<string>,
    contentType: string,
    genre: Option<string>,
    releaseYear: Option<int>,
    rating: Option<int>,
    duration: Option<int>,
    thumbnailUrl: Option<string>,
    trailerUrl: Option<string>,
    videoUrl: Option<string>,
    isActive: bool,
    createdAt: int,
    seasons: seq<Season>)

  datatype Season = Season(
    id: int,
    contentId: int,
    seasonNumber: int,
    title: Option<string>,
    releaseYear: Option<int>,
    episodes: seq<Episode>)

  datatype Episode = Episode(
    id: int,
    seasonId: int,
    episodeNumber: int,
    title: string,
    description: Option<string>,
    duration: Option<int>,
    videoUrl: Option<string>,
    thumbnailUrl: Option<string>)

  datatype User = User(
    id: int,
    email: string,
    passwordHash: string,
    firstName: Option<string>,
    lastName: Option<string>,
    role: string,
    createdAt: int,
    isActive: bool)

  datatype Profile = Profile(
    id: int,
    userId: int,
    profileName: string,
    avatarUrl: Option<string>,
    isKidsProfile: bool,
    createdAt: int)

  /** A profile's progress on a title, or on one episode of it. */
  datatype WatchHistory = WatchHistory(
    id: int,
    profileId: int,
    contentId: int,
    episodeId: Option<int>,
    watchedAt: int,
    progress: int,
    completed: bool)

  datatype Watchlist = Watchlist(
    id: int,
    profileId: int,
    contentId: int,
    addedAt: int)

  datatype Rating = Rating(
    id: int,
    profileId: int,
    contentId: int,
    ratingValue: int,
    createdAt: int)

  datatype Subscription = Subscription(
    id: int,
    userId: int,
    planType: string,
    status: string,
    startDate: int,
    endDate: Option<int>,
    cancelledAt: Option<int>,
    stripeSubscriptionId: Option<string>,
    stripeCustomerId: Option<string>,
    createdAt: int,
    updatedAt: int)

  datatype Payment = Payment(
    id: int,
    userId: int,
    subscriptionId: int,
    amount: int,
    currency: string,
    paymentMethod: string,
    status: string,
    stripePaymentIntentId: Option<string>,
    transactionId: Option<string>,
    paymentDate: int,
    createdAt: int)

  // Column defaults of the entity classes.
  const DefaultRole := "User"
  const DefaultSubscriptionStatus := "Active"
  const DefaultPaymentStatus := "Pending"
  const DefaultCurrency := "USD"
  const DefaultProgress := 0
  const DefaultCompleted := false
  const DefaultIsActive := true

  const StatusActive := "Active"
  const StatusCancelled := "Cancelled"
  const StatusCompleted := "Completed"

  // Primary keys and the other keys the controllers keep unique.
  function UserKey(u: User): int { u.id }
  function UserEmail(u: User): string { u.email }
  function ProfileKey(p: Profile): int { p.id }
  function ContentKey(c: Content): int { c.id }
  function HistoryKey(w: WatchHistory): int { w.id }
  function WatchlistKey(w: Watchlist): int { w.id }
  function RatingKey(r: Rating): int { r.id }
  function SubscriptionKey(s: Subscription): int { s.id }
  function PaymentKey(p: Payment): int { p.id }

  /** The upsert key of a watch-history row. */
  function HistorySlot(w: WatchHistory): (int, int, Option<int>) {
    (w.profileId, w.contentId, w.episodeId)
  }

  /** The uniqueness key of a watchlist row. */
  function WatchlistPair(w: Watchlist): (int, int) {
    (w.profileId, w.contentId)
  }

  /** Some title, active or soft-deleted, has identity `id`: the target of a `ContentId` foreign key. */
  predicate HasContent(contents: seq<Content>, id: int) {
    exists c | c in contents :: c.id == id
  }

  /** Some episode of some season of some title has identity `id`: the target of an `EpisodeId` foreign key. */
  predicate HasEpisode(contents: seq<Content>, id: int) {
    exists c, s, e | c in contents && s in c.seasons && e in s.episodes :: e.id == id
  }

  /**
   * The profile `profileId` exists and belongs to user `userId`: the join
   * `row.Profile.UserId == userId`.
   */
  predicate OwnsProfile(profiles: seq<Profile>, userId: int, profileId: int) {
    exists p | p in profiles :: p.id == profileId && p.userId == userId
  }

  /** `x > y` under SQL's ordering of a nullable column, where NULL sorts lowest. */
  predicate OptGreater(x: Option<int>, y: Option<int>) {
    x.Some? && (y.None? || x.value > y.value)
  }

  /** `x >= y` under the same ordering. */
  predicate OptAtLeast(x: Option<int>, y: Option<int>) {
    y.None? || (x.Some? && x.value >= y.value)
  }

  /**
   * `OrderByDescending(c => c.Rating).ThenByDescending(c => c.ReleaseYear)`:
   * `a` may be listed before `b`.
   */
  predicate Outranks(a: Content, b: Content) {
    OptGreater(a.rating, b.rating) || (a.rating == b.rating && OptAtLeast(a.releaseYear, b.releaseYear))
  }

  lemma OutranksIsTotalPreorder()
    ensures TotalPreorder(Outranks)
  {
  }
}
