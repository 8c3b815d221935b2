# Streaming platform: controller logic and page helpers

This project models the decision logic of a video-streaming platform. The platform has an ASP.NET backend over an Entity Framework database and a Next.js frontend. The model covers:

- the recommendation engine (preferred genres, a genre phase and a popularity backfill), trending and similar titles;
- the watch-history and watchlist trackers;
- the billing ledger (plan table, checkout, current subscription, cancellation, history);
- catalog listing, search with paging, soft delete and partial update;
- registration and login;
- the admin dashboard, user paging, status and role updates and analytics;
- start-up seeding of the catalog;
- the pure helpers of the home, browse and sign-up pages.

Layout:

- The tables live in one `class Store` (module `Database`). Each table is a `seq` of records plus an identity counter.
- Endpoints that write are methods over the store, with `modifies` naming exactly the tables they write. Their `ensures` state the response and the whole new contents of those tables.
- Endpoints that only read are functions over table snapshots.
- Every endpoint answers with `Response<T>`: `Ok`, `NotFound`, `BadRequest` or `Unauthorized`, carrying the source's messages, or `ServerError` for an exception the controller does not catch (HTTP 500), which saves nothing.
- Representation choices:
  - nullable columns are `Option`;
  - `decimal` ratings are integers in tenths, amounts are integers in cents;
  - timestamps are integer seconds;
  - the caller's user id is a plain input.
- Database orderings are stated as "sorted by a total preorder" plus a sub-multiset or permutation relation, never as one fixed order. Tie order is the database's choice.
- Top-N queries additionally state that nothing left out outranks what was taken.
- Generic modules:
  - `Collections` (filter, distinctness, subsequences, counting);
  - `Sorting` (insertion sort and top-k by a total preorder);
  - `Grouping` (group-by-count and top groups);
  - `Text` (whitespace, substring, ASCII lower case, ordinal string order, decimal digits);
  - `Paging` (ceiling page count, skip offset);
  - `Display` (the running-time text and a reader for it).

## Model

| member | source | states |
|---|---|---|
| RecommendationApi.CallerHistory | frontend/Backend/StreamingPlatform.API/Controllers/RecommendationController.cs:28-36 | a watch row is used iff its profile belongs to the caller and, when a profile is given, is that profile |
| RecommendationApi.WatchedGenres | frontend/Backend/StreamingPlatform.API/Controllers/RecommendationController.cs:38-47 | a genre appears iff it is non-empty and is the genre of some watched title |
| RecommendationApi.PreferredGenres | frontend/Backend/StreamingPlatform.API/Controllers/RecommendationController.cs:43-49 | at most 3 distinct watched genres, non-increasing by watch count, each with its exact count; fewer than 3 only when every watched genre is listed; no genre left out has a higher count than one listed |
| RecommendationApi.PreferredGenresFacts | frontend/Backend/StreamingPlatform.API/Controllers/RecommendationController.cs:43-49 | the top genre groups by count meet the preferred-genre promise above |
| RecommendationApi.ContentIds | frontend/Backend/StreamingPlatform.API/Controllers/RecommendationController.cs:79 | the ids of the chosen titles, position by position |
| RecommendationApi.GenrePhase | frontend/Backend/StreamingPlatform.API/Controllers/RecommendationController.cs:54-73 | at most `limit` active, unwatched titles of a preferred genre, drawn from the catalog, sorted by rating then year; empty when no genre is preferred; a candidate left out means the list is full and outranks it |
| RecommendationApi.Backfill | frontend/Backend/StreamingPlatform.API/Controllers/RecommendationController.cs:76-99 | at most `n` active titles neither watched nor already chosen, sorted by rating then year; a candidate left out means `n` were taken, each outranking it |
| RecommendationApi.RecommendFacts | frontend/Backend/StreamingPlatform.API/Controllers/RecommendationController.cs:52-105 | the recommendations are at most `limit` active unwatched titles with no identity twice; an eligible title is left out only when `limit` were returned |
| RecommendationApi.RecommendMembers | frontend/Backend/StreamingPlatform.API/Controllers/RecommendationController.cs:55-79 | both phases together hold only active, unwatched catalog titles |
| RecommendationApi.RecommendDistinct | frontend/Backend/StreamingPlatform.API/Controllers/RecommendationController.cs:79-98 | excluding the chosen ids in the backfill keeps identities unique across both phases |
| RecommendationApi.RecommendFull | frontend/Backend/StreamingPlatform.API/Controllers/RecommendationController.cs:76-99 | when the genre phase falls short, a full backfill leaves an eligible title out only when the list reaches `limit` |
| RecommendationApi.DistinctAfterChosen | frontend/Backend/StreamingPlatform.API/Controllers/RecommendationController.cs:98 | appending backfill titles whose ids were not chosen keeps identities unique |
| RecommendationApi.GetRecommendations | frontend/Backend/StreamingPlatform.API/Controllers/RecommendationController.cs:23-107 | preferred genres come from the caller's history; the list has at most `limit` active titles, none watched by the caller, no identity twice, and is full whenever an eligible title is left out; `totalRecommendations` is its length |
| RecommendationApi.CallerWatchedIds | frontend/Backend/StreamingPlatform.API/Controllers/RecommendationController.cs:52 | an id is in the watched set iff the caller's history holds a row for it |
| RecommendationApi.RecentWatches | frontend/Backend/StreamingPlatform.API/Controllers/RecommendationController.cs:115 | a row counts iff it was watched within the last 30 days |
| RecommendationApi.GetTrending | frontend/Backend/StreamingPlatform.API/Controllers/RecommendationController.cs:111-142 | at most `limit` entries, one per content id, each counting exactly the id's recent rows, non-increasing by count; each was watched in the window; an id left out is out-counted by every entry of a full list; inactive titles are not filtered |
| RecommendationApi.GetSimilarContent | frontend/Backend/StreamingPlatform.API/Controllers/RecommendationController.cs:146-175 | NotFound iff the reference id is absent; otherwise at most `limit` active titles other than the reference sharing its genre or type, sorted by rating then year; a similar title left out means the list holds `limit` titles, each outranking it |
| Popularity.WatchedIds | frontend/Backend/StreamingPlatform.API/Controllers/AdminController.cs:52 | the content id of each watch row, so an id appears iff some row watched it |
| Popularity.FindContent | frontend/Backend/StreamingPlatform.API/Controllers/AdminController.cs:59 | none iff no title has the id; otherwise a title with that id, the only one when identities are unique |
| Popularity.Describe | frontend/Backend/StreamingPlatform.API/Controllers/RecommendationController.cs:119-124 | an entry carries the group's id and count, and its title exactly when the catalog holds one with that id |
| Popularity.DescribeAll | frontend/Backend/StreamingPlatform.API/Controllers/RecommendationController.cs:116-124 | one entry per group, in group order |
| Popularity.MostWatched | frontend/Backend/StreamingPlatform.API/Controllers/AdminController.cs:50-68 | the most-watched list: at most k entries, distinct ids, non-increasing counts, exact row counts, the matching title when present; an id left out means the list holds k entries, each counted at least as often |
| Popularity.MostWatchedFacts | frontend/Backend/StreamingPlatform.API/Controllers/AdminController.cs:50-68 | the top groups of the watched ids, described, meet the most-watched promise |
| Popularity.ListedWereWatched | frontend/Backend/StreamingPlatform.API/Controllers/AdminController.cs:52-58 | every listed entry has a positive count and a watch row behind it |
| Popularity.TopRowsOrdered | frontend/Backend/StreamingPlatform.API/Controllers/AdminController.cs:52-54 | entries built from distinct groups sorted by count have distinct ids and non-increasing counts |
| Popularity.TopRowsCounted | frontend/Backend/StreamingPlatform.API/Controllers/AdminController.cs:55-60 | each entry counts exactly its id's rows and carries the title iff one exists |
| Popularity.TopRowsLeftOut | frontend/Backend/StreamingPlatform.API/Controllers/AdminController.cs:53-54 | a watched id left out of the list means the list is full and out-counts it |
| WatchHistoryApi.ByWatchedAtDescIsTotalPreorder | Backend/StreamingPlatform.API/Controllers/WatchHistoryController.cs:40 | newest-first by watch time is a total preorder, so sorting by it is well defined |
| WatchHistoryApi.GetWatchHistory | Backend/StreamingPlatform.API/Controllers/WatchHistoryController.cs:24-57 | exactly the rows of the caller's profiles (or of the given profile), each with its multiplicity, newest first |
| WatchHistoryApi.Upsert | Backend/StreamingPlatform.API/Controllers/WatchHistoryController.cs:74-102 | with a row for (profile, content, episode), only that row's progress, completion and watch time change and nothing is added; otherwise exactly one new row is appended; identities and keys stay; at most one row per key is preserved |
| WatchHistoryApi.UpsertIdempotent | Backend/StreamingPlatform.API/Controllers/WatchHistoryController.cs:74-102 | repeating the same update leaves the table as the first one did |
| WatchHistoryApi.FirstIndexAfterUpdate | Backend/StreamingPlatform.API/Controllers/WatchHistoryController.cs:74-78 | updating the first matching row in place keeps it the first match |
| WatchHistoryApi.FirstIndexAfterAppend | Backend/StreamingPlatform.API/Controllers/WatchHistoryController.cs:86-101 | with no match, the appended row becomes the first match |
| WatchHistoryApi.FirstIndexIsFirst | Backend/StreamingPlatform.API/Controllers/WatchHistoryController.cs:74-78 | a matching row with no match before it is the one `FirstOrDefault` finds |
| WatchHistoryApi.AddWatchHistory | Backend/StreamingPlatform.API/Controllers/WatchHistoryController.cs:62-105 | NotFound with no change for a profile the caller does not own; ServerError with no change when a row would be inserted whose title, or named episode, is not stored (the foreign keys of Models/WatchHistory.cs); otherwise Ok and the table is the upsert of the request; a table whose rows all reference stored titles keeps that property |
| WatchHistoryApi.DeleteWatchHistory | Backend/StreamingPlatform.API/Controllers/WatchHistoryController.cs:110-124 | when the caller owns the row, it alone is removed and the table shrinks by one; otherwise NotFound with no change |
| WatchHistoryApi.GetContinueWatching | Backend/StreamingPlatform.API/Controllers/WatchHistoryController.cs:129-160 | at most 20 of the caller's unfinished rows, newest first; a row left out means 20 were returned, none older than it |
| WatchlistApi.ByAddedAtDescIsTotalPreorder | frontend/Backend/StreamingPlatform.API/Controllers/WatchlistController.cs:39 | newest-first by time added is a total preorder |
| WatchlistApi.GetWatchlist | frontend/Backend/StreamingPlatform.API/Controllers/WatchlistController.cs:24-56 | exactly the caller's rows (or the given profile's), each with its multiplicity, newest first |
| WatchlistApi.AddToWatchlist | frontend/Backend/StreamingPlatform.API/Controllers/WatchlistController.cs:61-91 | NotFound for an unowned profile, BadRequest for a pair already listed, ServerError for a title that is not stored (the foreign key fails on save), each with no change; otherwise exactly one row for the pair is appended and its identity returned; the pair stays unique and every row keeps referencing a stored title |
| WatchlistApi.RemoveFromWatchlist | frontend/Backend/StreamingPlatform.API/Controllers/WatchlistController.cs:96-110 | an owned row alone is removed; otherwise NotFound with no change |
| WatchlistApi.WithoutMatches | frontend/Backend/StreamingPlatform.API/Controllers/WatchlistController.cs:119-133 | every matching row goes, every other row stays with its multiplicity and in order |
| WatchlistApi.CheckInWatchlist | frontend/Backend/StreamingPlatform.API/Controllers/WatchlistController.cs:141-156 | true iff a caller-owned row for the content (and profile, when given) exists |
| WatchlistApi.RemoveContentFromWatchlist | frontend/Backend/StreamingPlatform.API/Controllers/WatchlistController.cs:115-136 | NotFound with no change when nothing matches; otherwise exactly the matching rows are removed; afterwards the check is false |
| WatchlistApi.WithoutMatchesKeepsKeys | frontend/Backend/StreamingPlatform.API/Controllers/WatchlistController.cs:131-133 | removing rows keeps identities and profile-content pairs unique |
| WatchlistApi.CheckAfterAdd | frontend/Backend/StreamingPlatform.API/Controllers/WatchlistController.cs:79-91 | after an add, the check finds the content for that profile and for the caller |
| WatchlistApi.CheckOthersAfterRemove | frontend/Backend/StreamingPlatform.API/Controllers/WatchlistController.cs:119-133 | removing one content leaves the check for every other content as it was |
| PaymentApi.PlanPricesOrdered | frontend/Backend/StreamingPlatform.API/Controllers/PaymentController.cs:34-39 | the plans are exactly basic, standard and premium, each priced above zero, in increasing price |
| PaymentApi.CreateCheckoutSession | frontend/Backend/StreamingPlatform.API/Controllers/PaymentController.cs:25-84 | Unauthorized for an unknown caller and BadRequest for an unknown plan, both with no change; otherwise one active subscription and one completed USD payment of the plan's price pointing to it are appended, and the subscription's identity is returned |
| PaymentApi.ByStartDateDescIsTotalPreorder | frontend/Backend/StreamingPlatform.API/Controllers/PaymentController.cs:93 | latest start first is a total preorder |
| PaymentApi.CurrentSubscription | frontend/Backend/StreamingPlatform.API/Controllers/PaymentController.cs:91-94 | none iff the caller has no active subscription; otherwise an active one of the caller's with the latest start |
| PaymentApi.LatestStart | frontend/Backend/StreamingPlatform.API/Controllers/PaymentController.cs:93-94 | the first of a latest-start-first ordering starts no earlier than any candidate |
| PaymentApi.GetCurrentSubscription | frontend/Backend/StreamingPlatform.API/Controllers/PaymentController.cs:87-106 | Ok iff the caller has an active subscription, and then it is the current one; NotFound otherwise |
| PaymentApi.CancelCurrent | frontend/Backend/StreamingPlatform.API/Controllers/PaymentController.cs:114-126 | none iff there is no current subscription; otherwise only that subscription becomes cancelled and the other rows and all identities stay |
| PaymentApi.CancelById | frontend/Backend/StreamingPlatform.API/Controllers/PaymentController.cs:122-124 | only the row with the chosen identity is replaced by its cancelled form |
| PaymentApi.CancelSubscription | frontend/Backend/StreamingPlatform.API/Controllers/PaymentController.cs:110-128 | NotFound with no change when there is nothing to cancel; otherwise Ok and the table is the cancellation of the current subscription |
| PaymentApi.ActiveCountAfterCancel | frontend/Backend/StreamingPlatform.API/Controllers/PaymentController.cs:122-124 | cancelling an active subscription lowers the caller's active count by exactly one |
| PaymentApi.ActiveCountPositive | frontend/Backend/StreamingPlatform.API/Controllers/PaymentController.cs:91-97 | the caller's active count is positive iff an active subscription exists |
| PaymentApi.CheckoutBecomesCurrent | frontend/Backend/StreamingPlatform.API/Controllers/PaymentController.cs:48-59 | a checkout made now becomes a current subscription starting now |
| PaymentApi.ByPaymentDateDescIsTotalPreorder | frontend/Backend/StreamingPlatform.API/Controllers/PaymentController.cs:138 | latest payment first is a total preorder |
| PaymentApi.GetPaymentHistory | frontend/Backend/StreamingPlatform.API/Controllers/PaymentController.cs:132-150 | exactly the caller's payments, each with its multiplicity, newest first |
| Models.OutranksIsTotalPreorder | frontend/Backend/StreamingPlatform.API/Controllers/SearchController.cs:63-64 | rating-then-year descending is a total preorder |
| SearchApi.Matches | frontend/Backend/StreamingPlatform.API/Controllers/SearchController.cs:25-59 | exactly the active titles passing every given, non-blank filter, each with its multiplicity |
| SearchApi.MatchesCounted | frontend/Backend/StreamingPlatform.API/Controllers/SearchController.cs:61 | the number of matches is the filtered count |
| SearchApi.Search | frontend/Backend/StreamingPlatform.API/Controllers/SearchController.cs:21-91 | `totalCount` counts all matches; the page holds only matching titles, sorted by rating then year, sized by skip and take; `totalPages` is the ceiling of count over page size |
| SearchApi.RankedSlice | frontend/Backend/StreamingPlatform.API/Controllers/SearchController.cs:63-67 | any slice of the ranked matches is sorted and holds only matches |
| SearchApi.Ranked | frontend/Backend/StreamingPlatform.API/Controllers/SearchController.cs:63-64 | a permutation of the matches, sorted by rating then year |
| SearchApi.ConsecutivePages | frontend/Backend/StreamingPlatform.API/Controllers/SearchController.cs:65-67 | two consecutive pages join into the double-size slice of the ranking, so pages neither overlap nor skip |
| SearchApi.FirstPageHoldsAll | frontend/Backend/StreamingPlatform.API/Controllers/SearchController.cs:65-89 | with a page size at least the count, page 1 holds every match and there is at most one page |
| SearchApi.StrLeIsTotalPreorder | frontend/Backend/StreamingPlatform.API/Controllers/SearchController.cs:101 | ordinal string order is a total preorder |
| SearchApi.ListedGenres | frontend/Backend/StreamingPlatform.API/Controllers/SearchController.cs:97-99 | a genre appears iff some active title has it non-empty |
| SearchApi.GetGenres | frontend/Backend/StreamingPlatform.API/Controllers/SearchController.cs:95-104 | the distinct non-empty genres of active titles, strictly ascending |
| SearchApi.ListedYears | frontend/Backend/StreamingPlatform.API/Controllers/SearchController.cs:111-113 | a year appears iff some active title was released in it |
| SearchApi.GetYears | frontend/Backend/StreamingPlatform.API/Controllers/SearchController.cs:109-118 | the distinct release years of active titles, strictly descending |
| Paging.PageCountIsCeiling | frontend/Backend/StreamingPlatform.API/Controllers/SearchController.cs:89 | the page count is the least number of pages covering the count; 0 for no items |
| Paging.SinglePage | frontend/Backend/StreamingPlatform.API/Controllers/AdminController.cs:118 | a count no larger than the page size needs at most one page |
| Paging.OffsetIsProduct | frontend/Backend/StreamingPlatform.API/Controllers/SearchController.cs:66 | the skip count is (page - 1) times the page size |
| ContentApi.EpisodeTotalAppend | frontend/Backend/StreamingPlatform.API/Controllers/ContentController.cs:49 | the episode total of joined season lists is the sum of their totals |
| ContentApi.EpisodeTotalBounds | frontend/Backend/StreamingPlatform.API/Controllers/ContentController.cs:49 | no season has more episodes than the total, and the total is 0 iff every season is empty |
| ContentApi.Summarize | frontend/Backend/StreamingPlatform.API/Controllers/ContentController.cs:36-50 | the listing entry keeps the identity, counts the seasons and sums their episodes; no seasons means no episodes |
| ContentApi.GetAllContent | frontend/Backend/StreamingPlatform.API/Controllers/ContentController.cs:22-53 | an entry is listed iff it summarizes an active title passing the exact type and genre filters |
| ContentApi.AverageRating | frontend/Backend/StreamingPlatform.API/Controllers/ContentController.cs:97 | 0 without ratings; otherwise the value whose product with the count is the sum, i.e. the mean |
| ContentApi.RatingSumBounds | frontend/Backend/StreamingPlatform.API/Models/Rating.cs:12 | with every score on the 1 to 5 scale, the sum lies between the count and five times the count |
| ContentApi.ScaleFromProduct | frontend/Backend/StreamingPlatform.API/Controllers/ContentController.cs:97 | a mean whose product with the count lies between the count and five times it is itself on the 1 to 5 scale |
| ContentApi.AverageOnScale | frontend/Backend/StreamingPlatform.API/Controllers/ContentController.cs:97 | the average of on-scale scores is between 1 and 5 |
| ContentApi.GetContentById | frontend/Backend/StreamingPlatform.API/Controllers/ContentController.cs:58-101 | Ok iff an active title has the id, carrying it with its rating count and mean; NotFound otherwise |
| ContentApi.CreateContent | frontend/Backend/StreamingPlatform.API/Controllers/ContentController.cs:107-129 | exactly one row carrying the request's fields and the next identity, with no rating, active and without seasons, is appended, and that stored entity is returned |
| ContentApi.CreatedIsFound | frontend/Backend/StreamingPlatform.API/Controllers/ContentController.cs:107-129 | a created title is then found by its identity |
| ContentApi.UpdatedFields | frontend/Backend/StreamingPlatform.API/Controllers/ContentController.cs:141-146 | each of the six fields is replaced iff the request gives it; every other field stays; updating twice equals once; an empty request changes nothing |
| Collections.ReplaceByKey | frontend/Backend/StreamingPlatform.API/Controllers/ContentController.cs:137-146 | only the rows with the identity are transformed; the rest stay in place (used for titles and for users) |
| ContentApi.ReplaceByIdKeepsKeys | frontend/Backend/StreamingPlatform.API/Controllers/ContentController.cs:141-147 | an identity-preserving update keeps identities unique and below the counter |
| ContentApi.UpdateContent | frontend/Backend/StreamingPlatform.API/Controllers/ContentController.cs:135-150 | NotFound with no change for an unknown id; otherwise Ok and the row is replaced by its coalescing update |
| ContentApi.DeleteContent | frontend/Backend/StreamingPlatform.API/Controllers/ContentController.cs:156-165 | NotFound with no change for an unknown id; otherwise Ok and the row is deactivated |
| ContentApi.SoftDeleteProperties | frontend/Backend/StreamingPlatform.API/Controllers/ContentController.cs:158-165 | a soft delete keeps every row and identity, changes at most the active flag, is harmless to repeat, and makes the title not found |
| ContentApi.SoftDeletedNotListed | frontend/Backend/StreamingPlatform.API/Controllers/ContentController.cs:24-33 | a soft-deleted title is not listed |
| AuthApi.StoredHashVerifies | Backend/StreamingPlatform.API/Controllers/AuthController.cs:120-124 | the stored hash of a password verifies that password |
| AuthApi.FindByEmail | Backend/StreamingPlatform.API/Controllers/AuthController.cs:76-78 | none iff no user has the e-mail; otherwise a user with it, the only one when e-mails are unique |
| AuthApi.DefaultProfile | Backend/StreamingPlatform.API/Controllers/AuthController.cs:51-58 | the profile belongs to the new user, is not a kids profile, and is named by the first name, or "Default" only when there is none |
| AuthApi.Register | Backend/StreamingPlatform.API/Controllers/AuthController.cs:27-65 | BadRequest with no change for a missing or blank credential or a taken e-mail; otherwise exactly one user with the hashed password and exactly one default profile are appended |
| AuthApi.ProfilesOf | Backend/StreamingPlatform.API/Controllers/AuthController.cs:100-106 | exactly the user's profiles, each with its multiplicity in the table, in table order |
| AuthApi.Login | Backend/StreamingPlatform.API/Controllers/AuthController.cs:69-109 | BadRequest iff a credential is blank; Unauthorized "Invalid" iff the e-mail is unknown or the password fails; "inactive" only after the password passed; Ok carries an active user with that e-mail and password, and its profiles |
| AuthApi.LoginSucceedsIff | Backend/StreamingPlatform.API/Controllers/AuthController.cs:72-84 | with unique e-mails, login succeeds iff the credentials are present and an active user with that e-mail has a matching hash |
| AuthApi.LoginAfterRegister | Backend/StreamingPlatform.API/Controllers/AuthController.cs:37-63 | right after registering, logging in with the same credentials succeeds with the new user and exactly its default profile |
| AdminApi.GetStatistics | frontend/Backend/StreamingPlatform.API/Controllers/AdminController.cs:26-30 | totals count every row, soft-deleted ones included; active users and titles are exactly the numbers of active rows, and subscriptions exactly the number whose status is "Active"; these reach the totals (or 0) exactly when every row is (not) active |
| Collections.CountIsFilterLength | frontend/Backend/StreamingPlatform.API/Controllers/AdminController.cs:26-30 | counting the rows that satisfy a condition gives the length of the filtered table |
| AdminApi.SoftDeleteStatistics | frontend/Backend/StreamingPlatform.API/Controllers/AdminController.cs:28-29 | soft-deleting an active title keeps the total and lowers the active count by one |
| AdminApi.ByCreatedAtDescIsTotalPreorder | frontend/Backend/StreamingPlatform.API/Controllers/AdminController.cs:36 | newest-first by creation time is a total preorder |
| AdminApi.RecentUsers | frontend/Backend/StreamingPlatform.API/Controllers/AdminController.cs:35-48 | at most 10 users, newest first; a user left out means 10 were listed, none older |
| AdminApi.TopContent | frontend/Backend/StreamingPlatform.API/Controllers/AdminController.cs:50-68 | the most-watched list of at most 10 titles, each watched at least once |
| AdminApi.GetDashboard | frontend/Backend/StreamingPlatform.API/Controllers/AdminController.cs:24-84 | the statistics are GetStatistics' counts; the recent users are min(10, users) of the users, newest first, none left out registered later than a listed one; the top content is the most-watched list of at most 10 titles, one entry per id with exact counts, non-increasing |
| AdminApi.ProfileCount | frontend/Backend/StreamingPlatform.API/Controllers/AdminController.cs:107 | the user's profile count is the number of profile rows whose owner is the user, so 0 iff no profile belongs to them |
| AdminApi.UsersByAge | frontend/Backend/StreamingPlatform.API/Controllers/AdminController.cs:95 | a permutation of the users, newest first |
| AdminApi.UsersOnPage | frontend/Backend/StreamingPlatform.API/Controllers/AdminController.cs:92-97 | the page's users, newest first, sized by skip and take |
| AdminApi.GetUsers | frontend/Backend/StreamingPlatform.API/Controllers/AdminController.cs:88-120 | `totalCount` is all users and `totalPages` its ceiling over the page size; each row is the page's user with its profile count and an active-subscription flag that holds iff the user has an active subscription |
| AdminApi.FirstUsersPageHoldsAll | frontend/Backend/StreamingPlatform.API/Controllers/AdminController.cs:90-118 | with a page size at least the user count, page 1 lists every user and there is at most one page |
| Collections.ReplaceByKeyAt | frontend/Backend/StreamingPlatform.API/Controllers/AdminController.cs:126-130 | with unique identities, replacing the row with one identity is a single-position update |
| AdminApi.UpdateUserStatus | frontend/Backend/StreamingPlatform.API/Controllers/AdminController.cs:124-134 | NotFound with no change for an unknown id; otherwise only that user's active flag is set |
| AdminApi.UpdateUserRole | frontend/Backend/StreamingPlatform.API/Controllers/AdminController.cs:138-148 | NotFound with no change for an unknown id; otherwise only that user's role is set, unvalidated |
| AdminApi.DeactivationStatistics | frontend/Backend/StreamingPlatform.API/Controllers/AdminController.cs:26-27 | deactivating an active user keeps the total and lowers the active count by one |
| AdminApi.DeactivatedLoginRejected | frontend/Backend/StreamingPlatform.API/Controllers/AdminController.cs:130 | a deactivated user with the right password is refused as inactive |
| AdminApi.RegistrationDays | frontend/Backend/StreamingPlatform.API/Controllers/AdminController.cs:157-159 | a day appears iff a user registered on it within [start, end] |
| AdminApi.WatchDays | frontend/Backend/StreamingPlatform.API/Controllers/AdminController.cs:178-180 | a day appears iff a title was watched on it within [start, end] |
| AdminApi.ActiveGenres | frontend/Backend/StreamingPlatform.API/Controllers/AdminController.cs:171-173 | a genre appears iff an active title has it non-empty |
| AdminApi.ListedGenreImages | frontend/Backend/StreamingPlatform.API/Controllers/AdminController.cs:172-173 | the genres of the active, genred titles are exactly those genres |
| AdminApi.GetAnalytics | frontend/Backend/StreamingPlatform.API/Controllers/AdminController.cs:152-192 | registrations and watch activity count each day's records inside [start, end], start and end defaulting to a month ago and now, in strictly ascending day order; genre counts cover active titles with a genre, non-increasing by count |
| Grouping.Keys | frontend/Backend/StreamingPlatform.API/Controllers/RecommendationController.cs:48 | the keys of the groups, position by position |
| Grouping.GroupCount | frontend/Backend/StreamingPlatform.API/Controllers/AdminController.cs:173-174 | one group per distinct key, counting exactly its occurrences |
| Grouping.ByCountDescIsTotalPreorder | frontend/Backend/StreamingPlatform.API/Controllers/AdminController.cs:175 | largest count first is a total preorder |
| Grouping.ByKeyAscIsTotalPreorder | frontend/Backend/StreamingPlatform.API/Controllers/AdminController.cs:161 | ascending day is a total preorder |
| Grouping.TopGroups | frontend/Backend/StreamingPlatform.API/Controllers/RecommendationController.cs:45-47 | at most k groups of distinct keys with exact counts, largest first; fewer than k only when every key is present; no key left out out-counts a group |
| Grouping.TakenGroups | frontend/Backend/StreamingPlatform.API/Controllers/RecommendationController.cs:46-47 | taking the first k of the ranked groups keeps keys distinct and leaves out no key that out-counts a taken group |
| Grouping.RankedGroups | frontend/Backend/StreamingPlatform.API/Controllers/AdminController.cs:171-176 | the per-key counts, largest first |
| Grouping.GroupsByDay | frontend/Backend/StreamingPlatform.API/Controllers/AdminController.cs:157-162 | the per-day counts, in strictly ascending day order |
| Grouping.SortedGroupsKeepKeys | frontend/Backend/StreamingPlatform.API/Controllers/AdminController.cs:175 | reordering the groups keeps them the per-key counts |
| SeedData.Titles | Backend/StreamingPlatform.API/Data/SeedData.cs:10-12 | the stored titles, row by row |
| SeedData.NewMovies | Backend/StreamingPlatform.API/Data/SeedData.cs:326-328 | a seed movie is kept iff its title is not stored, within the seed list's multiplicities |
| SeedData.Inserted | Backend/StreamingPlatform.API/Data/SeedData.cs:326-334 | the inserted rows are the seed movies in order, numbered consecutively from the counter |
| SeedData.SeedContent | Backend/StreamingPlatform.API/Data/SeedData.cs:8-335 | the table becomes the old rows unchanged followed by the rows for the seed movies whose titles were missing; the counter grows by their number |
| SeedData.AddMissing | Backend/StreamingPlatform.API/Data/SeedData.cs:326-334 | the same for any movie list, keeping identities unique |
| SeedData.FreshRowsKeepKeys | Backend/StreamingPlatform.API/Data/SeedData.cs:333-334 | rows numbered from a counter above every stored identity keep identities unique |
| SeedData.MoviesDistinct | Backend/StreamingPlatform.API/Data/SeedData.cs:16-322 | the seed list holds 17 movies with pairwise different titles |
| SeedData.SignatureIdentifies | Backend/StreamingPlatform.API/Data/SeedData.cs:20-308 | each seed title is told apart by its first letter and length |
| SeedData.EmptyCatalogGetsAll | Backend/StreamingPlatform.API/Data/SeedData.cs:326-328 | an empty catalog receives the whole list in order |
| SeedData.AllPresentAddsNothing | Backend/StreamingPlatform.API/Data/SeedData.cs:330-331 | when every seed title is stored, nothing is inserted |
| SeedData.SeedingStoresEveryTitle | Backend/StreamingPlatform.API/Data/SeedData.cs:326-334 | after seeding, every seed title is stored |
| SeedData.SeedIdempotent | Backend/StreamingPlatform.API/Data/SeedData.cs:10-334 | seeding a seeded catalog inserts nothing |
| SeedData.SeedRowsAreNewMovies | Backend/StreamingPlatform.API/Data/SeedData.cs:16-334 | every inserted row is an active movie without seasons, with a seed title that was not stored and the seed rating; with distinct seed titles, no title is inserted twice |
| SignupPage.Utf16Length | frontend/app/signup/page.tsx:43-46 | JavaScript's `length` counts one or two UTF-16 code units per character, so between the character count and twice it |
| SignupPage.Utf16LengthAppend | frontend/app/signup/page.tsx:43-46 | the code-unit length of a concatenation is the sum of the parts' lengths |
| SignupPage.Utf16LengthOfBmp | frontend/app/signup/page.tsx:43-46 | for text within the Basic Multilingual Plane, code units and characters agree |
| SignupPage.PasswordStrength | frontend/app/signup/page.tsx:42-47 | strength lies in 0 to 100, is 0 (with no text) iff the password is empty, and 100 iff it has at least 10 code units |
| SignupPage.StrengthMonotone | frontend/app/signup/page.tsx:42-47 | a password of more code units never scores lower |
| SignupPage.StrengthGrowsWhileTyping | frontend/app/signup/page.tsx:42-47 | extending a password never lowers its score |
| SignupPage.StrengthBands | frontend/app/signup/page.tsx:44-45 | lengths 1 to 5 code units give exactly 33 "Weak", 6 to 9 exactly 66 "Medium" |
| SignupPage.AstralCharactersCountTwice | frontend/app/signup/page.tsx:44-45 | three emoji are six code units and read "Medium" |
| SignupPage.Split | frontend/app/signup/page.tsx:27 | at least one piece, none holding a space |
| SignupPage.FirstSpace | frontend/app/signup/page.tsx:27 | the position of a space with none before it |
| SignupPage.JoinSplit | frontend/app/signup/page.tsx:27-32 | joining the pieces with single spaces gives back the text |
| SignupPage.SplitNameParts | frontend/app/signup/page.tsx:27-32 | the first name is the text before the first space (the whole name without one), the last name everything after it (or empty); with a space, first + " " + last is the name |
| SignupPage.SplitAtSpace | frontend/app/signup/page.tsx:27-32 | with a space, the parts are the text around the first space, which rebuild the name |
| Display.Minutes | frontend/app/browse/page.tsx:35 | the JavaScript remainder: within 0..59 for a non-negative time, within -59..0 otherwise, differing from the time by whole hours |
| Display.DurationText | frontend/app/page.tsx:102-106 | the text ends in "m" |
| Display.LeadingDigits | frontend/app/browse/page.tsx:34-36 | the length of the run of digits that opens the text |
| Display.DurationRoundTrip | frontend/app/browse/page.tsx:34-36 | reading the text of a non-negative time gives the time back, with hours times 60 plus minutes equal to it and minutes below 60 |
| Display.TextWithHours | frontend/app/page.tsx:105 | the "Hh Mm" form reads back as the time |
| Display.TextWithoutHours | frontend/app/page.tsx:105 | the "Mm" form reads back as the time |
| BrowsePage.FormatDuration | frontend/app/browse/page.tsx:32-37 | "N/A" iff the time is missing or 0; a positive time's text reads back as the time |
| BrowsePage.OrText | frontend/app/browse/page.tsx:53-58 | the value when present and non-empty, else the fallback |
| BrowsePage.OrNumber | frontend/app/browse/page.tsx:55-56 | the value when present and non-zero, else the fallback |
| BrowsePage.MapItem | frontend/app/browse/page.tsx:50-60 | the card type is "series" iff the lower-cased type is "series", else "movie"; missing rating, year, genre, thumbnail and description take 0, 2024, "Unknown", the placeholder and ""; the genre is never empty |
| BrowsePage.MapItems | frontend/app/browse/page.tsx:50-60 | one card per listed title, in order |
| BrowsePage.FilterByCategory | frontend/app/browse/page.tsx:74-77 | "all" gives every card; another category keeps, in order and with multiplicity, exactly the cards whose lower-cased genre equals it |
| BrowsePage.FilterIdempotent | frontend/app/browse/page.tsx:74-77 | choosing the same category twice shows the same cards |
| BrowsePage.UnknownGenreCategory | frontend/app/browse/page.tsx:57-76 | a title without a genre shows in no category except "unknown" |
| HomePage.FormatDuration | frontend/app/page.tsx:102-106 | a non-negative time's text reads back as the time (so 0 gives "0m") |
| HomePage.ByRatingDescIsTotalPreorder | frontend/app/page.tsx:52 | higher rating first, a missing one counting as 0, is a total preorder |
| HomePage.TopRated | frontend/app/page.tsx:52-53 | the first min(10, n) of a sorted copy: sorted by rating, drawn from the listing, none left out rated higher than one shown |
| HomePage.GenreRow | frontend/app/page.tsx:56-58 | in listing order, at most 10 titles whose lower-cased genre contains the keyword; a match is left out only when 10 are shown |
| HomePage.DeriveRows | frontend/app/page.tsx:39-100 | a non-empty listing features its first title, trends its first 10 and fills the top-rated and genre rows; an empty one puts the stand-in in the featured, trending, top-rated and action slots; a failed load in the featured and trending slots only |
| HomePage.AlwaysFeatured | frontend/app/page.tsx:39-100 | a title is always featured and the trending row holds 1 to 10 titles |
| HomePage.MockIsAction | frontend/app/page.tsx:61-77 | the stand-in title belongs in the action row it is put in |
| Database.KeysBelowSameKeys | frontend/Backend/StreamingPlatform.API/Data/ApplicationDbContext.cs:11-20 | a rewrite that keeps every key keeps them below the counter |
| Database.Store.constructor | frontend/Backend/StreamingPlatform.API/Data/ApplicationDbContext.cs:11-20 | an empty store whose tables are all valid |

## Left out

- Token and hashing: the signed JWT a login returns is not modelled. The password hash (SHA-256 in Base64) is an arbitrary function `hash` passed in, and `VerifyPassword` compares hashes.
- Wiring, CORS, the SignalR hub, migrations, media storage and the purely presentational pages and components are not part of this model.
- Asynchrony, `Include`, `SaveChangesAsync` and transactions: each request is one atomic update of the store. Checkout saves the subscription and the payment in two steps; the model appends both at once. Concurrent requests are not modelled, so watchlist pairs are unique only for sequential requests.
- Clock and calendar: `DateTime.UtcNow` is the input `now`. The start of the analytics window (`AddMonths(-1)`) is the input `monthAgo`. A subscription's end date is an input. The calendar day of an instant is the function `day`. The trending window is 30 days of 86,400 seconds.
- Generated identifiers: customer, provider-subscription and transaction ids (GUIDs) are arbitrary string inputs. Table identities come from per-table counters.
- Floating point:
  - The revenue total and revenue by day are not modelled, so the dashboard has no `totalRevenue` and analytics has no `revenueByDate`.
  - `ContentApi.AverageRating` is a real number whose product with the count is the sum, rather than a `double`.
  - `totalPages` uses integer ceiling division instead of `Math.Ceiling` over a `double`.
  - Ratings and prices are integer tenths and cents.
  - The home page sorts ratings in tenths rather than as JavaScript numbers.
- Database semantics: foreign keys are checked only where a request can break one, on the watch-history and watchlist inserts (ServerError); every other insert references the caller or rows the same request creates. Text comparison is ordinal and case-sensitive, as under a binary collation; search's `Contains` is therefore case-sensitive. Missing ratings and years count as lowest under descending order. Tie order of every ordering is left open.
- Paging.Offset: the skip count is the exact product `(page - 1) * pageSize`; the C# `int` product overflows once it reaches 2^31, which the model does not reproduce.
- Boundary arguments: `page >= 1` and `pageSize >= 1` are required, and `limit` is a `nat`. The database's behaviour on other values is not visible in the code.
- Letter case: lower-casing is ASCII only.
- HomePage.TopRated: JavaScript's sort is stable; the contract does not fix the order among equally rated titles.
- HomePage.FormatDuration: for a negative time the text is produced, but the round trip is stated for non-negative times only.
- RecommendationApi.GetRecommendations: the backfill that `AddRange` appends to the local result list is modelled as concatenation of values inside a function, because the list is local to the request and never stored.
- AdminApi.TopContent: the source dereferences each group's first title without a null check; the model keeps the title optional and says when it is present.
- AdminApi.GetDashboard: recent users and top content are returned whole rather than projected to the displayed columns.
- The per-table validity predicates of `Database.Store` (unique keys below the counters, unique e-mails, watch-history slots and watchlist pairs) are preconditions and postconditions of each writing method. The store as a whole is not re-checked by endpoints that do not write it.
- ContentApi.GetContentById: the ratings list attached to the detail is represented by its count and mean only.
