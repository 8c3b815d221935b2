/**
 * The administrator endpoints: the dashboard's counts and top lists, the
 * paged list of users, the status and role updates of one user, and the
 * per-day and per-genre analytics. Revenue figures, which the source sums in
 * floating point, are not modelled; the calendar day of an instant is the
 * parameter `day`.
 */
module AdminApi {
  import opened Wrappers
  import opened Collections
  import opened Sorting
  import opened Grouping
  import opened Paging
  import opened Models
  import opened Database
  import opened AuthApi
  import opened PaymentApi
  import ContentApi
  import opened Popularity

  /** The number of users, titles and top-content entries the dashboard lists. */
  const RecentUsersCap := 10
  const TopContentCap := 10

  predicate IsActiveUser(u: User) {
    u.isActive
  }

  predicate IsActiveContent(c: Content) {
    c.isActive
  }

  predicate IsActiveSubscription(s: Subscription) {
    s.status == StatusActive
  }

  datatype Statistics = Statistics(
    totalUsers: nat,
    activeUsers: nat,
    totalContent: nat,
    activeContent: nat,
    totalSubscriptions: nat)

  /**
   * The dashboard's counts: every user and every title, soft-deleted ones
   * included, the active ones among them, and the subscriptions whose status
   * is "Active".
   */
  function GetStatistics(users: seq<User>, contents: seq<Content>, subs: seq<Subscription>): (r: Statistics)
    ensures r.totalUsers == |users| && r.totalContent == |contents|
    ensures r.activeUsers <= r.totalUsers && r.activeContent <= r.totalContent && r.totalSubscriptions <= |subs|
    ensures r.activeUsers == r.totalUsers <==> forall u | u in users :: u.isActive
    ensures r.activeContent == 0 <==> forall c | c in contents :: !c.isActive
    ensures r.totalSubscriptions == 0 <==> forall s | s in subs :: s.status != StatusActive
    ensures r.activeUsers == |Filter(users, IsActiveUser)| && r.activeContent == |Filter(contents, IsActiveContent)|
    ensures r.totalSubscriptions == |Filter(subs, IsActiveSubscription)|
  {
    CountIsFilterLength(users, IsActiveUser);
    CountIsFilterLength(contents, IsActiveContent);
    CountIsFilterLength(subs, IsActiveSubscription);
    CountExtremes(users, IsActiveUser);
    CountExtremes(contents, IsActiveContent);
    CountExtremes(subs, IsActiveSubscription);
    Statistics(|users|, Count(users, IsActiveUser), |contents|, Count(contents, IsActiveContent), Count(subs, IsActiveSubscription))
  }

  /**
   * A soft delete of an active title keeps the title count and lowers the
   * active count by one.
   */
  lemma SoftDeleteStatistics(users: seq<User>, contents: seq<Content>, subs: seq<Subscription>, id: int)
    requires DistinctBy(contents, ContentKey)
    requires exists c | c in contents :: c.id == id && c.isActive
    ensures var before, after := GetStatistics(users, contents, subs),
                                 GetStatistics(users, ReplaceByKey(contents, ContentKey, id, ContentApi.Deactivated), subs);
      after.totalContent == before.totalContent && after.activeContent == before.activeContent - 1
  {
    var i :| 0 <= i < |contents| && contents[i].id == id && contents[i].isActive;
    var d := ReplaceByKey(contents, ContentKey, id, ContentApi.Deactivated);
    assert d == contents[i := ContentApi.Deactivated(contents[i])];
    CountUpdate(contents, i, ContentApi.Deactivated(contents[i]), IsActiveContent);
  }

  /** `OrderByDescending(u => u.CreatedAt)`. */
  predicate ByCreatedAtDesc(a: User, b: User) {
    a.createdAt >= b.createdAt
  }

  lemma ByCreatedAtDescIsTotalPreorder()
    ensures TotalPreorder(ByCreatedAtDesc)
  {
  }

  /**
   * The dashboard's recent users: at most 10, newest first; a user is left
   * out only when 10 were listed, all registered no earlier than them.
   */
  function RecentUsers(users: seq<User>): (r: seq<User>)
    ensures |r| == Min(RecentUsersCap, |users|)
    ensures multiset(r) <= multiset(users)
    ensures SortedBy(r, ByCreatedAtDesc)
    ensures forall u | u in users && u !in r :: |r| == RecentUsersCap && forall v | v in r :: v.createdAt >= u.createdAt
  {
    ByCreatedAtDescIsTotalPreorder();
    TopK(users, ByCreatedAtDesc, RecentUsersCap)
  }

  /**
   * The dashboard's top content: the 10 most watched titles, one entry each,
   * most watched first.
   */
  function TopContent(histories: seq<WatchHistory>, contents: seq<Content>): (r: seq<WatchedEntry>)
    ensures MostWatchedList(histories, contents, TopContentCap, r)
    ensures forall e | e in r :: e.watchCount > 0
  {
    ListedWereWatched(histories, contents, TopContentCap, MostWatched(histories, contents, TopContentCap));
    MostWatched(histories, contents, TopContentCap)
  }

  datatype Dashboard = Dashboard(statistics: Statistics, recentUsers: seq<User>, topContent: seq<WatchedEntry>)

  /** GET api/admin/dashboard. */
  function GetDashboard(users: seq<User>, contents: seq<Content>, subs: seq<Subscription>, histories: seq<WatchHistory>)
    : (r: Dashboard)
    ensures r.statistics.activeUsers <= r.statistics.totalUsers == |users|
    ensures r.statistics.activeContent <= r.statistics.totalContent == |contents|
    ensures |r.recentUsers| <= RecentUsersCap && |r.topContent| <= TopContentCap
    ensures r.statistics == GetStatistics(users, contents, subs)
    ensures |r.recentUsers| == Min(RecentUsersCap, |users|) && multiset(r.recentUsers) <= multiset(users)
    ensures SortedBy(r.recentUsers, ByCreatedAtDesc)
    ensures forall u | u in users && u !in r.recentUsers ::
      |r.recentUsers| == RecentUsersCap && forall v | v in r.recentUsers :: v.createdAt >= u.createdAt
    ensures MostWatchedList(histories, contents, TopContentCap, r.topContent)
  {
    Dashboard(GetStatistics(users, contents, subs), RecentUsers(users), TopContent(histories, contents))
  }

  /** The number of profiles of user `userId`: `u.Profiles.Count`. */
  function ProfileCount(profiles: seq<Profile>, userId: int): (r: nat)
    ensures r <= |profiles|
    ensures r == 0 <==> forall p | p in profiles :: p.userId != userId
    ensures r == Count(profiles, OwnedBy(userId))
  {
    var mine := ProfilesOf(profiles, userId);
    assert mine != [] ==> mine[0] in mine;
    CountIsFilterLength(profiles, OwnedBy(userId));
    |mine|
  }

  /** The user has some subscription whose status is "Active". */
  predicate HasActiveSubscription(subs: seq<Subscription>, userId: int) {
    exists s | s in subs :: ActiveOf(userId, s)
  }

  /** One row of the users page. */
  datatype UserRow = UserRow(user: User, profileCount: nat, hasActiveSubscription: bool)

  function UserRowOf(profiles: seq<Profile>, subs: seq<Subscription>, u: User): UserRow {
    UserRow(u, ProfileCount(profiles, u.id), HasActiveSubscription(subs, u.id))
  }

  datatype UsersPage = UsersPage(users: seq<UserRow>, totalCount: nat, page: int, pageSize: int, totalPages: nat)

  /** All users, newest first. */
  function UsersByAge(users: seq<User>): (r: seq<User>)
    ensures multiset(r) == multiset(users) && |r| == |users|
    ensures SortedBy(r, ByCreatedAtDesc)
    ensures forall u :: u in r <==> u in users
  {
    ByCreatedAtDescIsTotalPreorder();
    var r := Sort(users, ByCreatedAtDesc);
    assert forall u :: u in r <==> u in multiset(r);
    assert forall u :: u in users <==> u in multiset(users);
    r
  }

  /**
   * The users that page `page` shows: newest first, skipping the pages before
   * it and taking at most `pageSize`.
   */
  function UsersOnPage(users: seq<User>, page: int, pageSize: int): (r: seq<User>)
    requires page >= 1 && pageSize >= 1
    ensures |r| == Min(pageSize, Max(0, |users| - Offset(page, pageSize)))
    ensures SortedBy(r, ByCreatedAtDesc)
    ensures multiset(r) <= multiset(users)
    ensures forall u | u in r :: u in users
  {
    var ordered, skip := UsersByAge(users), Offset(page, pageSize);
    SliceSorted(ordered, ByCreatedAtDesc, skip, pageSize);
    SliceSubMultiset(ordered, skip, pageSize);
    SubMultisetMembers(users, Slice(ordered, skip, pageSize));
    Slice(ordered, skip, pageSize)
  }

  /**
   * GET api/admin/users: the users of page `page`, in order, each with their
   * profile count and whether they hold an active subscription; the total is
   * every user and the page count its ceiling over the page size.
   */
  function GetUsers(users: seq<User>, profiles: seq<Profile>, subs: seq<Subscription>, page: int, pageSize: int)
    : (r: UsersPage)
    requires page >= 1 && pageSize >= 1
    ensures r.totalCount == |users| && r.page == page && r.pageSize == pageSize
    ensures r.totalPages == PageCount(|users|, pageSize)
    ensures |r.users| == |UsersOnPage(users, page, pageSize)|
    ensures forall i | 0 <= i < |r.users| ::
      && r.users[i].user == UsersOnPage(users, page, pageSize)[i]
      && r.users[i].profileCount == ProfileCount(profiles, r.users[i].user.id)
      && (r.users[i].hasActiveSubscription <==> exists s | s in subs :: ActiveOf(r.users[i].user.id, s))
  {
    var rows := Map(UsersOnPage(users, page, pageSize), u => UserRowOf(profiles, subs, u));
    UsersPage(rows, |users|, page, pageSize, PageCount(|users|, pageSize))
  }

  /** When one page is at least as large as the user table, its first page lists every user. */
  lemma FirstUsersPageHoldsAll(users: seq<User>, profiles: seq<Profile>, subs: seq<Subscription>, pageSize: int)
    requires pageSize >= |users| && pageSize >= 1
    ensures forall u | u in users :: exists e | e in GetUsers(users, profiles, subs, 1, pageSize).users :: e.user == u
    ensures GetUsers(users, profiles, subs, 1, pageSize).totalPages <= 1
  {
    var r := GetUsers(users, profiles, subs, 1, pageSize);
    var shown := UsersOnPage(users, 1, pageSize);
    assert Offset(1, pageSize) == 0;
    SubMultisetOfSameSize(users, shown);
    forall u | u in users ensures exists e | e in r.users :: e.user == u {
      assert u in multiset(shown);
      var i :| 0 <= i < |shown| && shown[i] == u;
      assert r.users[i] in r.users;
    }
    SinglePage(|users|, pageSize);
  }

  /** No user has identity `id`: `FindAsync` returns null. */
  predicate NoUser(users: seq<User>, id: int) {
    forall u | u in users :: u.id != id
  }

  function WithStatus(isActive: bool): User -> User {
    (u: User) => u.(isActive := isActive)
  }

  function WithRole(role: string): User -> User {
    (u: User) => u.(role := role)
  }

  /**
   * PUT api/admin/users/{id}/status: NotFound with no change for an unknown
   * user; otherwise that user's active flag, and nothing else, is set.
   */
  method UpdateUserStatus(db: Store, id: int, isActive: bool) returns (r: Response<string>)
    requires db.UserTableValid()
    modifies db`users
    ensures db.UserTableValid()
    ensures NoUser(old(db.users), id) ==> r == NotFound("User not found.") && db.users == old(db.users)
    ensures !NoUser(old(db.users), id) ==>
      r == Ok("User status updated successfully.") && db.users == ReplaceByKey(old(db.users), UserKey, id, WithStatus(isActive))
  {
    var users := db.users;
    if forall u | u in users :: u.id != id {
      return NotFound("User not found.");
    }
    var i :| 0 <= i < |users| && users[i].id == id;
    ReplaceByKeyAt(users, UserKey, id, WithStatus(isActive), i);
    DistinctByUpdate(users, i, WithStatus(isActive)(users[i]), UserKey);
    DistinctByUpdate(users, i, WithStatus(isActive)(users[i]), UserEmail);
    db.users := users[i := WithStatus(isActive)(users[i])];
    return Ok("User status updated successfully.");
  }

  /**
   * PUT api/admin/users/{id}/role: NotFound with no change for an unknown
   * user; otherwise that user's role, whatever its value, and nothing else,
   * is set.
   */
  method UpdateUserRole(db: Store, id: int, role: string) returns (r: Response<string>)
    requires db.UserTableValid()
    modifies db`users
    ensures db.UserTableValid()
    ensures NoUser(old(db.users), id) ==> r == NotFound("User not found.") && db.users == old(db.users)
    ensures !NoUser(old(db.users), id) ==>
      r == Ok("User role updated successfully.") && db.users == ReplaceByKey(old(db.users), UserKey, id, WithRole(role))
  {
    var users := db.users;
    if forall u | u in users :: u.id != id {
      return NotFound("User not found.");
    }
    var i :| 0 <= i < |users| && users[i].id == id;
    ReplaceByKeyAt(users, UserKey, id, WithRole(role), i);
    DistinctByUpdate(users, i, WithRole(role)(users[i]), UserKey);
    DistinctByUpdate(users, i, WithRole(role)(users[i]), UserEmail);
    db.users := users[i := WithRole(role)(users[i])];
    return Ok("User role updated successfully.");
  }

  /**
   * Deactivating an active user lowers the active-user count by one and keeps
   * the user count.
   */
  lemma DeactivationStatistics(users: seq<User>, contents: seq<Content>, subs: seq<Subscription>, id: int)
    requires DistinctBy(users, UserKey)
    requires exists u | u in users :: u.id == id && u.isActive
    ensures var before, after := GetStatistics(users, contents, subs),
                                 GetStatistics(ReplaceByKey(users, UserKey, id, WithStatus(false)), contents, subs);
      after.totalUsers == before.totalUsers && after.activeUsers == before.activeUsers - 1
  {
    var i :| 0 <= i < |users| && users[i].id == id && users[i].isActive;
    ReplaceByKeyAt(users, UserKey, id, WithStatus(false), i);
    CountUpdate(users, i, WithStatus(false)(users[i]), IsActiveUser);
  }

  /** A deactivated user who gives the right password is told "Account is inactive." at login. */
  lemma DeactivatedLoginRejected(users: seq<User>, profiles: seq<Profile>, i: nat, password: string, hash: string -> string)
    requires DistinctBy(users, UserKey) && DistinctBy(users, UserEmail) && i < |users|
    requires HasCredentials(Some(users[i].email), Some(password)) && VerifyPassword(hash, password, users[i].passwordHash)
    ensures Login(ReplaceByKey(users, UserKey, users[i].id, WithStatus(false)), profiles, LoginRequest(Some(users[i].email), Some(password)), hash)
      == Unauthorized("Account is inactive.")
  {
    var u' := WithStatus(false)(users[i]);
    var users' := ReplaceByKey(users, UserKey, users[i].id, WithStatus(false));
    ReplaceByKeyAt(users, UserKey, users[i].id, WithStatus(false), i);
    DistinctByUpdate(users, i, u', UserEmail);
    assert users'[i] == u' && u' in users';
    assert FindByEmail(users', users[i].email) == Some(u');
  }

  /** The calendar day of a timestamp in the window [start, end] of each record: the days the analytics group by. */
  function RegistrationDays(users: seq<User>, start: int, end: int, day: int -> int): (r: seq<int>)
    ensures forall d :: d in r <==> exists u | u in users && start <= u.createdAt <= end :: day(u.createdAt) == d
  {
    var inWindow, dayOf := (u: User) => start <= u.createdAt <= end, (u: User) => day(u.createdAt);
    MapFilterMembers(users, inWindow, dayOf);
    Map(Filter(users, inWindow), dayOf)
  }

  function WatchDays(histories: seq<WatchHistory>, start: int, end: int, day: int -> int): (r: seq<int>)
    ensures forall d :: d in r <==> exists w | w in histories && start <= w.watchedAt <= end :: day(w.watchedAt) == d
  {
    var inWindow, dayOf := (w: WatchHistory) => start <= w.watchedAt <= end, (w: WatchHistory) => day(w.watchedAt);
    MapFilterMembers(histories, inWindow, dayOf);
    Map(Filter(histories, inWindow), dayOf)
  }

  /** An active title with a non-empty genre. */
  predicate HasGenre(c: Content) {
    c.isActive && !Text.IsNullOrEmpty(c.genre)
  }

  /** The genre of every active title that has a non-empty one. */
  function ActiveGenres(contents: seq<Content>): (r: seq<string>)
    ensures forall g :: g in r <==> exists c | c in contents && HasGenre(c) :: c.genre == Some(g)
  {
    var genreOf := (c: Content) => c.genre.GetOr("");
    ListedGenreImages(contents, genreOf);
    Map(Filter(contents, HasGenre), genreOf)
  }

  lemma ListedGenreImages(contents: seq<Content>, genreOf: Content -> string)
    requires forall c :: genreOf(c) == c.genre.GetOr("")
    ensures forall g :: g in Map(Filter(contents, HasGenre), genreOf) <==> exists c | c in contents && HasGenre(c) :: c.genre == Some(g)
  {
    MapFilterMembers(contents, HasGenre, genreOf);
    forall g ensures (exists c | c in contents && HasGenre(c) :: genreOf(c) == g) <==> exists c | c in contents && HasGenre(c) :: c.genre == Some(g) {
      if exists c | c in contents && HasGenre(c) :: genreOf(c) == g {
        var c :| c in contents && HasGenre(c) && genreOf(c) == g;
        assert c.genre == Some(g);
      }
      if exists c | c in contents && HasGenre(c) :: c.genre == Some(g) {
        var c :| c in contents && HasGenre(c) && c.genre == Some(g);
        assert genreOf(c) == g;
      }
    }
  }

  datatype Analytics = Analytics(userRegistrations: seq<Group<int>>, contentByGenre: seq<Group<string>>, watchActivity: seq<Group<int>>)

  /**
   * GET api/admin/analytics over [start, end], by default the month before
   * `now` (`monthAgo` is the instant one calendar month earlier): the
   * registrations and the watch rows in the window, counted per day, days
   * ascending; and the active titles with a genre, counted per genre, most
   * frequent first.
   */
  function GetAnalytics(
    users: seq<User>, histories: seq<WatchHistory>, contents: seq<Content>,
    startDate: Option<int>, endDate: Option<int>, now: int, monthAgo: int, day: int -> int)
    : (r: Analytics)
    ensures var start, end := startDate.GetOr(monthAgo), endDate.GetOr(now);
      && CountsPerKey(RegistrationDays(users, start, end, day), r.userRegistrations)
      && (forall i, j | 0 <= i < j < |r.userRegistrations| :: r.userRegistrations[i].key < r.userRegistrations[j].key)
      && CountsPerKey(WatchDays(histories, start, end, day), r.watchActivity)
      && (forall i, j | 0 <= i < j < |r.watchActivity| :: r.watchActivity[i].key < r.watchActivity[j].key)
    ensures CountsPerKey(ActiveGenres(contents), r.contentByGenre) && SortedBy(r.contentByGenre, ByCountDesc)
  {
    var start, end := startDate.GetOr(monthAgo), endDate.GetOr(now);
    Analytics(
      GroupsByDay(RegistrationDays(users, start, end, day)),
      RankedGroups(ActiveGenres(contents)),
      GroupsByDay(WatchDays(histories, start, end, day)))
  }
}
