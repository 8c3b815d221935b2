/**
 * Start-up seeding of the catalog: a fixed list of 17 movies, of which those
 * whose title no stored title equals are inserted in one batch, with fresh
 * identities in list order. Seeding is therefore idempotent: a second run
 * finds every title present and changes nothing. Ratings are in tenths.
 */
module SeedData {
  import opened Wrappers
  import opened Collections
  import opened Models
  import opened Database

  /** The fields a seed movie sets; the rest are the defaults of a new movie. */
  datatype MovieSeed = MovieSeed(
    title: string,
    description: string,
    genre: string,
    releaseYear: int,
    rating: int,
    duration: int,
    thumbnailUrl: string,
    trailerUrl: string,
    videoUrl: string)

  /** The content type of every seed row. */
  const MovieType := "Movie"

  /** The seed list holds this many movies. */
  const MovieCount := 17

  /** The title of seed movie number `i`, in insertion order. */
  function SeedTitle(i: nat): string
    requires i < MovieCount
  {
    ["Nebula Rising", "Silent Harbor", "Carbon Pulse", "Paper Suns",
     "First Signal", "Crimson Alley", "Evergreen Echo", "Midnight Comet",
     "Glass Requiem", "Sunset Siege", "Harbor of Stars", "Neon Orchard",
     "Echoes of Kestrel Bay", "Polar Meridian", "Chal Mera Putt", "My Fault",
     "Velvet Circuit"][i]
  }

  /** The other fields a seed movie sets. */
  datatype MovieDetails = MovieDetails(
    description: string,
    genre: string,
    releaseYear: int,
    rating: int,
    duration: int,
    thumbnailUrl: string,
    trailerUrl: string,
    videoUrl: string)

  /** The other fields of seed movie number `i`. */
  function Details(i: nat): MovieDetails
    requires i < MovieCount
  {
    if i == 0 then
      MovieDetails(
        "A rogue pilot leads a daring mission to shut down a runaway terraforming array before it consumes an entire solar system.",
        "Sci-Fi", 2024, 87, 128,
        "https://placehold.co/600x400?text=Nebula+Rising",
        "https://cdn.streamingplatform.com/trailers/nebula-rising.mp4",
        "https://cdn.streamingplatform.com/movies/nebula-rising.mp4")
    else if i == 1 then
      MovieDetails(
        "A coastal town hides a supernatural secret, and only a returning detective can uncover the truth.",
        "Mystery", 2023, 79, 112,
        "https://placehold.co/600x400?text=Silent+Harbor",
        "https://cdn.streamingplatform.com/trailers/silent-harbor.mp4",
        "https://cdn.streamingplatform.com/movies/silent-harbor.mp4")
    else if i == 2 then
      MovieDetails(
        "Near-future hackers discover an energy algorithm that can power the world—or end it.",
        "Thriller", 2022, 82, 101,
        "https://placehold.co/600x400?text=Carbon+Pulse",
        "https://cdn.streamingplatform.com/trailers/carbon-pulse.mp4",
        "https://cdn.streamingplatform.com/movies/carbon-pulse.mp4")
    else if i == 3 then
      MovieDetails(
        "Two siblings travel across Asia to reconcile with their estranged father before a rare celestial event.",
        "Drama", 2021, 80, 119,
        "https://placehold.co/600x400?text=Paper+Suns",
        "https://cdn.streamingplatform.com/trailers/paper-suns.mp4",
        "https://cdn.streamingplatform.com/movies/paper-suns.mp4")
    else if i == 4 then
      MovieDetails(
        "Scientists detect a repeating message hidden in cosmic background radiation and race to decode it.",
        "Sci-Fi", 2020, 75, 108,
        "https://placehold.co/600x400?text=First+Signal",
        "https://cdn.streamingplatform.com/trailers/first-signal.mp4",
        "https://cdn.streamingplatform.com/movies/first-signal.mp4")
    else if i == 5 then
      MovieDetails(
        "An undercover agent infiltrates a syndicate that controls the last free city on Earth.",
        "Action", 2024, 78, 106,
        "https://placehold.co/600x400?text=Crimson+Alley",
        "https://cdn.streamingplatform.com/trailers/crimson-alley.mp4",
        "https://cdn.streamingplatform.com/movies/crimson-alley.mp4")
    else if i == 6 then
      MovieDetails(
        "A botanist discovers a plant that mirrors human memories, forcing her to confront her past.",
        "Fantasy", 2019, 73, 98,
        "https://placehold.co/600x400?text=Evergreen+Echo",
        "https://cdn.streamingplatform.com/trailers/evergreen-echo.mp4",
        "https://cdn.streamingplatform.com/movies/evergreen-echo.mp4")
    else if i == 7 then
      MovieDetails(
        "When a comet stalls in Earth's orbit, a squad of astronauts must restart its trajectory before the tides destroy civilization.",
        "Adventure", 2025, 84, 130,
        "https://placehold.co/600x400?text=Midnight+Comet",
        "https://cdn.streamingplatform.com/trailers/midnight-comet.mp4",
        "https://cdn.streamingplatform.com/movies/midnight-comet.mp4")
    else if i == 8 then
      MovieDetails(
        "A concert violinist uncovers a sonic weapon encoded in a lost symphony.",
        "Thriller", 2024, 81, 118,
        "https://images.unsplash.com/photo-1500530855697-b586d89ba3ee?auto=format&fit=crop&w=800&q=80",
        "https://cdn.streamingplatform.com/trailers/glass-requiem.mp4",
        "https://cdn.streamingplatform.com/movies/glass-requiem.mp4")
    else if i == 9 then
      MovieDetails(
        "Mercenaries defend a desert colony through a single unending night.",
        "Action", 2023, 76, 105,
        "https://images.unsplash.com/photo-1469474968028-56623f02e42e?auto=format&fit=crop&w=800&q=80",
        "https://cdn.streamingplatform.com/trailers/sunset-siege.mp4",
        "https://cdn.streamingplatform.com/movies/sunset-siege.mp4")
    else if i == 10 then
      MovieDetails(
        "An urban astronomer maps light pollution to solve her mother's disappearance.",
        "Drama", 2022, 78, 122,
        "https://images.unsplash.com/photo-1478720568477-152d9b164e26?auto=format&fit=crop&w=800&q=80",
        "https://cdn.streamingplatform.com/trailers/harbor-of-stars.mp4",
        "https://cdn.streamingplatform.com/movies/harbor-of-stars.mp4")
    else if i == 11 then
      MovieDetails(
        "In a techno-dystopian Tokyo, a botanist breeds fruit that can store memories.",
        "Sci-Fi", 2025, 83, 114,
        "https://images.unsplash.com/photo-1500534314209-a25ddb2bd429?auto=format&fit=crop&w=800&q=80",
        "https://cdn.streamingplatform.com/trailers/neon-orchard.mp4",
        "https://cdn.streamingplatform.com/movies/neon-orchard.mp4")
    else if i == 12 then
      MovieDetails(
        "A podcaster returns to her hometown to uncover who hijacked the community radio waves.",
        "Mystery", 2021, 74, 102,
        "https://images.unsplash.com/photo-1502134249126-9f3755a50d78?auto=format&fit=crop&w=800&q=80",
        "https://cdn.streamingplatform.com/trailers/echoes-of-kestrel-bay.mp4",
        "https://cdn.streamingplatform.com/movies/echoes-of-kestrel-bay.mp4")
    else if i == 13 then
      MovieDetails(
        "Scientists race across the Arctic after discovering a fissure that redefines true north.",
        "Adventure", 2020, 77, 116,
        "https://images.unsplash.com/photo-1500534310656-305bb2789e95?auto=format&fit=crop&w=800&q=80",
        "https://cdn.streamingplatform.com/trailers/polar-meridian.mp4",
        "https://cdn.streamingplatform.com/movies/polar-meridian.mp4")
    else if i == 14 then
      MovieDetails(
        "The comedians",
        "Comedy", 2022, 77, 116,
        "https://images.unsplash.com/photo-1500534310656-305bb2789e95?auto=format&fit=crop&w=800&q=80",
        "https://cdn.streamingplatform.com/trailers/polar-meridian.mp4",
        "https://cdn.streamingplatform.com/movies/polar-meridian.mp4")
    else if i == 15 then
      MovieDetails(
        "Nick or Noah ",
        "Romance", 2022, 77, 116,
        "https://images.unsplash.com/photo-1500534310656-305bb2789e95?auto=format&fit=crop&w=800&q=80",
        "https://cdn.streamingplatform.com/trailers/polar-meridian.mp4",
        "https://cdn.streamingplatform.com/movies/polar-meridian.mp4")
    else
      MovieDetails(
        "A street racer-turned-engineer builds a silent engine coveted by rival syndicates.",
        "Action", 2023, 79, 111,
        "https://images.unsplash.com/photo-1478720568477-22222335e94c?auto=format&fit=crop&w=800&q=80",
        "https://cdn.streamingplatform.com/trailers/velvet-circuit.mp4",
        "https://cdn.streamingplatform.com/movies/velvet-circuit.mp4")
  }

  /** Seed movie number `i`. */
  function Movie(i: nat): MovieSeed
    requires i < MovieCount
  {
    var d := Details(i);
    MovieSeed(SeedTitle(i), d.description, d.genre, d.releaseYear, d.rating, d.duration, d.thumbnailUrl, d.trailerUrl, d.videoUrl)
  }

  /** The seed list, in insertion order. */
  const Movies: seq<MovieSeed> := seq(MovieCount, i requires 0 <= i < MovieCount => Movie(i))

  /** The stored row for seed movie `m` with identity `id`: an active movie without seasons. */
  function SeedRow(m: MovieSeed, id: int, now: int): Content {
    Content(id, m.title, Some(m.description), MovieType, Some(m.genre), Some(m.releaseYear), Some(m.rating),
      Some(m.duration), Some(m.thumbnailUrl), Some(m.trailerUrl), Some(m.videoUrl), DefaultIsActive, now, [])
  }

  /** The titles of the stored rows (`Select(c => c.Title)`). */
  function Titles(contents: seq<Content>): (r: seq<string>)
    ensures |r| == |contents|
    ensures forall i | 0 <= i < |contents| :: r[i] == contents[i].title
  {
    seq(|contents|, i requires 0 <= i < |contents| => contents[i].title)
  }

  /** The movies of `movies` whose title is not stored yet, in list order. */
  function NewMovies(movies: seq<MovieSeed>, existingTitles: seq<string>): (r: seq<MovieSeed>)
    ensures forall m :: m in r <==> m in movies && m.title !in existingTitles
    ensures multiset(r) <= multiset(movies)
  {
    Filter(movies, (m: MovieSeed) => m.title !in existingTitles)
  }

  /** The rows inserted for `ms`, numbered from `firstId` in list order. */
  function Inserted(ms: seq<MovieSeed>, firstId: int, now: int): (r: seq<Content>)
    ensures |r| == |ms|
    ensures forall i | 0 <= i < |ms| :: r[i] == SeedRow(ms[i], firstId + i, now)
    ensures forall c | c in r :: firstId <= c.id < firstId + |ms|
  {
    seq(|ms|, i requires 0 <= i < |ms| => SeedRow(ms[i], firstId + i, now))
  }

  /**
   * `SeedContentAsync`: the seed movies whose titles are missing are appended
   * with identities from the counter on; when none is missing nothing changes.
   */
  method SeedContent(db: Store, now: int)
    requires db.ContentTableValid()
    modifies db`contents, db`nextContentId
    ensures db.ContentTableValid()
    ensures var added := NewMovies(Movies, Titles(old(db.contents)));
      && db.contents == old(db.contents) + Inserted(added, old(db.nextContentId), now)
      && db.nextContentId == old(db.nextContentId) + |added|
  {
    AddMissing(db, Movies, now);
  }

  /** The body of `SeedContentAsync`, for any movie list. */
  method AddMissing(db: Store, movies: seq<MovieSeed>, now: int)
    requires db.ContentTableValid()
    modifies db`contents, db`nextContentId
    ensures db.ContentTableValid()
    ensures var added := NewMovies(movies, Titles(old(db.contents)));
      && db.contents == old(db.contents) + Inserted(added, old(db.nextContentId), now)
      && db.nextContentId == old(db.nextContentId) + |added|
  {
    var existingTitles := Titles(db.contents);
    var newMovies := NewMovies(movies, existingTitles);
    if |newMovies| == 0 {
      return;
    }
    var rows := Inserted(newMovies, db.nextContentId, now);
    FreshRowsKeepKeys(db.contents, rows, db.nextContentId);
    db.contents := db.contents + rows;
    db.nextContentId := db.nextContentId + |newMovies|;
  }

  /** Appending rows numbered consecutively from a counter above every stored identity keeps identities unique. */
  lemma FreshRowsKeepKeys(contents: seq<Content>, rows: seq<Content>, next: int)
    requires DistinctBy(contents, ContentKey) && forall c | c in contents :: c.id < next
    requires forall i | 0 <= i < |rows| :: rows[i].id == next + i
    ensures DistinctBy(contents + rows, ContentKey)
    ensures forall c | c in contents + rows :: c.id < next + |rows|
  {
    var r := contents + rows;
    forall i, j | 0 <= i < j < |r| ensures ContentKey(r[i]) != ContentKey(r[j]) {
      if j >= |contents| && i < |contents| {
        assert r[i] in contents;
      }
    }
  }

  /** The seed list holds 17 movies with pairwise different titles. */
  lemma MoviesDistinct()
    ensures |Movies| == 17
    ensures forall i, j | 0 <= i < j < |Movies| :: Movies[i].title != Movies[j].title
  {
    forall i, j | 0 <= i < j < MovieCount ensures SeedTitle(i) != SeedTitle(j) {
      SignatureIdentifies(i);
      SignatureIdentifies(j);
    }
  }

  /** A title's first letter and length, as one number. */
  function TitleSignature(t: string): int {
    if t == [] then 0 else t[0] as int * 100 + |t|
  }

  /** The seed movie whose title has signature `n`. */
  function SignatureIndex(n: int): int {
    if n == 7813 then 0
    else if n == 8313 then 1
    else if n == 6712 then 2
    else if n == 8010 then 3
    else if n == 7012 then 4
    else if n == 6713 then 5
    else if n == 6914 then 6
    else if n == 7714 then 7
    else if n == 7113 then 8
    else if n == 8312 then 9
    else if n == 7215 then 10
    else if n == 7812 then 11
    else if n == 6921 then 12
    else if n == 8014 then 13
    else if n == 6714 then 14
    else if n == 7708 then 15
    else 16
  }

  /** No two seed titles share their first letter and their length. */
  lemma SignatureIdentifies(i: nat)
    requires i < MovieCount
    ensures SignatureIndex(TitleSignature(SeedTitle(i))) == i
  {
  }

  /** Seeding an empty catalog inserts the whole list, in list order. */
  lemma EmptyCatalogGetsAll(movies: seq<MovieSeed>)
    ensures NewMovies(movies, []) == movies
  {
    var r := NewMovies(movies, []);
    assert multiset(r) == multiset(movies);
    SubsequenceOfSameSize(r, movies);
  }

  /** When every seed title is already stored, seeding adds nothing. */
  lemma AllPresentAddsNothing(movies: seq<MovieSeed>, contents: seq<Content>)
    requires forall m | m in movies :: exists c | c in contents :: c.title == m.title
    ensures NewMovies(movies, Titles(contents)) == []
  {
    forall m | m in movies ensures m.title in Titles(contents) {
      var c :| c in contents && c.title == m.title;
      var i :| 0 <= i < |contents| && contents[i] == c;
      assert Titles(contents)[i] == m.title;
    }
  }

  /** After seeding, every seed title is stored. */
  lemma SeedingStoresEveryTitle(movies: seq<MovieSeed>, contents: seq<Content>, next: int, now: int)
    ensures var after := contents + Inserted(NewMovies(movies, Titles(contents)), next, now);
      forall m | m in movies :: exists c | c in after :: c.title == m.title
  {
    var added := NewMovies(movies, Titles(contents));
    var rows := Inserted(added, next, now);
    var after := contents + rows;
    forall m | m in movies ensures exists c | c in after :: c.title == m.title {
      if m.title in Titles(contents) {
        var i :| 0 <= i < |contents| && Titles(contents)[i] == m.title;
        assert after[i] == contents[i];
      } else {
        var k :| 0 <= k < |added| && added[k] == m;
        assert after[|contents| + k] == rows[k];
      }
    }
  }

  /** Seeding is idempotent: seeding the seeded table adds nothing. */
  lemma SeedIdempotent(movies: seq<MovieSeed>, contents: seq<Content>, next: int, now: int)
    ensures var after := contents + Inserted(NewMovies(movies, Titles(contents)), next, now);
      NewMovies(movies, Titles(after)) == []
  {
    SeedingStoresEveryTitle(movies, contents, next, now);
    AllPresentAddsNothing(movies, contents + Inserted(NewMovies(movies, Titles(contents)), next, now));
  }

  /**
   * The rows seeding adds are active movies without seasons, each with a seed
   * movie's title and rating and a title that was not stored; with seed
   * titles pairwise different (as `MoviesDistinct` shows), no title twice.
   */
  lemma SeedRowsAreNewMovies(movies: seq<MovieSeed>, contents: seq<Content>, next: int, now: int)
    requires forall i, j | 0 <= i < j < |movies| :: movies[i].title != movies[j].title
    ensures var rows := Inserted(NewMovies(movies, Titles(contents)), next, now);
      && (forall c | c in rows :: c.contentType == MovieType && c.isActive && c.seasons == [] && c.createdAt == now)
      && (forall c | c in rows :: c.title !in Titles(contents) && exists m | m in movies :: m.title == c.title && c.rating == Some(m.rating))
      && (forall i, j | 0 <= i < j < |rows| :: rows[i].title != rows[j].title)
  {
    var added := NewMovies(movies, Titles(contents));
    var rows := Inserted(added, next, now);
    assert DistinctBy(movies, MovieTitle);
    DistinctBySubMultiset(movies, added, MovieTitle);
    forall c | c in rows
      ensures c.title !in Titles(contents) && exists m | m in movies :: m.title == c.title && c.rating == Some(m.rating)
    {
      var k :| 0 <= k < |rows| && rows[k] == c;
      assert added[k] in added;
    }
    forall i, j | 0 <= i < j < |rows| ensures rows[i].title != rows[j].title {
      assert MovieTitle(added[i]) != MovieTitle(added[j]);
    }
  }

  function MovieTitle(m: MovieSeed): string { m.title }
}
