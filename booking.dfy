/**
 * The read side of the venue/artist booking site (app.py): the venue and
 * artist pages with their past and upcoming shows, the genre strings, the
 * venue listing grouped by city and state, the two searches and the artist
 * listing. Tables are sequences of rows in query order, `now` is the time of
 * the request, and a venue's or artist's `shows` relationship is the shows
 * table filtered on the foreign key.
 */
module Booking {
  import opened Wrappers
  import opened PyOps
  import opened Keys

  datatype Show = Show(id: int, artistId: int, venueId: int, startTime: int)

  datatype Venue = Venue(
    id: int,
    name: string,
    city: string,
    state: string,
    address: string,
    phone: string,
    genres: Option<string>,
    imageLink: Option<string>,
    facebookLink: Option<string>,
    website: Option<string>,
    seekingTalent: bool,
    seekingDescription: Option<string>)

  /** Unlike a venue, every text column of an artist may be NULL. */
  datatype Artist = Artist(
    id: int,
    name: Option<string>,
    city: Option<string>,
    state: Option<string>,
    phone: Option<string>,
    genres: Option<string>,
    imageLink: Option<string>,
    facebookLink: Option<string>,
    website: Option<string>,
    seekingVenue: bool,
    seekingDescription: Option<string>)

  /** The primary keys. */
  function ShowId(s: Show): int { s.id }
  function VenueId(v: Venue): int { v.id }
  function ArtistId(a: Artist): int { a.id }

  /** What a page handler renders: its template data, or the 500 page when
      the handler raises. */
  datatype Rendered<+T> = Page(data: T) | ServerError

  // ---------------------------------------------------------------------
  // Past and upcoming shows
  // ---------------------------------------------------------------------

  /** `venue.shows` */
  function ShowsAtVenue(shows: seq<Show>, venueId: int): seq<Show> {
    Filter(shows, (s: Show) => s.venueId == venueId)
  }

  /** `artist.shows` */
  function ShowsOfArtist(shows: seq<Show>, artistId: int): seq<Show> {
    Filter(shows, (s: Show) => s.artistId == artistId)
  }

  function PastShows(shows: seq<Show>, now: int): seq<Show> {
    Filter(shows, (s: Show) => s.startTime < now)
  }

  function UpcomingShows(shows: seq<Show>, now: int): seq<Show> {
    Filter(shows, (s: Show) => s.startTime >= now)
  }

  /** The detail pages' split: past shows start before `now`, upcoming ones
      at or after it; no show is in both, together they hold every show
      exactly once, and each keeps the original order. */
  lemma PastAndUpcomingSplitTheShows(shows: seq<Show>, now: int)
    ensures var past, upcoming := PastShows(shows, now), UpcomingShows(shows, now);
      && (forall i :: 0 <= i < |past| ==> past[i].startTime < now)
      && (forall i :: 0 <= i < |upcoming| ==> upcoming[i].startTime >= now)
      && (forall s :: s in past ==> s !in upcoming)
      && multiset(past) + multiset(upcoming) == multiset(shows)
      && |past| + |upcoming| == |shows|
      && IsSubsequence(past, shows)
      && IsSubsequence(upcoming, shows)
  {
    FilterPartition(shows, (s: Show) => s.startTime < now, (s: Show) => s.startTime >= now);
    FilterIsSubsequence(shows, (s: Show) => s.startTime < now);
    FilterIsSubsequence(shows, (s: Show) => s.startTime >= now);
  }

  /** The listing and search count: `Show.start_time > now`, strictly. */
  function ListedUpcomingCount(shows: seq<Show>, now: int): nat {
    |Filter(shows, (s: Show) => s.startTime > now)|
  }

  /** The listings count one show fewer than the detail page for every show
      that starts exactly at `now`, and never more. */
  lemma ListedCountMissesShowsStartingNow(shows: seq<Show>, now: int)
    ensures ListedUpcomingCount(shows, now) + |Filter(shows, (s: Show) => s.startTime == now)|
            == |UpcomingShows(shows, now)|
    ensures ListedUpcomingCount(shows, now) <= |UpcomingShows(shows, now)|
  {
    FilterCountSplit(shows, (s: Show) => s.startTime >= now, (s: Show) => s.startTime > now,
                     (s: Show) => s.startTime == now);
  }

  // ---------------------------------------------------------------------
  // Genres: genres.strip("{").strip("}")[.strip('"')].split(",")
  // ---------------------------------------------------------------------

  /** A venue's genres column, stripped of braces. */
  function StrippedVenueGenres(genres: string): string {
    Strip(Strip(genres, '{'), '}')
  }

  /** An artist's genres column, stripped of braces and then of double quotes. */
  function StrippedArtistGenres(genres: string): string {
    Strip(Strip(Strip(genres, '{'), '}'), '"')
  }

  function VenueGenres(genres: string): (r: seq<string>)
    ensures |r| >= 1
    ensures forall g :: g in r ==> ',' !in g
    ensures Join(r, ',') == StrippedVenueGenres(genres)
  {
    var stripped := StrippedVenueGenres(genres);
    SplitPiecesHaveNoSeparator(stripped, ',');
    JoinSplit(stripped, ',');
    Split(stripped, ',')
  }

  function ArtistGenres(genres: string): (r: seq<string>)
    ensures |r| >= 1
    ensures forall g :: g in r ==> ',' !in g
    ensures Join(r, ',') == StrippedArtistGenres(genres)
  {
    var stripped := StrippedArtistGenres(genres);
    SplitPiecesHaveNoSeparator(stripped, ',');
    JoinSplit(stripped, ',');
    Split(stripped, ',')
  }

  /** A genre a brace list can carry: no comma and no brace. */
  predicate BraceListGenre(g: string) {
    ',' !in g && '{' !in g && '}' !in g
  }

  /** A genre name with none of the characters the column syntax uses. */
  predicate PlainGenre(g: string) {
    forall i :: 0 <= i < |g| ==> g[i] != ',' && g[i] != '{' && g[i] != '}' && g[i] != '"'
  }

  /** Stripping braces off a brace-wrapped string without braces inside gives
      back the inside. */
  lemma StripBraces(inside: string)
    requires '{' !in inside && '}' !in inside
    ensures StrippedVenueGenres("{" + inside + "}") == inside
  {
    assert inside != [] ==> inside[0] in inside && inside[|inside| - 1] in inside;
    StripEnds("{", inside + "}", "", '{');
    assert "{" + (inside + "}") + "" == "{" + inside + "}";
    StripEnds("", inside, "}", '}');
    assert "" + inside + "}" == inside + "}";
  }

  /** A brace-wrapped list of genres free of commas and braces comes apart
      into exactly those genres. */
  lemma VenueGenresOfBraceList(parts: seq<string>)
    requires |parts| >= 1
    requires forall p :: p in parts ==> BraceListGenre(p)
    ensures VenueGenres("{" + Join(parts, ',') + "}") == parts
  {
    var joined := Join(parts, ',');
    JoinAvoids(parts, ',', '{');
    JoinAvoids(parts, ',', '}');
    StripBraces(joined);
    SplitJoin(parts, ',');
  }

  /** Artist genres lose double quotes only at the two ends of the whole
      string: of `{"a",b}` the first genre keeps its closing quote. */
  lemma ArtistGenresKeepInnerQuotes(a: string, b: string)
    requires a != [] && PlainGenre(a) && PlainGenre(b)
    ensures ArtistGenres("{\"" + a + "\"," + b + "}") == [a + "\"", b]
  {
    var first := a + "\"";
    QuotedPairStripped(a, b);
    QuotedPairPieces(a, b);
    SplitPair(first, b, ',');
  }

  lemma QuotedPairPieces(a: string, b: string)
    requires PlainGenre(a) && PlainGenre(b)
    ensures a + "\"," + b == (a + "\"") + [','] + b
    ensures ',' !in a + "\"" && ',' !in b
  {
    var first := a + "\"";
    forall i | 0 <= i < |first| ensures first[i] != ',' {
      if i < |a| {
        assert first[i] == a[i];
      }
    }
  }

  lemma QuotedPairStripped(a: string, b: string)
    requires a != [] && PlainGenre(a) && PlainGenre(b)
    ensures StrippedArtistGenres("{\"" + a + "\"," + b + "}") == a + "\"," + b
  {
    var x := a + "\"," + b;
    assert x[|x| - 1] != '"' && x[|x| - 1] != '}' by {
      if b != [] {
        assert x[|x| - 1] == b[|b| - 1];
      }
    }
    assert x[0] == a[0];
    var s2 := "\"" + x;
    var s1 := s2 + "}";
    var s0 := "{\"" + a + "\"," + b + "}";
    assert Strip(s0, '{') == s1 by {
      StripEnds("{", s1, "", '{');
      assert "{" + s1 + "" == s0;
    }
    assert Strip(s1, '}') == s2 by {
      StripEnds("", s2, "}", '}');
      assert "" + s2 + "}" == s1;
    }
    assert Strip(s2, '"') == x by {
      StripEnds("\"", x, "", '"');
      assert "\"" + x + "" == s2;
    }
  }

  // ---------------------------------------------------------------------
  // GET /venues/<id> and GET /artists/<id>
  // ---------------------------------------------------------------------

  /** The template data of a detail page: the record itself, its genres as a
      list, and its shows split at `now`. */
  datatype DetailPage<R> = DetailPage(
    record: R,
    genres: seq<string>,
    pastShows: seq<Show>,
    upcomingShows: seq<Show>,
    pastShowsCount: nat,
    upcomingShowsCount: nat)

  /** Both an unknown id (`None.shows`) and a NULL genres column
      (`None.strip`) raise, so the page is a 500, never a 404. */
  function ShowVenue(venues: seq<Venue>, shows: seq<Show>, venueId: int, now: int): (r: Rendered<DetailPage<Venue>>)
    ensures r.ServerError? <==> Get(venues, VenueId, venueId).None? || Get(venues, VenueId, venueId).value.genres.None?
    ensures r.Page? ==>
      var p := r.data;
      && Get(venues, VenueId, venueId) == Some(p.record)
      && p.record.genres.Some? && p.genres == VenueGenres(p.record.genres.value)
      && p.pastShows == PastShows(ShowsAtVenue(shows, venueId), now)
      && p.upcomingShows == UpcomingShows(ShowsAtVenue(shows, venueId), now)
      && p.pastShowsCount == |p.pastShows| && p.upcomingShowsCount == |p.upcomingShows|
  {
    match Get(venues, VenueId, venueId)
    case None => ServerError
    case Some(venue) =>
      if venue.genres.None? then ServerError
      else
        var mine := ShowsAtVenue(shows, venue.id);
        var past, upcoming := PastShows(mine, now), UpcomingShows(mine, now);
        Page(DetailPage(venue, VenueGenres(venue.genres.value), past, upcoming, |past|, |upcoming|))
  }

  function ShowArtist(artists: seq<Artist>, shows: seq<Show>, artistId: int, now: int): (r: Rendered<DetailPage<Artist>>)
    ensures r.ServerError? <==> Get(artists, ArtistId, artistId).None? || Get(artists, ArtistId, artistId).value.genres.None?
    ensures r.Page? ==>
      var p := r.data;
      && Get(artists, ArtistId, artistId) == Some(p.record)
      && p.record.genres.Some? && p.genres == ArtistGenres(p.record.genres.value)
      && p.pastShows == PastShows(ShowsOfArtist(shows, artistId), now)
      && p.upcomingShows == UpcomingShows(ShowsOfArtist(shows, artistId), now)
      && p.pastShowsCount == |p.pastShows| && p.upcomingShowsCount == |p.upcomingShows|
  {
    match Get(artists, ArtistId, artistId)
    case None => ServerError
    case Some(artist) =>
      if artist.genres.None? then ServerError
      else
        var mine := ShowsOfArtist(shows, artist.id);
        var past, upcoming := PastShows(mine, now), UpcomingShows(mine, now);
        Page(DetailPage(artist, ArtistGenres(artist.genres.value), past, upcoming, |past|, |upcoming|))
  }

  /** A venue page lists only this venue's shows, past ones before `now` and
      upcoming ones from `now` on, each of its shows exactly once. */
  lemma VenuePageSplitsItsShows(venues: seq<Venue>, shows: seq<Show>, venueId: int, now: int)
    requires ShowVenue(venues, shows, venueId, now).Page?
    ensures var p := ShowVenue(venues, shows, venueId, now).data;
      && (forall i :: 0 <= i < |p.pastShows| ==> p.pastShows[i].venueId == venueId && p.pastShows[i].startTime < now)
      && (forall i :: 0 <= i < |p.upcomingShows| ==> p.upcomingShows[i].venueId == venueId && p.upcomingShows[i].startTime >= now)
      && multiset(p.pastShows) + multiset(p.upcomingShows) == multiset(ShowsAtVenue(shows, venueId))
      && p.pastShowsCount + p.upcomingShowsCount == |ShowsAtVenue(shows, venueId)|
  {
    var mine := ShowsAtVenue(shows, venueId);
    PastAndUpcomingSplitTheShows(mine, now);
    forall s | s in mine ensures s.venueId == venueId {
      var j :| 0 <= j < |mine| && mine[j] == s;
    }
  }

  /** An artist page lists only this artist's shows, split the same way. */
  lemma ArtistPageSplitsItsShows(artists: seq<Artist>, shows: seq<Show>, artistId: int, now: int)
    requires ShowArtist(artists, shows, artistId, now).Page?
    ensures var p := ShowArtist(artists, shows, artistId, now).data;
      && (forall i :: 0 <= i < |p.pastShows| ==> p.pastShows[i].artistId == artistId && p.pastShows[i].startTime < now)
      && (forall i :: 0 <= i < |p.upcomingShows| ==> p.upcomingShows[i].artistId == artistId && p.upcomingShows[i].startTime >= now)
      && multiset(p.pastShows) + multiset(p.upcomingShows) == multiset(ShowsOfArtist(shows, artistId))
      && p.pastShowsCount + p.upcomingShowsCount == |ShowsOfArtist(shows, artistId)|
  {
    var mine := ShowsOfArtist(shows, artistId);
    PastAndUpcomingSplitTheShows(mine, now);
    forall s | s in mine ensures s.artistId == artistId {
      var j :| 0 <= j < |mine| && mine[j] == s;
    }
  }

  // ---------------------------------------------------------------------
  // Summaries shared by the venue listing and the searches
  // ---------------------------------------------------------------------

  datatype VenueSummary = VenueSummary(id: int, name: string, numUpcomingShows: nat)

  datatype ArtistSummary = ArtistSummary(id: int, name: Option<string>, numUpcomingShows: nat)

  function VenueSummaryOf(venue: Venue, shows: seq<Show>, now: int): VenueSummary {
    VenueSummary(venue.id, venue.name, ListedUpcomingCount(ShowsAtVenue(shows, venue.id), now))
  }

  function ArtistSummaryOf(artist: Artist, shows: seq<Show>, now: int): ArtistSummary {
    ArtistSummary(artist.id, artist.name, ListedUpcomingCount(ShowsOfArtist(shows, artist.id), now))
  }

  function VenueSummaries(venues: seq<Venue>, shows: seq<Show>, now: int): (r: seq<VenueSummary>)
    ensures |r| == |venues|
    ensures forall i :: 0 <= i < |venues| ==> r[i] == VenueSummaryOf(venues[i], shows, now)
  {
    if venues == [] then []
    else [VenueSummaryOf(venues[0], shows, now)] + VenueSummaries(venues[1..], shows, now)
  }

  function ArtistSummaries(artists: seq<Artist>, shows: seq<Show>, now: int): (r: seq<ArtistSummary>)
    ensures |r| == |artists|
    ensures forall i :: 0 <= i < |artists| ==> r[i] == ArtistSummaryOf(artists[i], shows, now)
  {
    if artists == [] then []
    else [ArtistSummaryOf(artists[0], shows, now)] + ArtistSummaries(artists[1..], shows, now)
  }

  // ---------------------------------------------------------------------
  // POST /venues/search and POST /artists/search
  // ---------------------------------------------------------------------

  datatype SearchResponse<T> = SearchResponse(count: nat, data: seq<T>)

  predicate VenueMatches(venue: Venue, term: string) {
    ContainsIgnoringCase(venue.name, term)
  }

  /** A NULL name never satisfies ILIKE. */
  predicate ArtistMatches(artist: Artist, term: string) {
    artist.name.Some? && ContainsIgnoringCase(artist.name.value, term)
  }

  function SearchVenues(venues: seq<Venue>, shows: seq<Show>, term: string, now: int): (r: SearchResponse<VenueSummary>)
    ensures r.count == |r.data|
    ensures forall i :: 0 <= i < |r.data| ==> ContainsIgnoringCase(r.data[i].name, term)
    ensures forall i :: 0 <= i < |venues| && VenueMatches(venues[i], term) ==>
      VenueSummaryOf(venues[i], shows, now) in r.data
    ensures forall i :: 0 <= i < |r.data| ==>
      exists k :: 0 <= k < |venues| && VenueMatches(venues[k], term) && r.data[i] == VenueSummaryOf(venues[k], shows, now)
    ensures IsSubsequence(r.data, VenueSummaries(venues, shows, now))
  {
    var found := Filter(venues, (v: Venue) => VenueMatches(v, term));
    FilterComplete(venues, (v: Venue) => VenueMatches(v, term));
    var data := VenueSummaries(found, shows, now);
    FilterIsSubsequence(venues, (v: Venue) => VenueMatches(v, term));
    MapKeepsSubsequence(found, venues, (v: Venue) => VenueSummaryOf(v, shows, now), data, VenueSummaries(venues, shows, now));
    assert forall i :: 0 <= i < |data| ==> found[i] in venues && VenueMatches(found[i], term);
    assert forall i :: 0 <= i < |venues| && VenueMatches(venues[i], term) ==> venues[i] in found;
    assert forall i :: 0 <= i < |venues| && VenueMatches(venues[i], term) ==>
      VenueSummaryOf(venues[i], shows, now) in data by {
      forall i | 0 <= i < |venues| && VenueMatches(venues[i], term)
        ensures VenueSummaryOf(venues[i], shows, now) in data
      {
        var k :| 0 <= k < |found| && found[k] == venues[i];
        assert data[k] == VenueSummaryOf(venues[i], shows, now);
      }
    }
    SearchResponse(|data|, data)
  }

  function SearchArtists(artists: seq<Artist>, shows: seq<Show>, term: string, now: int): (r: SearchResponse<ArtistSummary>)
    ensures r.count == |r.data|
    ensures forall i :: 0 <= i < |r.data| ==>
      r.data[i].name.Some? && ContainsIgnoringCase(r.data[i].name.value, term)
    ensures forall i :: 0 <= i < |artists| && ArtistMatches(artists[i], term) ==>
      ArtistSummaryOf(artists[i], shows, now) in r.data
    ensures forall i :: 0 <= i < |r.data| ==>
      exists k :: 0 <= k < |artists| && ArtistMatches(artists[k], term) && r.data[i] == ArtistSummaryOf(artists[k], shows, now)
    ensures IsSubsequence(r.data, ArtistSummaries(artists, shows, now))
  {
    var found := Filter(artists, (a: Artist) => ArtistMatches(a, term));
    FilterComplete(artists, (a: Artist) => ArtistMatches(a, term));
    var data := ArtistSummaries(found, shows, now);
    FilterIsSubsequence(artists, (a: Artist) => ArtistMatches(a, term));
    MapKeepsSubsequence(found, artists, (a: Artist) => ArtistSummaryOf(a, shows, now), data, ArtistSummaries(artists, shows, now));
    assert forall i :: 0 <= i < |data| ==> found[i] in artists && ArtistMatches(found[i], term);
    assert forall i :: 0 <= i < |artists| && ArtistMatches(artists[i], term) ==>
      ArtistSummaryOf(artists[i], shows, now) in data by {
      forall i | 0 <= i < |artists| && ArtistMatches(artists[i], term)
        ensures ArtistSummaryOf(artists[i], shows, now) in data
      {
        assert artists[i] in found;
        var k :| 0 <= k < |found| && found[k] == artists[i];
        assert data[k] == ArtistSummaryOf(artists[i], shows, now);
      }
    }
    SearchResponse(|data|, data)
  }

  /** The empty search term (the form's default) lists every venue, in order. */
  lemma EmptyTermFindsEveryVenue(venues: seq<Venue>, shows: seq<Show>, now: int)
    ensures SearchVenues(venues, shows, "", now) == SearchResponse(|venues|, VenueSummaries(venues, shows, now))
  {
    forall i | 0 <= i < |venues| ensures VenueMatches(venues[i], "") {
      EmptyTermMatchesEveryName(venues[i].name);
    }
    FilterKeepsAll(venues, (v: Venue) => VenueMatches(v, ""));
  }

  /** The empty search term lists every artist whose name is not NULL, and no other. */
  lemma EmptyTermFindsEveryNamedArtist(artists: seq<Artist>, shows: seq<Show>, now: int)
    ensures var named := Filter(artists, (a: Artist) => a.name.Some?);
      SearchArtists(artists, shows, "", now) == SearchResponse(|named|, ArtistSummaries(named, shows, now))
  {
    forall a: Artist | a.name.Some? ensures ArtistMatches(a, "") {
      EmptyTermMatchesEveryName(a.name.value);
    }
    FilterSameKeep(artists, (a: Artist) => ArtistMatches(a, ""), (a: Artist) => a.name.Some?);
  }

  /** A venue whose name contains the term is found. */
  lemma VenueNamingTermIsFound(venues: seq<Venue>, shows: seq<Show>, term: string, now: int, k: nat, at: nat)
    requires k < |venues|
    requires at + |term| <= |venues[k].name| && venues[k].name[at..at + |term|] == term
    ensures VenueSummaryOf(venues[k], shows, now) in SearchVenues(venues, shows, term, now).data
  {
    OccurrenceMatches(venues[k].name, term, at);
  }

  /** An artist whose name contains the term is found. */
  lemma ArtistNamingTermIsFound(artists: seq<Artist>, shows: seq<Show>, term: string, now: int, k: nat, at: nat)
    requires k < |artists| && artists[k].name.Some?
    requires at + |term| <= |artists[k].name.value| && artists[k].name.value[at..at + |term|] == term
    ensures ArtistSummaryOf(artists[k], shows, now) in SearchArtists(artists, shows, term, now).data
  {
    OccurrenceMatches(artists[k].name.value, term, at);
  }

  // ---------------------------------------------------------------------
  // GET /artists
  // ---------------------------------------------------------------------

  datatype ArtistEntry = ArtistEntry(id: int, name: Option<string>)

  /** One (id, name) pair per artist, in query order. */
  function ListArtists(artists: seq<Artist>): (r: seq<ArtistEntry>)
    ensures |r| == |artists|
    ensures forall i :: 0 <= i < |artists| ==> r[i].id == artists[i].id && r[i].name == artists[i].name
  {
    if artists == [] then [] else [ArtistEntry(artists[0].id, artists[0].name)] + ListArtists(artists[1..])
  }

  // ---------------------------------------------------------------------
  // GET /venues: one area per distinct (city, state)
  // ---------------------------------------------------------------------

  datatype Area = Area(city: string, state: string, venues: seq<VenueSummary>)

  /** `query(Venue.city, Venue.state).distinct()`, in order of first appearance. */
  function Locations(venues: seq<Venue>): (locs: seq<(string, string)>)
    ensures forall i, j :: 0 <= i < j < |locs| ==> locs[i] != locs[j]
    ensures forall k :: 0 <= k < |venues| ==> (venues[k].city, venues[k].state) in locs
    ensures forall i :: 0 <= i < |locs| ==>
      exists k :: 0 <= k < |venues| && (venues[k].city, venues[k].state) == locs[i]
    decreases |venues|
  {
    if venues == [] then []
    else
      var init := venues[..|venues| - 1];
      var last := venues[|venues| - 1];
      var seen := Locations(init);
      assert forall k :: 0 <= k < |init| ==> init[k] == venues[k];
      if (last.city, last.state) in seen then seen else seen + [(last.city, last.state)]
  }

  /** The location test as a value, so that every use names the same test. */
  function LocatedAt(city: string, state: string): Venue -> bool {
    (v: Venue) => v.city == city && v.state == state
  }

  /** The venues of one city and state, in query order. */
  function VenuesAt(venues: seq<Venue>, city: string, state: string): seq<Venue> {
    Filter(venues, LocatedAt(city, state))
  }

  function AreaAt(venues: seq<Venue>, shows: seq<Show>, now: int, location: (string, string)): Area {
    Area(location.0, location.1, VenueSummaries(VenuesAt(venues, location.0, location.1), shows, now))
  }

  /** What the listing promises: one area per distinct city and state, every
      venue's city and state has one, and an area lists the summaries of
      exactly the venues located there, none empty. */
  ghost predicate IsGroupedByLocation(areas: seq<Area>, venues: seq<Venue>, shows: seq<Show>, now: int) {
    && (forall i, j :: 0 <= i < j < |areas| ==> (areas[i].city, areas[i].state) != (areas[j].city, areas[j].state))
    && (forall k :: 0 <= k < |venues| ==>
          exists i :: 0 <= i < |areas| && areas[i].city == venues[k].city && areas[i].state == venues[k].state)
    && (forall i :: 0 <= i < |areas| ==>
          areas[i].venues == VenueSummaries(VenuesAt(venues, areas[i].city, areas[i].state), shows, now))
    && (forall i :: 0 <= i < |areas| ==> areas[i].venues != [])
  }

  /** One area per location, in the order of the locations. */
  function AreasAt(venues: seq<Venue>, shows: seq<Show>, now: int, locations: seq<(string, string)>): (r: seq<Area>)
    ensures |r| == |locations|
    ensures forall k :: 0 <= k < |locations| ==> r[k] == AreaAt(venues, shows, now, locations[k])
  {
    if locations == [] then []
    else AreasAt(venues, shows, now, locations[..|locations| - 1]) + [AreaAt(venues, shows, now, locations[|locations| - 1])]
  }

  /** venues(): the `for location in ...` loop that appends one area per location. */
  method ListVenues(venues: seq<Venue>, shows: seq<Show>, now: int) returns (areas: seq<Area>)
    ensures IsGroupedByLocation(areas, venues, shows, now)
  {
    var locations := Locations(venues);
    areas := [];
    for i := 0 to |locations|
      invariant areas == AreasAt(venues, shows, now, locations[..i])
    {
      assert locations[..i + 1][..i] == locations[..i];
      areas := areas + [AreaAt(venues, shows, now, locations[i])];
    }
    assert locations[..|locations|] == locations;
    AreasAtLocationsAreGrouped(areas, venues, shows, now);
  }

  /** One area per distinct location, built by AreaAt, is a grouped listing. */
  lemma AreasAtLocationsAreGrouped(areas: seq<Area>, venues: seq<Venue>, shows: seq<Show>, now: int)
    requires areas == AreasAt(venues, shows, now, Locations(venues))
    ensures IsGroupedByLocation(areas, venues, shows, now)
  {
    var locations := Locations(venues);
    forall k | 0 <= k < |areas|
      ensures areas[k].city == locations[k].0 && areas[k].state == locations[k].1
      ensures areas[k].venues == VenueSummaries(VenuesAt(venues, areas[k].city, areas[k].state), shows, now)
    {
      assert areas[k] == AreaAt(venues, shows, now, locations[k]);
    }
    forall i, j | 0 <= i < j < |areas|
      ensures (areas[i].city, areas[i].state) != (areas[j].city, areas[j].state)
    {
      assert locations[i] != locations[j];
    }
    AreasCoverVenues(areas, venues, locations);
    forall i | 0 <= i < |areas| ensures areas[i].venues != [] {
      LocationIsInhabited(venues, locations, i);
    }
  }

  lemma AreasCoverVenues(areas: seq<Area>, venues: seq<Venue>, locations: seq<(string, string)>)
    requires locations == Locations(venues) && |areas| == |locations|
    requires forall k :: 0 <= k < |areas| ==> areas[k].city == locations[k].0 && areas[k].state == locations[k].1
    ensures forall k :: 0 <= k < |venues| ==>
      exists i :: 0 <= i < |areas| && areas[i].city == venues[k].city && areas[i].state == venues[k].state
  {
    forall k | 0 <= k < |venues|
      ensures exists i :: 0 <= i < |areas| && areas[i].city == venues[k].city && areas[i].state == venues[k].state
    {
      var i :| 0 <= i < |locations| && locations[i] == (venues[k].city, venues[k].state);
      assert areas[i].city == venues[k].city && areas[i].state == venues[k].state;
    }
  }

  /** Every distinct location has at least one venue. */
  lemma LocationIsInhabited(venues: seq<Venue>, locations: seq<(string, string)>, i: nat)
    requires locations == Locations(venues) && i < |locations|
    ensures VenuesAt(venues, locations[i].0, locations[i].1) != []
  {
    var k :| 0 <= k < |venues| && (venues[k].city, venues[k].state) == locations[i];
    FilterKeeps(venues, LocatedAt(locations[i].0, locations[i].1), k);
  }

  /** In a grouped listing every venue sits in exactly one area, the one
      with its own city and state. */
  lemma EveryVenueInExactlyOneArea(areas: seq<Area>, venues: seq<Venue>, shows: seq<Show>, now: int, k: nat)
    requires IsGroupedByLocation(areas, venues, shows, now)
    requires UniqueKeys(venues, VenueId)
    requires k < |venues|
    ensures exists i :: 0 <= i < |areas| && VenueSummaryOf(venues[k], shows, now) in areas[i].venues
    ensures forall i :: 0 <= i < |areas| && VenueSummaryOf(venues[k], shows, now) in areas[i].venues ==>
      areas[i].city == venues[k].city && areas[i].state == venues[k].state
    ensures forall i, j ::
      (0 <= i < |areas| && 0 <= j < |areas|
       && VenueSummaryOf(venues[k], shows, now) in areas[i].venues
       && VenueSummaryOf(venues[k], shows, now) in areas[j].venues) ==> i == j
  {
    VenueInHomeArea(areas, venues, shows, now, k);
    forall i | 0 <= i < |areas| && VenueSummaryOf(venues[k], shows, now) in areas[i].venues
      ensures areas[i].city == venues[k].city && areas[i].state == venues[k].state
    {
      SummaryLiesInHomeArea(areas, venues, shows, now, k, i);
    }
  }

  lemma VenueInHomeArea(areas: seq<Area>, venues: seq<Venue>, shows: seq<Show>, now: int, k: nat)
    requires IsGroupedByLocation(areas, venues, shows, now)
    requires k < |venues|
    ensures exists i :: 0 <= i < |areas| && VenueSummaryOf(venues[k], shows, now) in areas[i].venues
  {
    var v := venues[k];
    var home :| 0 <= home < |areas| && areas[home].city == v.city && areas[home].state == v.state;
    var here := VenuesAt(venues, v.city, v.state);
    FilterKeeps(venues, LocatedAt(v.city, v.state), k);
    var m :| 0 <= m < |here| && here[m] == v;
    assert areas[home].venues[m] == VenueSummaryOf(v, shows, now);
  }

  /** With unique ids, an area that lists a venue's summary is at that venue's location. */
  lemma SummaryLiesInHomeArea(areas: seq<Area>, venues: seq<Venue>, shows: seq<Show>, now: int, k: nat, i: nat)
    requires IsGroupedByLocation(areas, venues, shows, now)
    requires UniqueKeys(venues, VenueId)
    requires k < |venues| && i < |areas|
    requires VenueSummaryOf(venues[k], shows, now) in areas[i].venues
    ensures areas[i].city == venues[k].city && areas[i].state == venues[k].state
  {
    var there := VenuesAt(venues, areas[i].city, areas[i].state);
    var n :| 0 <= n < |areas[i].venues| && areas[i].venues[n] == VenueSummaryOf(venues[k], shows, now);
    var w := there[n];
    assert w in venues && LocatedAt(areas[i].city, areas[i].state)(w);
    var kw :| 0 <= kw < |venues| && venues[kw] == w;
    assert VenueId(venues[kw]) == VenueId(venues[k]);
    assert kw == k;
  }
}
