/**
 * The write side of the booking site (app.py): editing an artist, editing a
 * venue and listing a new show. The database is an object holding the three
 * tables; a handler assigns the submitted form's fields to one record and
 * commits, and a commit that raises rolls the session back, so the tables are
 * as they were. Whether the commit raises, and with what, is a parameter.
 */
module BookingDb {
  import opened Wrappers
  import opened PyOps
  import opened Booking
  import opened Keys

  /** The text fields of the artist form, as submitted (an empty box is ""). */
  datatype ArtistForm = ArtistForm(
    name: string,
    city: string,
    state: string,
    phone: string,
    facebookLink: string,
    imageLink: string,
    websiteLink: string,
    seekingVenue: bool,
    seekingDescription: string)

  /** The venue form; `genres` is the column text the database driver makes
      of the selected genres. */
  datatype VenueForm = VenueForm(
    name: string,
    city: string,
    state: string,
    phone: string,
    address: string,
    genres: string,
    facebookLink: string,
    imageLink: string,
    websiteLink: string,
    seekingTalent: bool,
    seekingDescription: string)

  datatype ShowForm = ShowForm(artistId: int, venueId: int, startTime: int)

  /** How the commit ends: it succeeds, or raises a ValueError, or raises anything else. */
  datatype Commit = Committed | RaisesValueError | RaisesOther

  /** What the browser gets: a redirect to a record's page, or the home page,
      each with one flashed message; or the 500 page of an uncaught exception. */
  datatype Outcome =
    | RedirectTo(recordId: int, message: string)
    | HomePage(message: string)
    | InternalServerError

  /** The assignments of edit_artist_submission; genres and id are left alone. */
  function ApplyArtistForm(artist: Artist, form: ArtistForm): (r: Artist)
    ensures r.id == artist.id && r.genres == artist.genres
    ensures r.name == Some(form.name) && r.city == Some(form.city) && r.state == Some(form.state)
    ensures r.phone == Some(form.phone) && r.facebookLink == Some(form.facebookLink)
    ensures r.imageLink == Some(form.imageLink) && r.website == Some(form.websiteLink)
    ensures r.seekingVenue == form.seekingVenue && r.seekingDescription == Some(form.seekingDescription)
  {
    artist.(name := Some(form.name), city := Some(form.city), state := Some(form.state),
            phone := Some(form.phone), facebookLink := Some(form.facebookLink),
            imageLink := Some(form.imageLink), website := Some(form.websiteLink),
            seekingVenue := form.seekingVenue, seekingDescription := Some(form.seekingDescription))
  }

  /** The assignments of edit_venue_submission, which also set address and genres; id is left alone. */
  function ApplyVenueForm(venue: Venue, form: VenueForm): (r: Venue)
    ensures r.id == venue.id
    ensures r.name == form.name && r.city == form.city && r.state == form.state
    ensures r.phone == form.phone && r.address == form.address && r.genres == Some(form.genres)
    ensures r.facebookLink == Some(form.facebookLink) && r.imageLink == Some(form.imageLink)
    ensures r.website == Some(form.websiteLink)
    ensures r.seekingTalent == form.seekingTalent && r.seekingDescription == Some(form.seekingDescription)
  {
    venue.(name := form.name, city := form.city, state := form.state, phone := form.phone,
           address := form.address, genres := Some(form.genres),
           facebookLink := Some(form.facebookLink), imageLink := Some(form.imageLink),
           website := Some(form.websiteLink), seekingTalent := form.seekingTalent,
           seekingDescription := Some(form.seekingDescription))
  }

  /** An edit depends on the form alone: editing twice is editing once with
      the later form, so resubmitting a form changes nothing more. */
  lemma ArtistEditLastFormWins(artist: Artist, first: ArtistForm, second: ArtistForm)
    ensures ApplyArtistForm(ApplyArtistForm(artist, first), second) == ApplyArtistForm(artist, second)
    ensures ApplyArtistForm(ApplyArtistForm(artist, second), second) == ApplyArtistForm(artist, second)
  {
  }

  lemma VenueEditLastFormWins(venue: Venue, first: VenueForm, second: VenueForm)
    ensures ApplyVenueForm(ApplyVenueForm(venue, first), second) == ApplyVenueForm(venue, second)
    ensures ApplyVenueForm(ApplyVenueForm(venue, second), second) == ApplyVenueForm(venue, second)
  {
  }

  /** Two artists that differ at most in the edited fields agree after the
      edit; what an artist edit cannot change is its id and its genres. */
  lemma ArtistEditForgetsOnlyEditedFields(a: Artist, b: Artist, form: ArtistForm)
    ensures ApplyArtistForm(a, form) == ApplyArtistForm(b, form) <==> a.id == b.id && a.genres == b.genres
  {
    if ApplyArtistForm(a, form) == ApplyArtistForm(b, form) {
      assert ApplyArtistForm(a, form).genres == ApplyArtistForm(b, form).genres;
    }
  }

  /** Genres chosen in the venue form, stored as a brace list, come back
      unchanged on the venue's page. */
  lemma EditedVenueGenresRoundTrip(venue: Venue, form: VenueForm, parts: seq<string>)
    requires |parts| >= 1
    requires forall p :: p in parts ==> BraceListGenre(p)
    requires form.genres == "{" + Join(parts, ',') + "}"
    ensures VenueGenres(ApplyVenueForm(venue, form).genres.value) == parts
  {
    VenueGenresOfBraceList(parts);
  }

  /** The message each handler flashes. */
  function ArtistEdited(name: string): string { "Artist " + name + " was successfully edited" }
  function ArtistNotEdited(name: string): string { "Error in editing Artist " + name }
  function VenueEdited(name: string): string { "Venue " + name + " was successfully edited" }
  function VenueNotEdited(name: string): string { "Error in editing Venue " + name }
  const ShowListed := "Show was successfully listed!"
  const ShowNotListed := "An error occurred. Show could not be listed."

  class Database {
    var venues: seq<Venue>
    var artists: seq<Artist>
    var shows: seq<Show>
    var nextShowId: int

    /** Primary keys are unique, show ids come from the sequence before
        `nextShowId`, and every show's foreign keys name existing rows. */
    ghost predicate Valid()
      reads this
    {
      && UniqueKeys(venues, VenueId)
      && UniqueKeys(artists, ArtistId)
      && InKeyOrder(shows, ShowId)
      && (forall i :: 0 <= i < |shows| ==> shows[i].id < nextShowId)
      && (forall i :: 0 <= i < |shows| ==> HasKey(artists, ArtistId, shows[i].artistId) && HasKey(venues, VenueId, shows[i].venueId))
    }

    constructor (venueRows: seq<Venue>, artistRows: seq<Artist>, showRows: seq<Show>, next: int)
      requires UniqueKeys(venueRows, VenueId) && UniqueKeys(artistRows, ArtistId) && InKeyOrder(showRows, ShowId)
      requires forall i :: 0 <= i < |showRows| ==> showRows[i].id < next
      requires forall i :: 0 <= i < |showRows| ==>
        HasKey(artistRows, ArtistId, showRows[i].artistId) && HasKey(venueRows, VenueId, showRows[i].venueId)
      ensures Valid()
      ensures venues == venueRows && artists == artistRows && shows == showRows && nextShowId == next
    {
      venues, artists, shows, nextShowId := venueRows, artistRows, showRows, next;
    }

    /** POST /artists/<id>/edit. Everything, a missing artist included, is
        caught: the answer is always a redirect to the artist's page. */
    method EditArtistSubmission(artistId: int, form: ArtistForm, commitOk: bool) returns (r: Outcome)
      requires Valid()
      modifies this
      ensures Valid()
      ensures venues == old(venues) && shows == old(shows) && nextShowId == old(nextShowId)
      ensures IndexOf(old(artists), ArtistId, artistId).Some? && commitOk ==>
        var k := IndexOf(old(artists), ArtistId, artistId).value;
        && artists == old(artists)[k := ApplyArtistForm(old(artists)[k], form)]
        && r == RedirectTo(artistId, ArtistEdited(form.name))
      ensures IndexOf(old(artists), ArtistId, artistId).None? || !commitOk ==>
        artists == old(artists) && r == RedirectTo(artistId, ArtistNotEdited(form.name))
    {
      match IndexOf(artists, ArtistId, artistId)
      case None =>
        r := RedirectTo(artistId, ArtistNotEdited(form.name));
      case Some(k) =>
        if commitOk {
          var before := artists;
          artists := artists[k := ApplyArtistForm(artists[k], form)];
          SameKeysKeepTable(before, artists, ArtistId);
          r := RedirectTo(artistId, ArtistEdited(form.name));
        } else {
          r := RedirectTo(artistId, ArtistNotEdited(form.name));
        }
    }

    /** POST /venues/<id>/edit. Only a ValueError is caught; a missing venue
        (assigning to None) or any other failure is a 500. */
    method EditVenueSubmission(venueId: int, form: VenueForm, commit: Commit) returns (r: Outcome)
      requires Valid()
      modifies this
      ensures Valid()
      ensures artists == old(artists) && shows == old(shows) && nextShowId == old(nextShowId)
      ensures IndexOf(old(venues), VenueId, venueId).None? ==> venues == old(venues) && r == InternalServerError
      ensures IndexOf(old(venues), VenueId, venueId).Some? ==>
        var k := IndexOf(old(venues), VenueId, venueId).value;
        match commit
        case Committed =>
          venues == old(venues)[k := ApplyVenueForm(old(venues)[k], form)] && r == RedirectTo(venueId, VenueEdited(form.name))
        case RaisesValueError =>
          venues == old(venues) && r == RedirectTo(venueId, VenueNotEdited(form.name))
        case RaisesOther =>
          venues == old(venues) && r == InternalServerError
    {
      match IndexOf(venues, VenueId, venueId)
      case None =>
        r := InternalServerError;
      case Some(k) =>
        match commit
        case Committed =>
          var before := venues;
          venues := venues[k := ApplyVenueForm(venues[k], form)];
          SameKeysKeepTable(before, venues, VenueId);
          r := RedirectTo(venueId, VenueEdited(form.name));
        case RaisesValueError =>
          r := RedirectTo(venueId, VenueNotEdited(form.name));
        case RaisesOther =>
          r := InternalServerError;
    }

    /** POST /shows/create: a new show with exactly the submitted fields, or,
        when the commit fails (a foreign key naming no row makes it fail),
        no change. Either way the home page is rendered. */
    method CreateShowSubmission(form: ShowForm, commitOk: bool) returns (r: Outcome)
      requires Valid()
      modifies this
      ensures Valid()
      ensures venues == old(venues) && artists == old(artists)
      ensures commitOk && HasKey(old(artists), ArtistId, form.artistId) && HasKey(old(venues), VenueId, form.venueId) ==>
        && shows == old(shows) + [Show(old(nextShowId), form.artistId, form.venueId, form.startTime)]
        && nextShowId == old(nextShowId) + 1
        && r == HomePage(ShowListed)
      ensures !(commitOk && HasKey(old(artists), ArtistId, form.artistId) && HasKey(old(venues), VenueId, form.venueId)) ==>
        shows == old(shows) && nextShowId == old(nextShowId) && r == HomePage(ShowNotListed)
    {
      if commitOk && HasKey(artists, ArtistId, form.artistId) && HasKey(venues, VenueId, form.venueId) {
        shows := shows + [Show(nextShowId, form.artistId, form.venueId, form.startTime)];
        nextShowId := nextShowId + 1;
        r := HomePage(ShowListed);
      } else {
        r := HomePage(ShowNotListed);
      }
    }
  }

  /** A listed show is on its venue's page and on its artist's page, after
      the shows already there, and counts as upcoming from its start on. */
  lemma ListedShowAppearsOnPages(shows: seq<Show>, show: Show, now: int)
    ensures ShowsAtVenue(shows + [show], show.venueId) == ShowsAtVenue(shows, show.venueId) + [show]
    ensures ShowsOfArtist(shows + [show], show.artistId) == ShowsOfArtist(shows, show.artistId) + [show]
    ensures show.startTime >= now ==> UpcomingShows(shows + [show], now) == UpcomingShows(shows, now) + [show]
    ensures show.startTime < now ==> PastShows(shows + [show], now) == PastShows(shows, now) + [show]
  {
    FilterAppend(shows, [show], (s: Show) => s.venueId == show.venueId);
    FilterAppend(shows, [show], (s: Show) => s.artistId == show.artistId);
    FilterAppend(shows, [show], (s: Show) => s.startTime >= now);
    FilterAppend(shows, [show], (s: Show) => s.startTime < now);
  }
}
