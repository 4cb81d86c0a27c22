# Trivia API and Fyyur booking site, modelled in Dafny

This project models the logic of two small Flask/SQLAlchemy applications.

- **The trivia quiz API** (`flaskr/__init__.py`) covers:
  - pagination of the question list;
  - the category dictionary;
  - the listing, search, create and delete handlers for questions and categories;
  - the quiz draw;
  - the error code each handler ends with, after its bare `try/except` has re-mapped it.
- **The Fyyur booking site** (`app.py`) covers:
  - the venue and artist pages, with their shows split into past and upcoming;
  - the genre strings;
  - the venue listing grouped by city and state, and the upcoming-show counts;
  - the two name searches and the artist listing;
  - the artist and venue edit handlers, and the show creation handler.

How the model stands in for the running system:

- A database table is the sequence of its rows.
  - The trivia tables and the show table are kept in primary-key order, with ids drawn from a sequence.
  - The venue and artist tables are in query order and have unique primary keys.
- The current time is a parameter `now`.
- The random quiz draw is a parameter `choice`.
- Whether a database write succeeds, or which exception it raises, is a parameter.

Modules:

- `PyOps` (`pyops.dfy`) — the Python built-ins the code relies on, with Python's edge cases:
  - slicing, including clamping and negative indices;
  - the filtering list comprehension;
  - `str.strip` with one character;
  - `str.split` and `str.join`;
  - the ASCII case-insensitive substring test that `ilike '%term%'` performs.
- `Keys` (`keys.dfy`) — tables keyed by an integer primary key, shared by both applications: lookup by id (`Model.query.get`), id order, deletion by id and edits that keep ids.
- `Trivia` (`trivia.dfy`) — records, the four error replies (400, 404, 422, 500, each with its message), `paginate` and the read-only handlers.
  - A handler is a function from the request and the tables to `Success(payload)` or `Abort(error)`.
- `TriviaTables` (`trivia_tables.dfy`) — classes `QuestionTable` and `CategoryTable`.
  - They hold the rows and the next id of the id sequence.
  - Their methods are the POST and DELETE handlers, which insert or delete in place.
- `Booking` (`booking.dfy`) — the read side of Fyyur.
  - `ListVenues` is the `for`/`append` loop of `venues()`.
- `BookingDb` (`booking_db.dfy`) — class `Database`, holding the venue, artist and show tables and the next show id.
  - Its methods are the edit handlers and show creation.
  - An edit assigns form fields to one record and commits.
  - Show creation appends one show with the next show id and commits.
  - A failed commit leaves the tables as they were.

Behaviours of the code that the model keeps as written:

- **`get_categories`:** the `abort(404)` for an empty table is raised inside a bare `try`, so the client gets 500.
- **`create_question` guard:** the 400 guard runs first, and only when `searchTerm` is absent and `question` is present. It answers 400 for an empty question, an empty answer or a duplicate text, so `{"question": ""}` is a 400. A body that passes the guard with neither a non-empty `searchTerm` nor a non-empty question ends in `abort(400)` inside the `try`, which leaves as 422. That is the case exactly when `searchTerm` is present or `question` is absent. Because the guard is skipped whenever `searchTerm` is present, an empty `searchTerm` lets a duplicate question through.
- **`create_question` failures:** a failed insert also ends in 422.
- **Upcoming counts:** the count in the venue listing and in the searches uses `start_time > now`. The detail pages count `start_time >= now`, so a show starting exactly at `now` is upcoming on its page but not counted in the listing.
- **Artist genres:** `strip('"')` removes quotes only at the two ends of the whole string. The first genre of `{"a",b}` keeps its closing quote.
- **Detail pages for a missing record:** a missing venue or artist, or a NULL `genres` column, makes `show_venue`/`show_artist` raise. The result is 500, never 404.
- **`edit_artist_submission`:** catches every exception, a missing artist included, and answers with an error flash.
- **`edit_venue_submission`:** catches only `ValueError`. A missing venue, or any other failure, is a 500.
- **`delete_question`:** reports its count under `total_books`.

## Model

| member | source | states |
|---|---|---|
| PyOps.SliceIndex | projects/02_trivia_api/starter/backend/flaskr/__init__.py:24 | a slice bound lands in 0..n; a non-negative bound is clamped to n; a negative bound -m stands for n - m when m <= n, and for 0 when m > n |
| PyOps.Slice | projects/02_trivia_api/starter/backend/flaskr/__init__.py:24 | `items[start:end]` never fails and is no longer than the list |
| PyOps.SliceNonNegative | projects/02_trivia_api/starter/backend/flaskr/__init__.py:19-24 | with 0 <= start <= stop the slice is the subrange clamped to the list |
| PyOps.Filter | projects/01_fyyur/starter_code/app.py:125-126 | a filtering comprehension keeps only elements of the list that pass the test, and is no longer than the list |
| PyOps.FilterKeeps | projects/01_fyyur/starter_code/app.py:125-126 | every element that passes the test is kept |
| PyOps.FilterComplete | projects/01_fyyur/starter_code/app.py:272-273 | every element that passes the test is kept, for all positions at once |
| PyOps.FilterIsSubsequence | projects/01_fyyur/starter_code/app.py:125-126 | the comprehension keeps the original order (its result is a subsequence) |
| PyOps.MapKeepsSubsequence | projects/01_fyyur/starter_code/app.py:96-109 | building one entry per row keeps the order of a filtered selection: mapped element by element, a subsequence stays a subsequence |
| PyOps.FilterAppend | projects/01_fyyur/starter_code/app.py:272-273 | filtering distributes over concatenation |
| PyOps.FilterKeepsAll | projects/01_fyyur/starter_code/app.py:92-94 | a test every element passes keeps the whole list |
| PyOps.FilterDropsOne | projects/02_trivia_api/starter/backend/flaskr/__init__.py:134-135 | failing exactly one position removes exactly that element |
| PyOps.FilterPartition | projects/01_fyyur/starter_code/app.py:125-126 | two complementary tests split the list: the multisets add up to the list's, and so do the lengths |
| PyOps.FilterSameKeep | projects/01_fyyur/starter_code/app.py:239-241 | two tests that agree everywhere filter alike |
| PyOps.FilterCountSplit | projects/01_fyyur/starter_code/app.py:73 | a test that is the disjoint union of two others counts the sum of their counts |
| PyOps.Leading | projects/01_fyyur/starter_code/app.py:131 | the count of leading copies of a character: all of them are that character and the next is not |
| PyOps.Trailing | projects/01_fyyur/starter_code/app.py:131 | the same for trailing copies |
| PyOps.Strip | projects/01_fyyur/starter_code/app.py:131 | `str.strip(c)` never lengthens the string |
| PyOps.StripCharacterised | projects/01_fyyur/starter_code/app.py:131 | strip keeps one contiguous piece whose ends are not `c` and drops only copies of `c` on either side |
| PyOps.StripIdempotent | projects/01_fyyur/starter_code/app.py:278 | stripping twice is stripping once |
| PyOps.StripEnds | projects/01_fyyur/starter_code/app.py:278 | strip removes exactly runs of `c` around a middle that neither begins nor ends with `c` |
| PyOps.Split | projects/01_fyyur/starter_code/app.py:131 | `str.split(sep)` yields at least one piece |
| PyOps.JoinAvoids | projects/01_fyyur/starter_code/app.py:131 | a character in no part, other than the separator, is not in the join |
| PyOps.SplitPiecesHaveNoSeparator | projects/01_fyyur/starter_code/app.py:131 | no piece of a split contains the separator |
| PyOps.SplitCount | projects/01_fyyur/starter_code/app.py:131 | a split has one more piece than the string has separators |
| PyOps.JoinSplit | projects/01_fyyur/starter_code/app.py:131 | joining the pieces of a split gives back the string |
| PyOps.SplitJoin | projects/01_fyyur/starter_code/app.py:278 | splitting the join of separator-free pieces gives back the pieces |
| PyOps.SplitPlain | projects/01_fyyur/starter_code/app.py:278 | a separator-free prefix is glued onto the first piece of what follows |
| PyOps.SplitPair | projects/01_fyyur/starter_code/app.py:278 | two pieces free of the separator, joined by one separator, split back into exactly those two pieces |
| PyOps.LowerString | projects/01_fyyur/starter_code/app.py:93 | folding is character by character and keeps the length |
| PyOps.InfixOffset | projects/01_fyyur/starter_code/app.py:93 | a found occurrence is at a real offset of the string |
| PyOps.InfixAt | projects/01_fyyur/starter_code/app.py:93 | an occurrence at any offset makes the term an infix |
| PyOps.EmptyTermMatchesEveryName | projects/01_fyyur/starter_code/app.py:91-93 | the default empty search term matches every name |
| PyOps.LowerStringIdempotent | projects/01_fyyur/starter_code/app.py:240 | folding a folded string changes nothing |
| PyOps.MatchIgnoresTermCase | projects/01_fyyur/starter_code/app.py:240 | the match does not depend on the case of the term |
| PyOps.ContainsIgnoringCase | projects/01_fyyur/starter_code/app.py:93 | defines `name ILIKE '%' || term || '%'`: the folded term occurs in the folded name; EmptyTermMatchesEveryName, MatchIgnoresTermCase and OccurrenceMatches state its properties |
| PyOps.FoldedOccurrenceMatches | projects/01_fyyur/starter_code/app.py:240 | a term occurring in the name once both are folded matches |
| PyOps.OccurrenceMatches | projects/01_fyyur/starter_code/app.py:93 | a term written out inside the name matches |
| Keys.IndexOf | projects/02_trivia_api/starter/backend/flaskr/__init__.py:128 | `Model.query.get(id)`: the position of a row with that primary key, or none when no row has it |
| Keys.Get | projects/01_fyyur/starter_code/app.py:124 | defines `Model.query.get(id)` as the row at the position IndexOf finds, or None; ShowVenue and ShowArtist state its outcomes |
| Keys.InKeyOrderIsUnique | projects/02_trivia_api/starter/backend/flaskr/__init__.py:92 | rows in strictly increasing id order have unique ids |
| Keys.UniqueKeysOfInit | projects/02_trivia_api/starter/backend/flaskr/__init__.py:69 | dropping the last row keeps ids unique, and no earlier row has the last one's id |
| Keys.UniqueKeysOfFilter | projects/02_trivia_api/starter/backend/flaskr/__init__.py:95-100 | a filtered selection of a table with unique ids still has unique ids |
| Keys.RemovedRowIsTheOnlyOneGone | projects/02_trivia_api/starter/backend/flaskr/__init__.py:134-135 | deleting the row found by id keeps id order and leaves exactly the rows whose id differs, as the SQL delete by id does |
| Keys.SpliceKeepsKeyOrder | projects/02_trivia_api/starter/backend/flaskr/__init__.py:134-135 | removing one row keeps the rest in id order |
| Keys.SpliceIsDeleteByKey | projects/02_trivia_api/starter/backend/flaskr/__init__.py:134-135 | with unique ids, removing the row at the found position is deleting every row with that id |
| Keys.SameKeysKeepTable | projects/01_fyyur/starter_code/app.py:330-339 | replacing rows by edited rows with the same ids keeps ids unique and keeps every id present |
| Trivia.Error.Status | projects/02_trivia_api/starter/backend/flaskr/__init__.py:375-409 | defines the status code of each error handler: 400, 404, 422 and 500 |
| Trivia.Error.Message | projects/02_trivia_api/starter/backend/flaskr/__init__.py:375-409 | defines the message each error handler sends with its status, word for word |
| Trivia.Paginate | projects/02_trivia_api/starter/backend/flaskr/__init__.py:17-24 | a page never holds more than QUESTIONS_PER_PAGE (10) items |
| Trivia.PageFromOne | projects/02_trivia_api/starter/backend/flaskr/__init__.py:17-24 | for page >= 1 the page is exactly the items (page-1)*10 up to min(page*10, n), in order, and it is empty iff (page-1)*10 >= n |
| Trivia.PageZeroIsEmpty | projects/02_trivia_api/starter/backend/flaskr/__init__.py:19-24 | page 0 slices `[-10:0]` and is always empty |
| Trivia.NegativePageCountsFromEnd | projects/02_trivia_api/starter/backend/flaskr/__init__.py:19-24 | a negative page wraps Python-style, counting from the end of the list |
| Trivia.CategoryMap | projects/02_trivia_api/starter/backend/flaskr/__init__.py:69 | the dict comprehension has exactly the category ids as keys |
| Trivia.CategoryMapOfUniqueIds | projects/02_trivia_api/starter/backend/flaskr/__init__.py:69-70 | with unique ids each id maps to its own type and the dict has one entry per row |
| Trivia.GetCategories | projects/02_trivia_api/starter/backend/flaskr/__init__.py:55-74 | answers 500 exactly when the table is empty (the 404 is swallowed), else the dict keyed by every category id with `total_categories` the number of categories |
| Trivia.GetCategoriesListsEveryCategory | projects/02_trivia_api/starter/backend/flaskr/__init__.py:58-74 | on unique ids every category maps to its type and `total_categories` equals the number of entries; empty is 500 |
| Trivia.GetQuestions | projects/02_trivia_api/starter/backend/flaskr/__init__.py:88-117 | an abort is always 404; a page holds at most 10 questions |
| Trivia.GetQuestionsOutcome | projects/02_trivia_api/starter/backend/flaskr/__init__.py:92-116 | for page >= 1: 404 iff the page starts past the end; otherwise that exact slice, `page` echoed, `current_category` None, `total_questions` the whole table's size, and a category dict whose keys are exactly the categories some question uses, each mapped to its type when category ids are unique |
| Trivia.UsedCategoryIds | projects/02_trivia_api/starter/backend/flaskr/__init__.py:95-100 | defines the set `set([cat.category for cat in selection])` of the category ids the listed questions carry (a question without a category adds none) |
| Trivia.UsedCategoriesMapToTheirTypes | projects/02_trivia_api/starter/backend/flaskr/__init__.py:95-100 | with unique category ids, every category some question uses is a key of the dict and maps to its own type |
| Trivia.InCategory | projects/02_trivia_api/starter/backend/flaskr/__init__.py:251 | defines the filter `Question.category == category_id`; a question without a category is in none |
| Trivia.GetQuestionsByCategory | projects/02_trivia_api/starter/backend/flaskr/__init__.py:247-265 | 404 iff no question is in the category; otherwise exactly the category's questions (sound and complete) in table order, each at most once as a subsequence of the table, their count, and the category echoed |
| Trivia.IsEligible | projects/02_trivia_api/starter/backend/flaskr/__init__.py:288-302 | defines the quiz filter: the id is not among the previous questions, and the category matches unless it is 0 ("all") |
| Trivia.EligibleTest | projects/02_trivia_api/starter/backend/flaskr/__init__.py:288-302 | the quiz filter as a test value |
| Trivia.Eligible | projects/02_trivia_api/starter/backend/flaskr/__init__.py:288-302 | defines the quiz pool as the eligible questions in table order; GenerateQuiz and DrawServesThatPosition state what a draw takes from it |
| Trivia.GenerateQuiz | projects/02_trivia_api/starter/backend/flaskr/__init__.py:279-309 | 500 iff the body lacks the previous list or the category; a drawn question is in the table, not previously asked and in the category unless it is 0; no question iff none is eligible |
| Trivia.DrawServesThatPosition | projects/02_trivia_api/starter/backend/flaskr/__init__.py:288-302 | a draw k below the number of eligible questions serves exactly the k-th eligible question, in table order |
| Trivia.QuizCanServeAnyEligible | projects/02_trivia_api/starter/backend/flaskr/__init__.py:288-302 | every eligible question is the result of some draw |
| Trivia.QuestionTexts | projects/02_trivia_api/starter/backend/flaskr/__init__.py:184 | the list of existing question texts, position by position |
| Trivia.DuplicateIsInTexts | projects/02_trivia_api/starter/backend/flaskr/__init__.py:184 | a text is in that list iff some existing question has it |
| Trivia.IsBadQuestion | projects/02_trivia_api/starter/backend/flaskr/__init__.py:180-188 | defines the 400 guard: an empty question, an empty answer or an existing text, with no `searchTerm` and a present `question`; BadRequestExactly states it as an iff |
| Trivia.RouteQuestionPost | projects/02_trivia_api/starter/backend/flaskr/__init__.py:180-236 | defines which way create_question goes (400, search, insert or 422); BadRequestExactly, UnprocessableExactly, SearchExactly and InsertExactly state each way as an iff |
| Trivia.BadRequestExactly | projects/02_trivia_api/starter/backend/flaskr/__init__.py:180-189 | 400 iff `searchTerm` is absent, `question` is present, and the question is "", the answer is "" or the question repeats an existing one |
| Trivia.UnprocessableExactly | projects/02_trivia_api/starter/backend/flaskr/__init__.py:191-236 | the routing gives 422 iff neither the search term nor the question is a non-empty string and the 400 guard did not fire |
| Trivia.SearchExactly | projects/02_trivia_api/starter/backend/flaskr/__init__.py:186-198 | a search runs iff the search term is a non-empty string, with that term |
| Trivia.InsertExactly | projects/02_trivia_api/starter/backend/flaskr/__init__.py:180-219 | an insert happens iff the question is non-empty, there is no non-empty search term, and the 400 guard let it through; it inserts that text |
| Trivia.SearchQuestions | projects/02_trivia_api/starter/backend/flaskr/__init__.py:194-198 | the matches are exactly the questions whose text contains the term case-insensitively, in table order as a subsequence of the table |
| Trivia.SearchReply | projects/02_trivia_api/starter/backend/flaskr/__init__.py:199-209 | the reply is the requested page of the matches, `current_page` echoes the page, at most 10 entries each containing the term, and `total_questions` counts all matches |
| Trivia.CategoryTypes | projects/02_trivia_api/starter/backend/flaskr/__init__.py:321 | the list of existing category types, position by position |
| Trivia.IsBadCategoryName | projects/02_trivia_api/starter/backend/flaskr/__init__.py:318-322 | defines the 400 guard of create_category: no name, an empty name or an existing type; BadCategoryNameExactly states it as an iff |
| Trivia.BadCategoryNameExactly | projects/02_trivia_api/starter/backend/flaskr/__init__.py:318-323 | 400 iff the name is absent, empty, or the type of an existing category |
| TriviaTables.QuestionTable.CreateQuestion | projects/02_trivia_api/starter/backend/flaskr/__init__.py:169-236 | 400, 422 and search leave the rows and the id sequence alone; an insert appends exactly one row with the next id and the body's fields, advances the sequence by one, and answers its id, the page and the new size; a failed insert is 422 and changes nothing |
| TriviaTables.QuestionTable.DeleteQuestion | projects/02_trivia_api/starter/backend/flaskr/__init__.py:126-147 | an unknown id is 404 and changes nothing; a failing delete is 500; otherwise the rows become exactly those whose id differs (the one found is spliced out), `deleted` echoes the id and `total_books` is the new size; the id sequence never moves |
| TriviaTables.CategoryTable.CreateCategory | projects/02_trivia_api/starter/backend/flaskr/__init__.py:311-342 | a bad name is 400 and changes neither the rows nor the id sequence; otherwise exactly one category with the next id and that type is added, the sequence advances by one, and `total_categories` is the new count; a failed insert is 500 and changes nothing |
| TriviaTables.CategoryTable.DeleteCategory | projects/02_trivia_api/starter/backend/flaskr/__init__.py:344-367 | an unknown id is 404 and changes nothing; otherwise the rows become exactly those whose id differs and the count is the new size |
| Booking.PastShows | projects/01_fyyur/starter_code/app.py:125 | defines the past shows as those starting before now, in order; PastAndUpcomingSplitTheShows states the split |
| Booking.UpcomingShows | projects/01_fyyur/starter_code/app.py:126 | defines the upcoming shows as those starting at or after now, in order |
| Booking.ShowsAtVenue | projects/01_fyyur/starter_code/app.py:125-126 | defines `venue.shows` as the shows whose venue id is the venue's, in table order |
| Booking.ShowsOfArtist | projects/01_fyyur/starter_code/app.py:272-273 | defines `artist.shows` as the shows whose artist id is the artist's, in table order |
| Booking.PastAndUpcomingSplitTheShows | projects/01_fyyur/starter_code/app.py:125-126 | past (< now) and upcoming (>= now) together hold every show exactly once, are disjoint, keep the order, and sit on the right side of now |
| Booking.ListedUpcomingCount | projects/01_fyyur/starter_code/app.py:73 | defines the listing count as the number of shows starting strictly after now; ListedCountMissesShowsStartingNow relates it to the page count |
| Booking.ListedCountMissesShowsStartingNow | projects/01_fyyur/starter_code/app.py:73 | the listing's count (> now) is the detail page's upcoming count minus the shows starting exactly at now |
| Booking.StrippedVenueGenres | projects/01_fyyur/starter_code/app.py:131 | defines `genres.strip("{").strip("}")`; VenueGenres and VenueGenresOfBraceList state what the split gives back |
| Booking.StrippedArtistGenres | projects/01_fyyur/starter_code/app.py:278 | defines `genres.strip("{").strip("}").strip('"')`; QuotedPairStripped shows the quote strip acting on the whole string only |
| Booking.VenueGenres | projects/01_fyyur/starter_code/app.py:131 | at least one genre, none containing a comma, and re-joined with commas they give the brace-stripped column |
| Booking.ArtistGenres | projects/01_fyyur/starter_code/app.py:278 | the same against the column stripped of braces and then of double quotes |
| Booking.StripBraces | projects/01_fyyur/starter_code/app.py:131 | `strip("{").strip("}")` of a brace-wrapped string with no brace inside gives back exactly the inside |
| Booking.VenueGenresOfBraceList | projects/01_fyyur/starter_code/app.py:131 | a brace list of genres free of commas and braces parses back into exactly those genres |
| Booking.BraceListGenre | projects/01_fyyur/starter_code/app.py:131 | defines a genre the venue column can carry between braces: no comma and no brace |
| Booking.PlainGenre | projects/01_fyyur/starter_code/app.py:278 | defines a genre free of every character the artist column syntax uses, the quote included |
| Booking.ArtistGenresKeepInnerQuotes | projects/01_fyyur/starter_code/app.py:278 | `{"a",b}` parses to `a"` and `b`: the quote before the comma survives |
| Booking.QuotedPairStripped | projects/01_fyyur/starter_code/app.py:278 | stripping `{"a",b}` of braces and quotes leaves `a",b` |
| Booking.QuotedPairPieces | projects/01_fyyur/starter_code/app.py:278 | `a",b` is `a"`, a comma and `b`, with no other comma when neither genre has one |
| Booking.ShowVenue | projects/01_fyyur/starter_code/app.py:119-163 | 500 iff the venue is missing or its genres are NULL; otherwise the page holds the record with that id, its parsed genres, the venue's shows before now as past and from now on as upcoming, and their lengths as the counts |
| Booking.ShowArtist | projects/01_fyyur/starter_code/app.py:265-308 | the same for an artist's page |
| Booking.VenuePageSplitsItsShows | projects/01_fyyur/starter_code/app.py:125-126 | on a venue page every past and upcoming show belongs to the venue and lies on its side of now, and together they are exactly the venue's shows, so the two counts add up to its number of shows |
| Booking.ArtistPageSplitsItsShows | projects/01_fyyur/starter_code/app.py:272-273 | the same for an artist page |
| Booking.VenueSummaryOf | projects/01_fyyur/starter_code/app.py:68-76 | defines one venue's entry in the listing and in the search: its id, its name and the listing count of its shows after now (the same entry at projects/01_fyyur/starter_code/app.py:99-107) |
| Booking.ArtistSummaryOf | projects/01_fyyur/starter_code/app.py:246-254 | defines one artist's search entry: id, the possibly NULL name, and the listing count of its shows after now |
| Booking.VenueSummaries | projects/01_fyyur/starter_code/app.py:67-78 | one summary per venue, in order: id, name and the listing's upcoming count |
| Booking.ArtistSummaries | projects/01_fyyur/starter_code/app.py:245-256 | one summary per artist, in order |
| Booking.VenueMatches | projects/01_fyyur/starter_code/app.py:92-94 | defines `Venue.name.ilike("%" + term + "%")` as a case-insensitive infix match on the name |
| Booking.ArtistMatches | projects/01_fyyur/starter_code/app.py:239-241 | defines the same match for artists, where a NULL name never matches |
| Booking.SearchVenues | projects/01_fyyur/starter_code/app.py:86-116 | `count` equals the length of `data`; every result's name contains the term case-insensitively; every matching venue is in the results; every result is some matching venue's summary; the results are a subsequence of the venues' summaries, so in table order |
| Booking.SearchArtists | projects/01_fyyur/starter_code/app.py:232-262 | the same for artists, where a NULL name never matches |
| Booking.EmptyTermFindsEveryVenue | projects/01_fyyur/starter_code/app.py:91-110 | the default empty term lists every venue, in order |
| Booking.EmptyTermFindsEveryNamedArtist | projects/01_fyyur/starter_code/app.py:238-257 | the empty term answers exactly the summaries of the artists whose name is not NULL, in order, with their number as the count |
| Booking.VenueNamingTermIsFound | projects/01_fyyur/starter_code/app.py:92-108 | a venue whose name contains the term is among the results |
| Booking.ArtistNamingTermIsFound | projects/01_fyyur/starter_code/app.py:239-255 | an artist whose name contains the term is among the results |
| Booking.ListArtists | projects/01_fyyur/starter_code/app.py:223-229 | one (id, name) pair per artist, in query order |
| Booking.Locations | projects/01_fyyur/starter_code/app.py:57 | the distinct (city, state) pairs: no repeats, every venue's pair is there, and each comes from some venue |
| Booking.VenuesAt | projects/01_fyyur/starter_code/app.py:60-65 | defines the venues of one city and state, in query order |
| Booking.AreaAt | projects/01_fyyur/starter_code/app.py:58-79 | defines one area of the listing: its city, its state and the summaries of the venues there |
| Booking.AreasAt | projects/01_fyyur/starter_code/app.py:57-81 | the areas the loop has appended after a prefix of the locations: one per location, built from it |
| Booking.ListVenues | projects/01_fyyur/starter_code/app.py:50-83 | the loop yields one area per distinct location, covering every venue's location, each listing exactly the summaries of the venues there, none empty |
| Booking.AreasAtLocationsAreGrouped | projects/01_fyyur/starter_code/app.py:57-81 | one area built per distinct location is a grouped listing |
| Booking.AreasCoverVenues | projects/01_fyyur/starter_code/app.py:57 | every venue's location has an area |
| Booking.LocationIsInhabited | projects/01_fyyur/starter_code/app.py:58-63 | every distinct location has at least one venue |
| Booking.EveryVenueInExactlyOneArea | projects/01_fyyur/starter_code/app.py:57-81 | in a grouped listing, with unique ids, every venue's summary is in exactly one area, the one with its own city and state |
| Booking.VenueInHomeArea | projects/01_fyyur/starter_code/app.py:58-78 | a venue's summary is in the area of its own location |
| Booking.SummaryLiesInHomeArea | projects/01_fyyur/starter_code/app.py:58-78 | with unique ids, an area listing a venue's summary is at that venue's location |
| BookingDb.ApplyArtistForm | projects/01_fyyur/starter_code/app.py:330-338 | name, city, state, phone, facebook_link, image_link, website and the seeking fields take the form's values; id and genres are unchanged |
| BookingDb.ApplyVenueForm | projects/01_fyyur/starter_code/app.py:367-377 | the same fields plus address and genres take the form's values; id is unchanged |
| BookingDb.ArtistEditLastFormWins | projects/01_fyyur/starter_code/app.py:330-338 | two edits equal the later one alone; resubmitting a form changes nothing more |
| BookingDb.VenueEditLastFormWins | projects/01_fyyur/starter_code/app.py:367-377 | the same for venues |
| BookingDb.ArtistEditForgetsOnlyEditedFields | projects/01_fyyur/starter_code/app.py:330-338 | two artists agree after an edit iff they had the same id and genres: those are exactly the fields the edit keeps |
| BookingDb.EditedVenueGenresRoundTrip | projects/01_fyyur/starter_code/app.py:372 | genres stored as a brace list by the venue edit come back unchanged on the venue page |
| BookingDb.ArtistEdited | projects/01_fyyur/starter_code/app.py:340 | defines the flash after a committed artist edit, naming the form's name |
| BookingDb.ArtistNotEdited | projects/01_fyyur/starter_code/app.py:344 | defines the flash after a failed artist edit |
| BookingDb.VenueEdited | projects/01_fyyur/starter_code/app.py:379 | defines the flash after a committed venue edit |
| BookingDb.VenueNotEdited | projects/01_fyyur/starter_code/app.py:383 | defines the flash after a venue edit that raised ValueError |
| BookingDb.ShowListed | projects/01_fyyur/starter_code/app.py:484 | the flash after a committed show |
| BookingDb.ShowNotListed | projects/01_fyyur/starter_code/app.py:489 | the flash after a failed show insert |
| BookingDb.Database.EditArtistSubmission | projects/01_fyyur/starter_code/app.py:321-348 | on a known id and a successful commit exactly that artist is replaced by its edit and the success message is flashed; otherwise nothing changes and the error message is flashed; always a redirect to the artist's page |
| BookingDb.Database.EditVenueSubmission | projects/01_fyyur/starter_code/app.py:359-387 | an unknown id is 500; a successful commit replaces exactly that venue by its edit; a ValueError flashes the error and changes nothing; any other failure is 500 and changes nothing |
| BookingDb.Database.CreateShowSubmission | projects/01_fyyur/starter_code/app.py:468-493 | when the commit succeeds and both foreign keys exist, exactly one show with the submitted artist, venue and start time is appended; otherwise nothing changes and the error is flashed |
| BookingDb.ListedShowAppearsOnPages | projects/01_fyyur/starter_code/app.py:475-489 | a new show is appended to its venue's and its artist's shows and to the upcoming or past shows according to its start |

## Left out

- Flask itself is not modelled: routing, `render_template`, `jsonify`, `flash`, `redirect`, CORS and the unregistered `after_request`. Handlers return values that stand for the response.
- `format_datetime` (app.py) wraps dateutil and babel; times are plain integers.
- Sessions, transactions, rollback and concurrency are not modelled. Each write is atomic, and races on the duplicate checks are not modelled.
- Failures of read queries are not modelled. This covers the `abort(422)` paths of `get_questions` and `get_questions_by_category`.
- `ilike` is modelled with ASCII case folding only. Unicode folding and collation are not modelled, nor the `%` and `_` wildcards inside a search term.
- `func.random()` is the `choice` parameter. Any eligible question can be drawn, but no distribution is modelled.
- The trivia `models.py` and its `format()` are not part of this model. Payloads carry the records themselves.
- `create_venue_submission`, `create_artist_submission`, `shows()`, the GET edit forms and the stub `delete_venue` are not modelled.
- The joined fields of show entries (artist or venue name and image) are not modelled. The pages carry the shows themselves.
- The order of SQL `DISTINCT` is taken to be the order of first appearance.
- The following request shapes are not modelled: a request body that is not a JSON object, URL ids that are not integers, and a category id sent as anything but an integer.
- The form's genre list is a `string` in `VenueForm`: the driver's list-to-text conversion is not modelled.
- Failed inserts do not consume a value of the id sequence.
- Form text fields are plain strings, so the flash messages never concatenate `None`.
- Ordering: the trivia tables and the show table are kept in primary-key order. The venue and artist tables are kept in one fixed order with unique ids. Queries without `order_by` are taken to return the table's order.
- Booking.PastAndUpcomingSplitTheShows: holds for one shared `now`. The code reads `dt.now()` once for the past list and again for the upcoming list, and once per venue or artist in the listing and search counts. A show that starts between two of those reads is in neither list; the model does not capture that.
- The `page` argument is an integer in the model. Flask's `type=int` turns a non-integer argument into page 1 before the code sees it.
