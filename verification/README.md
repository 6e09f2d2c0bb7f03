# Movie app core, modelled in Dafny

This project models the logic core of a React Native movie-browsing app
built on the TMDB metadata API. It covers:

- **Favourites store** (`Storage`). A list of bookmarked movies under one
  key of an asynchronous key-value store, plus the haptics preference. The
  store is a `map<string, Value>`, each value classified by how its text
  parses: a favourites list, a JSON value that is not a list, or other
  text. Every read or write may fail through a boolean parameter.
- **Favourites provider** (`SavedContext`). The in-memory snapshot of that
  list, re-read after every successful write, and the hook guard.
- **API client** (`Api`, `Uri`):
  - the twelve endpoint queries, as structured requests rendered to the
    exact query strings of the source;
  - `encodeURIComponent` as section 19.2.6 of ECMA-262 defines it, with
    UTF-8 then `%XX` in upper-case hex;
  - the ok/error decision of `fetchFromApi` and `getGenres` over an abstract
    response;
  - the two image URL helpers.
- **Filter sheet** (`Filters`). The filter record, the year choices, the
  handlers that edit the sheet's local copy, the active-filter test, the
  apply label, and the sheet's show/edit/apply life cycle.
- **Now-playing screen** (`NowPlaying`). The pagination state machine: list,
  `loading`, `refreshing`, page cursor and `hasMore`, driven by mount,
  end-of-list, refresh and fetch completions. It also covers the list-key
  scheme.
- **Card captions** (`GenreLabels`). The genre captions of `MovieCard`,
  `MovieHero` and `ComingSoonCard`, the hero's year text, the coming-soon
  subtitle and the detail route.

`Types` mirrors the records of `types/movie.ts`. `Strings` holds the decimal
rendering of numbers (JavaScript's `${n}` for integers), `join`, `split` and
the first-index search. `Wrappers` holds `Option` and `Result`.

Outside effects become parameters:

- The network is a `Transport` value saying what the fetch delivered.
- Storage failures are `readFails` / `writeFails` flags.
- The save timestamp and the current year are arguments.
- A started fetch is an output of the transition that starts it. Its
  outcome comes back later as a completion event.

## Model

| member | source | states |
|---|---|---|
| Storage.ReadSaved | services/storage.ts:14-15 | reading the favourites key gives the stored list (`[]` for an absent key) or says why there is none: the read threw, the text does not parse, or it parses to a non-list; each exactly in its own case |
| Storage.GetSavedMovies | services/storage.ts:12-20 | resolves to the stored list; to `[]` when the key is absent or the read or parse throws; to a non-list value (`None`) exactly when the text parses to one; never holds an id twice when the store is valid |
| Storage.Without | services/storage.ts:50 | keeps exactly the entries whose id differs, and the result has no entry with that id |
| Storage.WithoutAppend | services/storage.ts:50 | the filter works piecewise over concatenation, so kept entries keep their relative order |
| Storage.WithoutAbsent | services/storage.ts:50 | filtering out an id that is not present changes nothing |
| Storage.WithoutKeepsDistinct | services/storage.ts:50 | removal keeps the list free of repeated ids |
| Storage.PrependKeepsDistinct | services/storage.ts:26-37 | prepending an entry whose id is absent keeps the list free of repeated ids |
| Storage.SaveMovie | services/storage.ts:23-44 | as written: succeeds iff the resolved value is a list (empty after a failed read) that lacks the id and the write succeeds; then the stored list is the new entry followed by that list; a non-list value makes it fail; on failure nothing changes; other keys untouched; invariant kept |
| Storage.RemoveMovie | services/storage.ts:47-57 | as written: succeeds iff the resolved value is a list and the write succeeds, whether or not the id was stored; then the stored list is that list without the id; other keys untouched; invariant kept |
| Storage.SaveMovieGuarded | services/storage.ts:23-44 | the save with a failed read reported: succeeds iff the list was read, lacks the id, and the write succeeds; the new entry is prepended to the list read |
| Storage.RemoveMovieGuarded | services/storage.ts:47-57 | the removal with a failed read reported: succeeds iff the list was read and the write succeeds; the list read loses exactly that id |
| Storage.IsMovieSaved | services/storage.ts:60-68 | true iff the freshly read value is a list with an entry of that id; a failed read or a non-list value gives false |
| Storage.ClearSavedMovies | services/storage.ts:71-77 | the favourites key is gone unless the removal fails, and nothing else changes |
| Storage.GetHapticsEnabled | services/storage.ts:80-89 | absent value or failed read means enabled; otherwise enabled iff the stored text is `"true"` |
| Storage.SetHapticsEnabled | services/storage.ts:92-98 | unless the write fails, the haptics key holds exactly `"true"` or `"false"` as `enabled` is; no other key changes |
| Storage.SaveIdempotent | services/storage.ts:25-30 | after a successful save, saving the same id again, with a read that succeeds, returns false and writes nothing |
| Storage.SavedAfterSave | services/storage.ts:23-64 | after a successful save, a successful read reports the id as saved |
| Storage.NotSavedAfterRemove | services/storage.ts:47-64 | after a successful removal, no read reports the id as saved |
| Storage.RemoveAbsentKeepsList | services/storage.ts:47-53 | removing an id absent from the stored list returns true and rewrites the same list |
| Storage.NonListBlocksWrites | services/storage.ts:23-68 | when the key holds text that parses to a non-list, save and remove return false and write nothing, and the lookup says not saved, because `.some` / `.filter` throw into each `catch` |
| Storage.ClearThenGet | services/storage.ts:71-74 | clearing then reading yields `[]` |
| Storage.HapticsRoundTrip | services/storage.ts:80-95 | setting the preference then reading it returns the value set, and the favourites are untouched |
| Storage.SaveAfterFailedReadDropsList | services/storage.ts:12-39 | as written, a save after a read that throws or text that does not parse reports success and leaves only the new entry stored |
| Storage.RemoveAfterFailedReadDropsList | services/storage.ts:12-52 | as written, a removal after a read that throws or text that does not parse reports success and leaves the stored list empty |
| Storage.GuardedKeepsListOnFailedRead | services/storage.ts:23-57 | whenever the list cannot be read, the guarded save and removal return false and leave the store as it was |
| Storage.GuardedAgreesWhenReadSucceeds | services/storage.ts:23-57 | when the read succeeds, the guarded and as-written operations give the same result |
| SavedContext.Initial | contexts/SavedMoviesContext.tsx:22-23 | the provider starts with an empty snapshot and `isLoading` set |
| SavedContext.Refresh | contexts/SavedMoviesContext.tsx:26-35 | the snapshot becomes the list a read resolves to (`[]` after a failed read), `isLoading` ends false either way, and the store is untouched |
| SavedContext.Mount | contexts/SavedMoviesContext.tsx:37-39 | the mount refresh leaves the provider loaded and, when the read succeeds, in step with the store |
| SavedContext.IsMovieSaved | contexts/SavedMoviesContext.tsx:60-62 | true iff some snapshot entry has the id; it reads no storage |
| SavedContext.SaveMovie | contexts/SavedMoviesContext.tsx:42-48 | returns exactly the storage `saveMovie` result, as written; a false result leaves store and snapshot unchanged; a true one is followed by a refresh, after which, when the refresh's read succeeds, the snapshot matches the store, and a failed refresh read leaves the snapshot `[]` |
| SavedContext.RemoveMovie | contexts/SavedMoviesContext.tsx:51-57 | returns exactly the storage `removeMovie` result, as written; a false result leaves store and snapshot unchanged; a true one is followed by a refresh, after which, when the refresh's read succeeds, the snapshot matches the store, and a failed refresh read leaves the snapshot `[]` |
| SavedContext.UseSavedMovies | contexts/SavedMoviesContext.tsx:80-86 | outside a provider the hook fails with its message; inside, it gives the provider's value |
| SavedContext.SavedAfterSave | contexts/SavedMoviesContext.tsx:42-62 | after a successful save whose refresh succeeds, the snapshot lookup finds the movie |
| SavedContext.NotSavedAfterRemove | contexts/SavedMoviesContext.tsx:51-62 | after a successful removal whose refresh succeeds, the snapshot lookup no longer finds the id |
| SavedContext.DuplicateSaveKeepsSnapshot | contexts/SavedMoviesContext.tsx:42-48 | saving an id the synced snapshot already holds, with a read that succeeds, returns false and changes nothing |
| SavedContext.SyncedPreserved | contexts/SavedMoviesContext.tsx:26-57 | snapshot and store stay in agreement across any save or removal whose refresh succeeds |
| SavedContext.LookupMatchesStorage | contexts/SavedMoviesContext.tsx:59-62 | while synced, the snapshot lookup answers as a storage read would |
| SavedContext.SnapshotDistinct | contexts/SavedMoviesContext.tsx:26-57 | the snapshot never holds an id twice when the store satisfies its invariant |
| SavedContext.ProviderSaveAfterFailedReadDropsList | contexts/SavedMoviesContext.tsx:42-48 | through the provider, a save whose read throws reports success and the refreshed snapshot holds only the new movie |
| SavedContext.SaveMovieGuarded | contexts/SavedMoviesContext.tsx:42-48 | the provider save over the corrected storage save: same result as that save, false with nothing changed when the read throws, nothing changes on false; on true it ends loaded, synced after a refresh that succeeds, with a `[]` snapshot after one that fails |
| SavedContext.RemoveMovieGuarded | contexts/SavedMoviesContext.tsx:51-57 | the provider removal over the corrected storage removal: same result as that removal, false with nothing changed when the read throws, nothing changes on false; on true it ends loaded, synced after a refresh that succeeds, with a `[]` snapshot after one that fails |
| SavedContext.GuardedProviderKeepsList | contexts/SavedMoviesContext.tsx:42-57 | the corrected provider returns false and keeps store and snapshot when the read throws, and agrees with the provider as written whenever the read succeeds |
| Uri.Encode | services/api.ts:41 | every character of the encoding is unreserved, `%` or a hex digit, and the encoding is no shorter than the text |
| Uri.EncodeSingle | services/api.ts:41 | a single unreserved character passes through; any other becomes the `%XX` escapes of its UTF-8 bytes |
| Uri.EncodeAppend | services/api.ts:41 | encoding a concatenation concatenates the encodings, so with `EncodeSingle` every character of mixed text is encoded on its own |
| Uri.EncodeHasNoDelimiters | services/api.ts:41 | the encoded search text holds no `&`, `=`, `?`, `#`, space, `+` or `/` |
| Uri.EncodeUnreserved | services/api.ts:41 | text made only of unreserved characters is left unchanged |
| Uri.DecodeEncode | services/api.ts:41 | percent-decoding the encoding gives back exactly the UTF-8 bytes of the text |
| Uri.Utf8Decodes | services/api.ts:41 | every character's UTF-8 sequence announces its length in its lead byte and decodes back to the character |
| Uri.Utf8StringInjective | services/api.ts:41 | distinct texts have distinct UTF-8 byte sequences |
| Uri.EncodeInjective | services/api.ts:41 | distinct search texts have distinct encodings, so nothing of the text is lost |
| Api.ParseRender | services/api.ts:33-67 | a well-formed request, rendered and then parsed back at `?`, `&` and `=`, is the same request |
| Api.RequestOf | services/api.ts:33-67 | every endpoint's request carries `language=en-US` |
| Api.CatalogShape | services/api.ts:33-67 | the caller's page (default 1) for the paged lists, search and by-genre; page 1 for trending, upcoming and similar; trending's `include_adult=false` and `sort_by=popularity.desc`; search parameters in the order query, include_adult, language, page; by-genre's genre id and sort; the movie id in the detail paths |
| Api.QueryParses | services/api.ts:33-67 | every endpoint's query string parses back to exactly its structured request, whatever the search text |
| Api.ByGenreSingleGenre | services/api.ts:66 | the `with_genres` value reads back as exactly the one genre id and holds no list separator |
| Api.QueryMatchesSource | services/api.ts:33-67 | each structured request renders to the source's query string for that endpoint |
| Api.TrendingQuery | services/api.ts:33 | the trending request renders to the fixed discover query |
| Api.NowPlayingQuery | services/api.ts:34 | the now-playing request renders to its query with the given page |
| Api.UpcomingQuery | services/api.ts:35 | the upcoming request renders to its fixed query with page 1 |
| Api.PopularQuery | services/api.ts:36 | the popular request renders to its query with the given page |
| Api.TopRatedQuery | services/api.ts:37 | the top-rated request renders to its query with the given page |
| Api.SearchQuery | services/api.ts:40-41 | the search request renders to its query with the encoded text, the adult flag and the page |
| Api.GenreListQuery | services/api.ts:45 | the genre-list request renders to its fixed query |
| Api.DetailsQuery | services/api.ts:63 | the details request renders to `/movie/{id}?language=en-US` |
| Api.CreditsQuery | services/api.ts:64 | the credits request renders to `/movie/{id}/credits?language=en-US` |
| Api.VideosQuery | services/api.ts:65 | the videos request renders to `/movie/{id}/videos?language=en-US` |
| Api.ByGenreQuery | services/api.ts:66 | the by-genre request renders to its query with the genre id and the page |
| Api.SimilarQuery | services/api.ts:67 | the similar request renders to its query with the id and page 1 |
| Api.Settle | services/api.ts:21-29 | resolves iff the response arrived ok and its body parsed, with that body; a non-ok status rejects with prefix and status text; a transport error and a body-parse error are each rethrown unchanged |
| Api.FetchFromApi | services/api.ts:14-30 | requests the base URL followed by the query; resolves iff ok, with the parsed body; a non-ok status rejects with `Error fetching data: ` and the status text; transport and body errors are rethrown unchanged |
| Api.GetGenres | services/api.ts:44-60 | requests the genre list URL; resolves iff ok, with the parsed body; a non-ok status rejects with `Error fetching genres: ` and the status text; transport and body errors are rethrown unchanged |
| Api.Call | services/api.ts:14-67 | any endpoint requests the base URL followed by its query and resolves iff ok, with the parsed body; a non-ok status rejects with its wrapper's prefix; other errors are rethrown unchanged |
| Api.GenresAgreesWithFetch | services/api.ts:14-60 | `getGenres` requests the same URL as `fetchFromApi` of the genre-list query and settles the same way, except that its status error carries its own prefix before the same status text |
| Api.StatusTextRecoverable | services/api.ts:21-23 | a non-ok status always rejects with the wrapper's own error, whose message ends with the status text |
| Api.GetImageUrl | services/api.ts:70 | no URL iff the path is empty; otherwise the w500 base followed by the path |
| Api.GetBackdropUrl | services/api.ts:71 | no URL iff the path is empty; otherwise the w1280 base followed by the path |
| Api.ImageUrlsInjective | services/api.ts:70-71 | equal URLs come from equal paths, and both helpers give no URL for the same paths |
| Filters.YearOptions | components/FilterModal.tsx:43-45 | "any year" first, then the current year down to 1990 one by one; length `currentYear - 1988`, or just "any year" before 1990 |
| Filters.YearOffered | components/FilterModal.tsx:44-45 | a year is offered iff it lies between 1990 and the current year |
| Filters.YearOptionsDescending | components/FilterModal.tsx:44-45 | the offered years strictly decrease |
| Filters.Remove | components/FilterModal.tsx:78 | keeps exactly the ids other than the one removed |
| Filters.RemoveAppend | components/FilterModal.tsx:78 | removal works piecewise over concatenation, so the other ids keep their relative order |
| Filters.ToggleGenre | components/FilterModal.tsx:73-81 | flips the membership of that id, keeps every other id's membership, and appends a new id after the unchanged old list |
| Filters.ToggleKeepsDistinct | components/FilterModal.tsx:77-79 | a toggle keeps the genre list free of repeats |
| Filters.ToggleTwiceRestores | components/FilterModal.tsx:77-79 | toggling an absent id twice restores the exact list |
| Filters.ToggleTwiceMovesToEnd | components/FilterModal.tsx:77-79 | toggling a present id twice keeps the same ids but moves that id to the end |
| Filters.ApplyEdit | components/FilterModal.tsx:63-86 | the sort and year setters change only their own field, a toggle only the genres, flipping the id's selection while keeping the other ids in order, and reset yields popular / no year / no genres |
| Filters.HasActiveFilters | components/FilterModal.tsx:94-96 | active iff the filters differ from the reset state |
| Filters.EditsKeepDistinct | components/FilterModal.tsx:63-86 | any run of edits keeps the genre list free of repeats |
| Filters.ApplyLabel | components/FilterModal.tsx:239 | `Apply` alone iff no count is given; otherwise `Apply (n)` whose digits read back as the count |
| Filters.Mount | components/FilterModal.tsx:55 | the working copy starts as the filters given |
| Filters.Sync | components/FilterModal.tsx:57-61 | while shown, the working copy becomes the caller's filters; while hidden, it is kept |
| Filters.Step | components/FilterModal.tsx:57-92 | only apply hands filters out, namely the working copy, and closes the sheet; only a new prop changes the caller's filters; an edit changes only the working copy; showing a hidden sheet resets the working copy to the caller's filters, showing a shown one changes nothing; hiding changes only visibility; a new prop on a shown sheet also resets the working copy to it, while on a hidden one it keeps the working copy |
| Filters.SessionApplies | components/FilterModal.tsx:57-92 | show, edit, apply on a hidden sheet hands back the caller's filters with exactly those edits, whatever a dismissed session left behind; on a shown sheet the edits continue from the working copy |
| Filters.SessionLeavesFilters | components/FilterModal.tsx:88-92 | after a session the sheet is closed and the caller's filters are unchanged |
| NowPlaying.Init | app/movies/now-playing.tsx:25-29 | empty list, loading, not refreshing, page 1, more to come |
| NowPlaying.Complete | app/movies/now-playing.tsx:41-56 | on success a refresh or page 1 replaces the list, a later page is appended with no de-duplication, and `hasMore` becomes page < total pages; on failure list and `hasMore` stay; both flags drop either way |
| NowPlaying.Step | app/movies/now-playing.tsx:35-70 | mount fetches page 1; end-of-list advances one page and fetches it only when there is more and nothing is loading; refresh sets refreshing and page 1 and fetches page 1 in replace mode |
| NowPlaying.PageStaysPositive | app/movies/now-playing.tsx:58-70 | the cursor and every requested page stay at least 1 |
| NowPlaying.LoadingNeverReturns | app/movies/now-playing.tsx:41-70 | once `loading` is false no event sets it again |
| NowPlaying.FirstCompletionEndsLoading | app/movies/now-playing.tsx:50-55 | the first completion, success or failure, ends loading for good |
| NowPlaying.EndReachedNotSerialised | app/movies/now-playing.tsx:64-70 | after start-up, two end-of-list events start two fetches for consecutive pages |
| NowPlaying.ScrollAppends | app/movies/now-playing.tsx:41-70 | scrolling through later pages appends their results in order, repeats included, one page per response |
| NowPlaying.RepeatsAreKept | app/movies/now-playing.tsx:47 | a movie on pages 1 and 2 is listed twice |
| NowPlaying.ListKey | app/movies/now-playing.tsx:123 | the key is the id's digits, which read back as the id, then a dash, then the position's digits, and nothing else |
| NowPlaying.KeyDeterminesMovie | app/movies/now-playing.tsx:123 | equal keys come from the same position and movies with the same id |
| NowPlaying.ListKeysDistinct | app/movies/now-playing.tsx:123 | entries at different positions get different keys even when their ids repeat |
| GenreLabels.KnownNames | components/MovieCard.tsx:19 | the kept names are non-empty and no more than the ids |
| GenreLabels.KnownNamesMembers | components/MovieCard.tsx:19 | a name is kept iff some id in the list has it as its non-empty lookup entry |
| GenreLabels.KnownNamesAppend | components/MovieCard.tsx:19 | the lookup-and-filter works piecewise, so names keep id order |
| GenreLabels.NoKnownNames | components/MovieCard.tsx:19 | no known id means no names |
| GenreLabels.CardNames | components/MovieCard.tsx:19 | at most two names, the first two known ones in id order |
| GenreLabels.CardCaption | components/MovieCard.tsx:19-39 | "Movie" without ids or known names; one name alone; two names joined by " • " |
| GenreLabels.HeroNames | components/MovieHero.tsx:18 | the known names of the first id and then the second id, each present exactly when that id exists and is known; a prefix of all the known names |
| GenreLabels.HeroCaption | components/MovieHero.tsx:18-53 | as the card, over the known names among the first two ids only |
| GenreLabels.HeroNamesPrefixOfCard | components/MovieHero.tsx:18 | the hero's names are a prefix of the card's names |
| GenreLabels.HeroAgreesWithCard | components/MovieHero.tsx:18 | hero and card agree when the first two ids are known or there are at most two ids |
| GenreLabels.HeroIgnoresLaterIds | components/MovieHero.tsx:18 | after two unknown ids, a known third id shows on the card but the hero shows "Movie" |
| GenreLabels.YearText | components/MovieHero.tsx:51 | the release date up to its first `-`: a dash-free prefix that is the whole date or is followed by `-` |
| GenreLabels.YearOfDate | components/MovieHero.tsx:51 | a date `year-rest` with a dash-free year shows exactly that year |
| GenreLabels.ComingSoonText | components/ComingSoonCard.tsx:16 | the first known name, or empty when there is none |
| GenreLabels.ComingSoonCaption | components/ComingSoonCard.tsx:16-31 | the card's first name, or "Drama" |
| GenreLabels.ComingSoonSingleName | components/ComingSoonCard.tsx:16 | the caption is "Drama" or the name of one genre id, never a join |
| GenreLabels.Subtitle | components/ComingSoonCard.tsx:31 | the release date, then " • ", then the caption |
| GenreLabels.Route | components/MovieHero.tsx:20-22 | `/movies/` followed by the id's digits, which read back as the id |
| GenreLabels.RouteIdentifiesMovie | components/MovieCard.tsx:25 | two cards open the same route only for the same movie id |

## Left out

- Real I/O is not modelled: `fetch`, `response.json()`, AsyncStorage, `JSON.parse` and `JSON.stringify`. The network is a parameter, and storage is a map whose values say how the stored text parses (a favourites list, a non-list JSON value, or other text); serialisation of a list is the identity.
- SavedContext.Refresh: when the favourites text parses to a non-list value, the source keeps that value as the snapshot, and the provider's lookup on it then throws; the model's snapshot is `[]` in that case. Saves and removals through the provider still return `false` there, as in the source.
- Concurrency is not modelled. Events are taken one at a time, so overlapping fetches or interleaved read-modify-write in storage are out of scope. The model shows that end-of-list does not wait for an outstanding page; it claims nothing about races.
- `console.error` logging in every `catch` (services/storage.ts, services/api.ts, contexts/SavedMoviesContext.tsx, app/movies/now-playing.tsx) is not modelled; it changes no state.
- `new Date()` is not modelled. The save timestamp and the current year are arguments.
- `toFixed(1)` rating formatting, all rendering, styling, animation and haptic feedback calls are left out.
- Numbers are integers. JavaScript's rendering of fractional or very large numbers (exponent form from 1e21) is not modelled, and `${n}` is decimal digits with a leading `-`.
- `encodeURIComponent` throws on a lone surrogate. Dafny characters are Unicode scalar values, so that input cannot be expressed.
- `poster_path` / `backdrop_path` may be `null` in API data. They are strings here; a null path behaves as the empty string does.
- `Api.RequestOf`: its own contract states only that the language parameter is present. What each endpoint asks for is stated by `Api.CatalogShape` and the per-endpoint query lemmas.
- React's dependency comparison is modelled only through the events: a `Show` on a sheet already shown changes no dependency, so the sync effect does not run; a `NewFilters` event stands for a new `filters` object, so the sync effect runs even when its contents are equal.
- The search screen, its debounce and cancellation, cross-page de-duplication and rating re-sorting are not part of this model.

## Findings

| source | as written | input that shows it | evidently intended | confidence | as-written member | corrected member |
|---|---|---|---|---|---|---|
| services/storage.ts:25 | `saveMovie` reads through `getSavedMovies`, which turns a throwing read or unparsable text into `[]`, then writes `[new, ...[]]` | a store holding saved movies, a read that throws, a write that succeeds: the result is `true` and only the new movie remains | a failed read makes the save fail without writing, as the surrounding `catch` returning `false` suggests | not executed; medium | Storage.SaveAfterFailedReadDropsList | Storage.GuardedKeepsListOnFailedRead |
| services/storage.ts:49 | `removeMovie` reads through `getSavedMovies`, then writes the filtered `[]` | a store holding saved movies, a read that throws, a write that succeeds: the result is `true` and the list is empty | a failed read makes the removal fail without writing | not executed; medium | Storage.RemoveAfterFailedReadDropsList | Storage.GuardedKeepsListOnFailedRead |

The corrected operations are `Storage.SaveMovieGuarded` and
`Storage.RemoveMovieGuarded`. `Storage.GuardedAgreesWhenReadSucceeds` shows
they differ from the code as written only when the read fails. The provider
as written calls the storage operations as written, so the loss reaches the
app (`SavedContext.ProviderSaveAfterFailedReadDropsList`).
`SavedContext.SaveMovieGuarded` and `SavedContext.RemoveMovieGuarded` are the
provider over the corrected operations (`SavedContext.GuardedProviderKeepsList`).
