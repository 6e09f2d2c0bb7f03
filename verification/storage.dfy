/** The favourites store and the haptics preference (services/storage.ts),
    over an abstract key-value store. Values are kept typed: the JSON
    serialisation round trip is taken to be the identity. Every storage call
    may fail; whether it does is a parameter (`readFails`, `writeFails`). */
module Storage {
  import opened Wrappers
  import opened Types
  import opened Strings

  const SAVED_MOVIES_KEY: string := "@saved_movies"
  const HAPTICS_ENABLED_KEY: string := "@haptics_enabled"

  /** A bookmarked movie: the movie plus the ISO timestamp of the save. */
  datatype SavedMovie = SavedMovie(movie: Movie, savedAt: string)

  /** What a key holds, classified as the key's reader sees the stored text:
      the JSON text of a favourites list; text that `JSON.parse` accepts but
      whose value is not a list (`null`, `42`, `{}`, ...); or any other text,
      which under the favourites key is text that `JSON.parse` rejects. */
  datatype Value = MovieList(movies: seq<SavedMovie>) | NonList | Text(text: string)

  type Store = map<string, Value>

  /** Why reading the favourites list gave no list: the storage read threw,
      the stored text does not parse, or it parses to something other than a list. */
  datatype ReadError = ReadFailed | ParseFailed | NotAList

  /** Failure oracle of one operation: whether its read and its write throw. */
  datatype Io = Io(readFails: bool, writeFails: bool)

  /** The outcome of a mutating operation: the returned boolean and the store afterwards. */
  datatype Written = Written(ok: bool, store: Store)

  predicate HasId(list: seq<SavedMovie>, id: int) {
    exists i :: 0 <= i < |list| && list[i].movie.id == id
  }

  predicate NoDuplicateIds(list: seq<SavedMovie>) {
    forall i, j :: 0 <= i < j < |list| ==> list[i].movie.id != list[j].movie.id
  }

  /** The store invariant: the favourites list never holds an id twice. */
  predicate Valid(store: Store) {
    SAVED_MOVIES_KEY in store && store[SAVED_MOVIES_KEY].MovieList? ==>
      NoDuplicateIds(store[SAVED_MOVIES_KEY].movies)
  }

  /** Every key but `key` is bound identically in both stores. */
  ghost predicate SameExcept(a: Store, b: Store, key: string) {
    forall k :: k != key ==> (k in a <==> k in b) && (k in a ==> a[k] == b[k])
  }

  /** `getItem` then `JSON.parse` of the favourites key: the list, or why
      there is none. An absent key reads as the empty list. */
  function ReadSaved(store: Store, readFails: bool): (r: Result<seq<SavedMovie>, ReadError>)
    ensures r.Err? <==> readFails || (SAVED_MOVIES_KEY in store && !store[SAVED_MOVIES_KEY].MovieList?)
    ensures r == Err(NotAList) <==> !readFails && SAVED_MOVIES_KEY in store && store[SAVED_MOVIES_KEY].NonList?
    ensures r.Ok? && SAVED_MOVIES_KEY in store ==> r.value == store[SAVED_MOVIES_KEY].movies
    ensures r.Ok? && SAVED_MOVIES_KEY !in store ==> r.value == []
  {
    if readFails then Err(ReadFailed)
    else if SAVED_MOVIES_KEY !in store then Ok([])
    else match store[SAVED_MOVIES_KEY]
      case MovieList(list) => Ok(list)
      case NonList => Err(NotAList)
      case Text(_) => Err(ParseFailed)
  }

  /** What `getSavedMovies` resolves to: the stored list; `[]` when the key is
      absent or the read or parse throws (both are caught); and, for text
      that parses to a non-list, that non-list value, shown as `None`. */
  function GetSavedMovies(store: Store, readFails: bool): (r: Option<seq<SavedMovie>>)
    ensures r.None? <==> ReadSaved(store, readFails) == Err(NotAList)
    ensures ReadSaved(store, readFails).Ok? ==> r == Some(ReadSaved(store, readFails).value)
    ensures ReadSaved(store, readFails).Err? && r.Some? ==> r.value == []
    ensures Valid(store) && r.Some? ==> NoDuplicateIds(r.value)
  {
    match ReadSaved(store, readFails)
    case Ok(list) => Some(list)
    case Err(NotAList) => None
    case Err(_) => Some([])
  }

  /** The favourites list with every entry of `id` filtered out. */
  function Without(list: seq<SavedMovie>, id: int): (r: seq<SavedMovie>)
    ensures |r| <= |list|
    ensures !HasId(r, id)
    ensures forall e {:trigger e in r} :: e in r <==> e in list && e.movie.id != id
    decreases |list|
  {
    if |list| == 0 then []
    else if list[0].movie.id == id then Without(list[1..], id)
    else [list[0]] + Without(list[1..], id)
  }

  lemma {:induction false} WithoutAbsent(list: seq<SavedMovie>, id: int)
    requires !HasId(list, id)
    ensures Without(list, id) == list
    decreases |list|
  {
    if |list| > 0 {
      assert list[0].movie.id != id;
      WithoutAbsent(list[1..], id);
      assert list == [list[0]] + list[1..];
    }
  }

  /** Filtering distributes over concatenation, so the kept entries stay in
      their original relative order. */
  lemma {:induction false} WithoutAppend(a: seq<SavedMovie>, b: seq<SavedMovie>, id: int)
    ensures Without(a + b, id) == Without(a, id) + Without(b, id)
    decreases |a|
  {
    if |a| > 0 {
      assert (a + b)[0] == a[0];
      assert (a + b)[1..] == a[1..] + b;
      WithoutAppend(a[1..], b, id);
      var tail := Without(a[1..], id) + Without(b, id);
      if a[0].movie.id != id {
        assert Without(a + b, id) == [a[0]] + tail;
        assert Without(a, id) == [a[0]] + Without(a[1..], id);
      } else {
        assert Without(a + b, id) == tail;
      }
    } else {
      assert a + b == b;
    }
  }

  lemma {:induction false} WithoutKeepsDistinct(list: seq<SavedMovie>, id: int)
    ensures NoDuplicateIds(list) ==> NoDuplicateIds(Without(list, id))
    decreases |list|
  {
    if |list| > 0 && NoDuplicateIds(list) {
      WithoutKeepsDistinct(list[1..], id);
      var rest := Without(list[1..], id);
      if list[0].movie.id != id {
        forall k | 0 <= k < |rest|
          ensures rest[k].movie.id != list[0].movie.id
        {
          assert rest[k] in rest;
          assert rest[k] in list[1..];
        }
      }
    }
  }

  lemma PrependKeepsDistinct(e: SavedMovie, list: seq<SavedMovie>)
    requires !HasId(list, e.movie.id)
    ensures NoDuplicateIds(list) ==> NoDuplicateIds([e] + list)
  {
    if !NoDuplicateIds(list) { return; }
    var l := [e] + list;
    forall i, j | 0 <= i < j < |l|
      ensures l[i].movie.id != l[j].movie.id
    {
      if i > 0 {
        assert l[i] == list[i - 1] && l[j] == list[j - 1];
      } else {
        assert l[j] == list[j - 1];
      }
    }
  }

  /** `saveMovie` as written: a read failure is swallowed by `getSavedMovies`,
      so the duplicate check and the rewrite then work on an empty list; a
      non-list value makes `.some` throw, which the `catch` turns into `false`. */
  function SaveMovie(store: Store, movie: Movie, savedAt: string, io: Io): (r: Written)
    ensures var before := GetSavedMovies(store, io.readFails);
      && (r.ok <==> before.Some? && !HasId(before.value, movie.id) && !io.writeFails)
      && (!r.ok ==> r.store == store)
      && (r.ok ==> GetSavedMovies(r.store, false) == Some([SavedMovie(movie, savedAt)] + before.value))
    ensures SameExcept(store, r.store, SAVED_MOVIES_KEY)
    ensures Valid(store) ==> Valid(r.store)
  {
    match GetSavedMovies(store, io.readFails)
    case None => Written(false, store)
    case Some(before) =>
      if HasId(before, movie.id) then Written(false, store)
      else if io.writeFails then Written(false, store)
      else
        var after := [SavedMovie(movie, savedAt)] + before;
        PrependKeepsDistinct(SavedMovie(movie, savedAt), before);
        Written(true, store[SAVED_MOVIES_KEY := MovieList(after)])
  }

  /** `removeMovie` as written: filter then rewrite; the result is `true`
      whenever the list was obtained and the write succeeds, whether or not
      `id` was stored. A non-list value makes `.filter` throw: `false`. */
  function RemoveMovie(store: Store, id: int, io: Io): (r: Written)
    ensures var before := GetSavedMovies(store, io.readFails);
      && (r.ok <==> before.Some? && !io.writeFails)
      && (!r.ok ==> r.store == store)
      && (r.ok ==> GetSavedMovies(r.store, false) == Some(Without(before.value, id)))
    ensures SameExcept(store, r.store, SAVED_MOVIES_KEY)
    ensures Valid(store) ==> Valid(r.store)
  {
    match GetSavedMovies(store, io.readFails)
    case None => Written(false, store)
    case Some(before) =>
      if io.writeFails then Written(false, store)
      else
        WithoutKeepsDistinct(before, id);
        Written(true, store[SAVED_MOVIES_KEY := MovieList(Without(before, id))])
  }

  /** `saveMovie` with a failed read reported instead of swallowed: nothing
      is written unless the current list was actually read. */
  function SaveMovieGuarded(store: Store, movie: Movie, savedAt: string, io: Io): (r: Written)
    ensures r.ok <==> ReadSaved(store, io.readFails).Ok?
                      && !HasId(ReadSaved(store, io.readFails).value, movie.id)
                      && !io.writeFails
    ensures !r.ok ==> r.store == store
    ensures r.ok ==> GetSavedMovies(r.store, false) ==
                     Some([SavedMovie(movie, savedAt)] + ReadSaved(store, io.readFails).value)
    ensures SameExcept(store, r.store, SAVED_MOVIES_KEY)
    ensures Valid(store) ==> Valid(r.store)
  {
    match ReadSaved(store, io.readFails)
    case Err(_) => Written(false, store)
    case Ok(before) =>
      if HasId(before, movie.id) || io.writeFails then Written(false, store)
      else
        PrependKeepsDistinct(SavedMovie(movie, savedAt), before);
        Written(true, store[SAVED_MOVIES_KEY := MovieList([SavedMovie(movie, savedAt)] + before)])
  }

  /** `removeMovie` with a failed read reported instead of swallowed. */
  function RemoveMovieGuarded(store: Store, id: int, io: Io): (r: Written)
    ensures r.ok <==> ReadSaved(store, io.readFails).Ok? && !io.writeFails
    ensures !r.ok ==> r.store == store
    ensures r.ok ==> GetSavedMovies(r.store, false) == Some(Without(ReadSaved(store, io.readFails).value, id))
    ensures SameExcept(store, r.store, SAVED_MOVIES_KEY)
    ensures Valid(store) ==> Valid(r.store)
  {
    match ReadSaved(store, io.readFails)
    case Err(_) => Written(false, store)
    case Ok(before) =>
      if io.writeFails then Written(false, store)
      else
        WithoutKeepsDistinct(before, id);
        Written(true, store[SAVED_MOVIES_KEY := MovieList(Without(before, id))])
  }

  /** `isMovieSaved`: whether the freshly read list holds `id`; a failed read
      reads as "not saved", and so does a non-list value, whose `.some` throws
      into the `catch`. */
  function IsMovieSaved(store: Store, id: int, readFails: bool): (saved: bool)
    ensures readFails ==> !saved
    ensures saved <==> GetSavedMovies(store, readFails).Some? &&
                       exists i :: 0 <= i < |GetSavedMovies(store, readFails).value| &&
                                   GetSavedMovies(store, readFails).value[i].movie.id == id
  {
    match GetSavedMovies(store, readFails)
    case None => false
    case Some(list) => HasId(list, id)
  }

  /** `clearSavedMovies`: drop the favourites key; a failing removal is swallowed. */
  function ClearSavedMovies(store: Store, writeFails: bool): (r: Store)
    ensures writeFails ==> r == store
    ensures !writeFails ==> SAVED_MOVIES_KEY !in r
    ensures SameExcept(store, r, SAVED_MOVIES_KEY)
    ensures Valid(store) ==> Valid(r)
  {
    if writeFails then store else store - {SAVED_MOVIES_KEY}
  }

  /** `getHapticsEnabled`: an absent value, or a failed read, means enabled;
      otherwise enabled exactly when the stored text is `"true"`. */
  function GetHapticsEnabled(store: Store, readFails: bool): (enabled: bool)
    ensures readFails || HAPTICS_ENABLED_KEY !in store ==> enabled
    ensures !readFails && HAPTICS_ENABLED_KEY in store ==>
      (enabled <==> store[HAPTICS_ENABLED_KEY] == Text("true"))
  {
    if readFails then true
    else if HAPTICS_ENABLED_KEY !in store then true
    else match store[HAPTICS_ENABLED_KEY]
      case Text(t) => t == "true"
      case _ => false
  }

  /** `setHapticsEnabled`: store `enabled.toString()`; a failing write is swallowed. */
  function SetHapticsEnabled(store: Store, enabled: bool, writeFails: bool): (r: Store)
    ensures writeFails ==> r == store
    ensures !writeFails ==>
      HAPTICS_ENABLED_KEY in r && r[HAPTICS_ENABLED_KEY] == Text(if enabled then "true" else "false")
    ensures SameExcept(store, r, HAPTICS_ENABLED_KEY)
  {
    if writeFails then store
    else store[HAPTICS_ENABLED_KEY := Text(BoolToString(enabled))]
  }

  // ---------------------------------------------------------------------
  // Properties relating several operations
  // ---------------------------------------------------------------------

  /** A second save of the same id, after a successful first one, reports
      `false` and writes nothing, provided its read succeeds. */
  lemma SaveIdempotent(store: Store, movie: Movie, t1: string, t2: string, io1: Io, io2: Io)
    requires SaveMovie(store, movie, t1, io1).ok
    requires !io2.readFails
    ensures var s1 := SaveMovie(store, movie, t1, io1).store;
      && !SaveMovie(s1, movie, t2, io2).ok
      && SaveMovie(s1, movie, t2, io2).store == s1
  {
    var s1 := SaveMovie(store, movie, t1, io1).store;
    var list := GetSavedMovies(s1, io2.readFails).value;
    assert list[0].movie.id == movie.id;
  }

  /** After a successful save, a successful read sees the id. */
  lemma SavedAfterSave(store: Store, movie: Movie, t: string, io: Io)
    requires SaveMovie(store, movie, t, io).ok
    ensures IsMovieSaved(SaveMovie(store, movie, t, io).store, movie.id, false)
  {
    var list := GetSavedMovies(SaveMovie(store, movie, t, io).store, false).value;
    assert list[0].movie.id == movie.id;
  }

  /** After a successful removal, no read sees the id. */
  lemma NotSavedAfterRemove(store: Store, id: int, io: Io, readFails: bool)
    requires RemoveMovie(store, id, io).ok
    ensures !IsMovieSaved(RemoveMovie(store, id, io).store, id, readFails)
  {
  }

  /** Removing an id that is not in the stored list rewrites the same list. */
  lemma RemoveAbsentKeepsList(store: Store, list: seq<SavedMovie>, id: int, io: Io)
    requires !io.readFails && !io.writeFails
    requires GetSavedMovies(store, false) == Some(list) && !HasId(list, id)
    ensures RemoveMovie(store, id, io).ok
    ensures GetSavedMovies(RemoveMovie(store, id, io).store, false) == Some(list)
  {
    WithoutAbsent(list, id);
  }

  /** A value that parses to something other than a list blocks every
      favourites operation: save and remove return `false` and write nothing,
      and the lookup says "not saved". */
  lemma NonListBlocksWrites(store: Store, movie: Movie, t: string, id: int, io: Io)
    requires SAVED_MOVIES_KEY in store && store[SAVED_MOVIES_KEY].NonList?
    requires !io.readFails
    ensures SaveMovie(store, movie, t, io) == Written(false, store)
    ensures RemoveMovie(store, id, io) == Written(false, store)
    ensures !IsMovieSaved(store, id, false)
  {
  }

  /** Clearing and then reading yields the empty list. */
  lemma ClearThenGet(store: Store, readFails: bool)
    ensures GetSavedMovies(ClearSavedMovies(store, false), readFails) == Some([])
  {
  }

  /** Setting the haptics preference and reading it back returns the value set,
      and leaves the favourites untouched. */
  lemma HapticsRoundTrip(store: Store, enabled: bool)
    ensures GetHapticsEnabled(SetHapticsEnabled(store, enabled, false), false) == enabled
    ensures GetSavedMovies(SetHapticsEnabled(store, enabled, false), false) == GetSavedMovies(store, false)
  {
  }

  /** The as-written save, after a read that throws or text that does not
      parse, replaces the whole list by the one new entry even when other
      movies were stored. */
  lemma SaveAfterFailedReadDropsList(store: Store, movie: Movie, t: string, readFails: bool)
    requires readFails || (SAVED_MOVIES_KEY in store && store[SAVED_MOVIES_KEY].Text?)
    ensures var r := SaveMovie(store, movie, t, Io(readFails, false));
      r.ok && GetSavedMovies(r.store, false) == Some([SavedMovie(movie, t)])
  {
    assert [SavedMovie(movie, t)] + [] == [SavedMovie(movie, t)];
  }

  /** The as-written remove, after a read that throws or text that does not
      parse, empties the whole list and reports success. */
  lemma RemoveAfterFailedReadDropsList(store: Store, id: int, readFails: bool)
    requires readFails || (SAVED_MOVIES_KEY in store && store[SAVED_MOVIES_KEY].Text?)
    ensures var r := RemoveMovie(store, id, Io(readFails, false));
      r.ok && GetSavedMovies(r.store, false) == Some([])
  {
  }

  /** With the guarded save and remove, a failed read never loses a stored entry. */
  lemma GuardedKeepsListOnFailedRead(store: Store, movie: Movie, t: string, id: int, io: Io)
    requires ReadSaved(store, io.readFails).Err?
    ensures SaveMovieGuarded(store, movie, t, io) == Written(false, store)
    ensures RemoveMovieGuarded(store, id, io) == Written(false, store)
  {
  }

  /** When the read succeeds, the guarded and the as-written operations agree. */
  lemma GuardedAgreesWhenReadSucceeds(store: Store, movie: Movie, t: string, id: int, io: Io)
    requires ReadSaved(store, io.readFails).Ok?
    ensures SaveMovieGuarded(store, movie, t, io) == SaveMovie(store, movie, t, io)
    ensures RemoveMovieGuarded(store, id, io) == RemoveMovie(store, id, io)
  {
  }
}
