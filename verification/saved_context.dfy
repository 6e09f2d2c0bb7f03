/** The favourites provider (contexts/SavedMoviesContext.tsx): an in-memory
    snapshot of the stored list that is re-read after every successful write.
    Events are taken one at a time; each storage call's failure is a parameter. */
module SavedContext {
  import opened Wrappers
  import opened Types
  import opened Storage

  /** The provider's state: the snapshot and the loading flag. */
  datatype Provider = Provider(savedMovies: seq<SavedMovie>, isLoading: bool)

  /** The provider together with the store it mirrors. */
  datatype World = World(store: Store, ui: Provider)

  /** The reply of `saveMovie` / `removeMovie`: the returned boolean and the world afterwards. */
  datatype Reply = Reply(ok: bool, world: World)

  const HOOK_ERROR: string := "useSavedMovies must be used within a SavedMoviesProvider"

  /** The snapshot is what a successful read of the store returns. */
  predicate Synced(w: World) {
    GetSavedMovies(w.store, false) == Some(w.ui.savedMovies)
  }

  /** The state before the mount effect runs: nothing loaded yet. */
  function Initial(store: Store): (w: World)
    ensures w.store == store
    ensures w.ui.isLoading && |w.ui.savedMovies| == 0
  {
    World(store, Provider([], true))
  }

  /** `refreshSavedMovies`: take the stored list as the new snapshot and clear
      `isLoading`. A failed read is swallowed by `getSavedMovies`, so the
      snapshot then becomes empty. */
  function Refresh(w: World, readFails: bool): (w': World)
    ensures w'.store == w.store && !w'.ui.isLoading
    ensures GetSavedMovies(w.store, readFails).Some? ==>
      w'.ui.savedMovies == GetSavedMovies(w.store, readFails).value
    ensures !readFails && GetSavedMovies(w.store, false).Some? ==> Synced(w')
    ensures readFails ==> w'.ui.savedMovies == []
  {
    World(w.store, Provider(GetSavedMovies(w.store, readFails).GetOr([]), false))
  }

  /** The mount effect: one refresh. */
  function Mount(store: Store, readFails: bool): (w: World)
    ensures w.store == store && !w.ui.isLoading
    ensures !readFails && GetSavedMovies(store, false).Some? ==> Synced(w)
  {
    Refresh(Initial(store), readFails)
  }

  /** `isMovieSaved`: a lookup in the snapshot only; it takes no store, so it
      performs no read. */
  function IsMovieSaved(p: Provider, id: int): (saved: bool)
    ensures saved <==> exists i :: 0 <= i < |p.savedMovies| && p.savedMovies[i].movie.id == id
  {
    HasId(p.savedMovies, id)
  }

  /** `saveMovie`: the result of the storage `saveMovie` is returned unchanged,
      and only a `true` result is followed by a refresh. */
  function SaveMovie(w: World, movie: Movie, savedAt: string, io: Io, refreshFails: bool): (r: Reply)
    ensures r.ok == Storage.SaveMovie(w.store, movie, savedAt, io).ok
    ensures !r.ok ==> r.world == w
    ensures r.ok ==> r.world.store == Storage.SaveMovie(w.store, movie, savedAt, io).store
    ensures r.ok ==> !r.world.ui.isLoading
    ensures r.ok && refreshFails ==> r.world.ui.savedMovies == []
    ensures r.ok && !refreshFails ==> Synced(r.world)
  {
    var stored := Storage.SaveMovie(w.store, movie, savedAt, io);
    if stored.ok then Reply(true, Refresh(World(stored.store, w.ui), refreshFails))
    else Reply(false, w)
  }

  /** `removeMovie`: as `saveMovie`, over the storage `removeMovie`. */
  function RemoveMovie(w: World, id: int, io: Io, refreshFails: bool): (r: Reply)
    ensures r.ok == Storage.RemoveMovie(w.store, id, io).ok
    ensures !r.ok ==> r.world == w
    ensures r.ok ==> r.world.store == Storage.RemoveMovie(w.store, id, io).store
    ensures r.ok ==> !r.world.ui.isLoading
    ensures r.ok && refreshFails ==> r.world.ui.savedMovies == []
    ensures r.ok && !refreshFails ==> Synced(r.world)
  {
    var stored := Storage.RemoveMovie(w.store, id, io);
    if stored.ok then Reply(true, Refresh(World(stored.store, w.ui), refreshFails))
    else Reply(false, w)
  }

  /** The provider's save over the corrected storage save, which reports a
      failed read instead of overwriting the list. */
  function SaveMovieGuarded(w: World, movie: Movie, savedAt: string, io: Io, refreshFails: bool): (r: Reply)
    ensures r.ok == Storage.SaveMovieGuarded(w.store, movie, savedAt, io).ok
    ensures io.readFails ==> !r.ok && r.world == w
    ensures !r.ok ==> r.world == w
    ensures r.ok ==> r.world.store == Storage.SaveMovieGuarded(w.store, movie, savedAt, io).store
    ensures r.ok ==> !r.world.ui.isLoading
    ensures r.ok && refreshFails ==> r.world.ui.savedMovies == []
    ensures r.ok && !refreshFails ==> Synced(r.world)
  {
    var stored := Storage.SaveMovieGuarded(w.store, movie, savedAt, io);
    if stored.ok then Reply(true, Refresh(World(stored.store, w.ui), refreshFails))
    else Reply(false, w)
  }

  /** The provider's removal over the corrected storage removal. */
  function RemoveMovieGuarded(w: World, id: int, io: Io, refreshFails: bool): (r: Reply)
    ensures r.ok == Storage.RemoveMovieGuarded(w.store, id, io).ok
    ensures io.readFails ==> !r.ok && r.world == w
    ensures !r.ok ==> r.world == w
    ensures r.ok ==> r.world.store == Storage.RemoveMovieGuarded(w.store, id, io).store
    ensures r.ok ==> !r.world.ui.isLoading
    ensures r.ok && refreshFails ==> r.world.ui.savedMovies == []
    ensures r.ok && !refreshFails ==> Synced(r.world)
  {
    var stored := Storage.RemoveMovieGuarded(w.store, id, io);
    if stored.ok then Reply(true, Refresh(World(stored.store, w.ui), refreshFails))
    else Reply(false, w)
  }

  /** `useSavedMovies`: the provider's value, or the error thrown outside a provider. */
  function UseSavedMovies(context: Option<Provider>): (r: Result<Provider, string>)
    ensures context.None? ==> r == Err(HOOK_ERROR)
    ensures context.Some? ==> r == Ok(context.value)
  {
    match context
    case None => Err(HOOK_ERROR)
    case Some(p) => Ok(p)
  }

  // ---------------------------------------------------------------------
  // Properties relating several operations
  // ---------------------------------------------------------------------

  /** After a successful save whose refresh read succeeds, the snapshot lookup
      reports the movie as saved. */
  lemma SavedAfterSave(w: World, movie: Movie, t: string, io: Io)
    requires SaveMovie(w, movie, t, io, false).ok
    ensures IsMovieSaved(SaveMovie(w, movie, t, io, false).world.ui, movie.id)
  {
    var list := SaveMovie(w, movie, t, io, false).world.ui.savedMovies;
    assert list[0].movie.id == movie.id;
  }

  /** After a successful removal whose refresh read succeeds, the snapshot
      lookup reports the movie as not saved. */
  lemma NotSavedAfterRemove(w: World, id: int, io: Io)
    requires RemoveMovie(w, id, io, false).ok
    ensures !IsMovieSaved(RemoveMovie(w, id, io, false).world.ui, id)
  {
  }

  /** Saving an id already in a synced snapshot, with a read that succeeds,
      leaves both snapshot and store untouched. */
  lemma DuplicateSaveKeepsSnapshot(w: World, movie: Movie, t: string, io: Io, refreshFails: bool)
    requires Synced(w)
    requires !io.readFails
    requires IsMovieSaved(w.ui, movie.id)
    ensures !SaveMovie(w, movie, t, io, refreshFails).ok
    ensures SaveMovie(w, movie, t, io, refreshFails).world == w
  {
  }

  /** The snapshot and the store stay in agreement across any save or remove
      whose refresh read succeeds, successful or not. */
  lemma SyncedPreserved(w: World, movie: Movie, t: string, id: int, io: Io)
    requires Synced(w)
    ensures Synced(SaveMovie(w, movie, t, io, false).world)
    ensures Synced(RemoveMovie(w, id, io, false).world)
  {
  }

  /** While synced, the snapshot lookup answers exactly as a fresh storage read would. */
  lemma LookupMatchesStorage(w: World, id: int)
    requires Synced(w)
    ensures IsMovieSaved(w.ui, id) == Storage.IsMovieSaved(w.store, id, false)
  {
  }

  /** The favourites invariant carries over from the store to the snapshot. */
  lemma SnapshotDistinct(w: World, movie: Movie, t: string, id: int, io: Io, refreshFails: bool)
    requires Valid(w.store) && NoDuplicateIds(w.ui.savedMovies)
    ensures NoDuplicateIds(SaveMovie(w, movie, t, io, refreshFails).world.ui.savedMovies)
    ensures NoDuplicateIds(RemoveMovie(w, id, io, refreshFails).world.ui.savedMovies)
  {
  }

  /** The data loss of the storage save reaches the app through the provider:
      with movies saved and in the snapshot, a save whose read throws reports
      success, and the refreshed snapshot holds only the new movie. */
  lemma ProviderSaveAfterFailedReadDropsList(w: World, movie: Movie, t: string)
    requires Synced(w)
    ensures var r := SaveMovie(w, movie, t, Io(true, false), false);
      r.ok && r.world.ui.savedMovies == [SavedMovie(movie, t)]
  {
  }

  /** The corrected provider keeps store and snapshot when the read throws,
      and behaves as the provider as written whenever the read succeeds. */
  lemma GuardedProviderKeepsList(w: World, movie: Movie, t: string, id: int, io: Io, refreshFails: bool)
    ensures io.readFails ==> SaveMovieGuarded(w, movie, t, io, refreshFails) == Reply(false, w)
    ensures io.readFails ==> RemoveMovieGuarded(w, id, io, refreshFails) == Reply(false, w)
    ensures ReadSaved(w.store, io.readFails).Ok? ==>
      SaveMovieGuarded(w, movie, t, io, refreshFails) == SaveMovie(w, movie, t, io, refreshFails) &&
      RemoveMovieGuarded(w, id, io, refreshFails) == RemoveMovie(w, id, io, refreshFails)
  {
  }
}
