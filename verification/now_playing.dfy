/** The now-playing screen (app/movies/now-playing.tsx) as a state machine:
    the list, the two busy flags, the page cursor and `hasMore`, driven by
    mount, end-of-list, pull-to-refresh, and the completion of each fetch.
    Each transition returns the new state and the fetch it starts, if any;
    the fetch itself is outside the model, and its outcome arrives later as
    a completion event. Events are taken one at a time, in the order given. */
module NowPlaying {
  import opened Wrappers
  import opened Strings
  import opened Types

  datatype State = State(movies: seq<Movie>, loading: bool, refreshing: bool, page: int, hasMore: bool)

  /** A call of `fetchMovies(pageNum, shouldRefresh)`. */
  datatype Fetch = Fetch(page: int, refresh: bool)

  datatype Event =
    | Mount
    | EndReached
    | Refresh
    | Succeeded(fetch: Fetch, response: MovieResponse)
    | Failed(fetch: Fetch)

  /** The initial state: nothing listed, loading, page 1, more to come. */
  function Init(): (s: State)
    ensures s.movies == [] && s.loading && !s.refreshing && s.page == 1 && s.hasMore
  {
    State([], true, false, 1, true)
  }

  /** The completion of `fetchMovies`: on success, a refresh or a first page
      replaces the list and any later page is appended as is; `hasMore`
      becomes whether the fetched page is before the last. On failure the list
      and `hasMore` stay. Either way both busy flags drop. */
  function Complete(s: State, f: Fetch, outcome: Option<MovieResponse>): (r: State)
    ensures !r.loading && !r.refreshing && r.page == s.page
    ensures outcome.None? ==> r.movies == s.movies && r.hasMore == s.hasMore
    ensures outcome.Some? && (f.refresh || f.page == 1) ==> r.movies == outcome.value.results
    ensures outcome.Some? && !f.refresh && f.page != 1 ==> r.movies == s.movies + outcome.value.results
    ensures outcome.Some? ==> (r.hasMore <==> f.page < outcome.value.total_pages)
  {
    match outcome
    case None => s.(loading := false, refreshing := false)
    case Some(data) =>
      var movies := if f.refresh || f.page == 1 then data.results else s.movies + data.results;
      State(movies, false, false, s.page, f.page < data.total_pages)
  }

  /** One event: the new state and the fetch started, if any. */
  function Step(s: State, ev: Event): (r: (State, Option<Fetch>))
    ensures ev.Mount? ==> r == (s, Some(Fetch(1, false)))
    ensures ev.EndReached? ==>
      if s.hasMore && !s.loading then r == (s.(page := s.page + 1), Some(Fetch(s.page + 1, false)))
      else r == (s, None)
    ensures ev.Refresh? ==> r.0 == s.(refreshing := true, page := 1) && r.1 == Some(Fetch(1, true))
    ensures ev.Succeeded? ==> r.0 == Complete(s, ev.fetch, Some(ev.response)) && r.1.None?
    ensures ev.Failed? ==> r.0 == Complete(s, ev.fetch, None) && r.1.None?
  {
    match ev
    case Mount => (s, Some(Fetch(1, false)))
    case EndReached =>
      if s.hasMore && !s.loading then (s.(page := s.page + 1), Some(Fetch(s.page + 1, false)))
      else (s, None)
    case Refresh => (s.(refreshing := true, page := 1), Some(Fetch(1, true)))
    case Succeeded(f, data) => (Complete(s, f, Some(data)), None)
    case Failed(f) => (Complete(s, f, None), None)
  }

  function Run(s: State, evs: seq<Event>): State
    decreases |evs|
  {
    if |evs| == 0 then s else Run(Step(s, evs[0]).0, evs[1..])
  }

  /** The page cursor never drops below 1, and every fetch asks for a page
      at least 1. */
  lemma {:induction false} PageStaysPositive(s: State, evs: seq<Event>)
    requires s.page >= 1
    ensures Run(s, evs).page >= 1
    ensures forall k :: 0 <= k < |evs| ==> var f := Step(Run(s, evs[..k]), evs[k]).1; f.Some? ==> f.value.page >= 1
    decreases |evs|
  {
    if |evs| > 0 {
      var s1 := Step(s, evs[0]).0;
      PageStaysPositive(s1, evs[1..]);
      forall k | 0 <= k < |evs| ensures var f := Step(Run(s, evs[..k]), evs[k]).1; f.Some? ==> f.value.page >= 1 {
        if k > 0 {
          assert evs[..k][1..] == evs[1..][..k - 1];
          assert evs[k] == evs[1..][k - 1];
          PageStaysPositive(s1, evs[1..][..k - 1]);
        }
      }
    }
  }

  /** No event sets `loading` again: once a fetch has completed, the skeleton
      is never shown again, and end-of-list is gated only by `hasMore`. */
  lemma {:induction false} LoadingNeverReturns(s: State, evs: seq<Event>)
    requires !s.loading
    ensures !Run(s, evs).loading
    decreases |evs|
  {
    if |evs| > 0 {
      LoadingNeverReturns(Step(s, evs[0]).0, evs[1..]);
    }
  }

  /** The first completion, success or failure, ends loading for good. */
  lemma FirstCompletionEndsLoading(f: Fetch, outcome: Option<MovieResponse>, evs: seq<Event>)
    ensures !Run(Complete(Init(), f, outcome), evs).loading
  {
    LoadingNeverReturns(Complete(Init(), f, outcome), evs);
  }

  /** While a fetch is outstanding after start-up, end-of-list requests are
      not held back: two end-of-list events in a row start two fetches for
      consecutive pages. */
  lemma EndReachedNotSerialised(s: State)
    requires s.hasMore && !s.loading
    ensures var (s1, f1) := Step(s, EndReached);
      var (s2, f2) := Step(s1, EndReached);
      f1 == Some(Fetch(s.page + 1, false)) && f2 == Some(Fetch(s.page + 2, false)) && s2.page == s.page + 2
  {
  }

  function Flatten(rs: seq<MovieResponse>): (movies: seq<Movie>)
    decreases |rs|
  {
    if |rs| == 0 then [] else rs[0].results + Flatten(rs[1..])
  }

  /** Scrolling: reach the end of the list, and if a fetch starts, complete it
      with the next response; stop at the first end-of-list that starts nothing. */
  function Scroll(s: State, rs: seq<MovieResponse>): State
    decreases |rs|
  {
    if |rs| == 0 then s
    else
      var (s1, f) := Step(s, EndReached);
      if f.None? then s else Scroll(Step(s1, Succeeded(f.value, rs[0])).0, rs[1..])
  }

  /** Each response but the last promises a further page. */
  predicate PromisesMore(start: int, rs: seq<MovieResponse>) {
    forall i :: 0 <= i < |rs| - 1 ==> start + i + 1 < rs[i].total_pages
  }

  /** Scrolling through pages after the first appends their results in order,
      repeats included, and advances the cursor one page per response. */
  lemma {:induction false} ScrollAppends(s: State, rs: seq<MovieResponse>)
    requires s.page >= 1 && !s.loading
    requires |rs| > 0 ==> s.hasMore
    requires PromisesMore(s.page, rs)
    ensures Scroll(s, rs).movies == s.movies + Flatten(rs)
    ensures Scroll(s, rs).page == s.page + |rs|
    decreases |rs|
  {
    if |rs| > 0 {
      var s1 := s.(page := s.page + 1);
      var s2 := Complete(s1, Fetch(s.page + 1, false), Some(rs[0]));
      assert Scroll(s, rs) == Scroll(s2, rs[1..]);
      assert PromisesMore(s2.page, rs[1..]) by {
        forall i | 0 <= i < |rs[1..]| - 1 ensures s2.page + i + 1 < rs[1..][i].total_pages {
          assert rs[1..][i] == rs[i + 1];
        }
      }
      if |rs| > 1 {
        assert s2.hasMore;
      }
      ScrollAppends(s2, rs[1..]);
      assert s.movies + Flatten(rs) == s.movies + rs[0].results + Flatten(rs[1..]);
    }
  }

  /** The list does not de-duplicate: a movie on both page 1 and page 2 is
      listed twice. */
  lemma RepeatsAreKept(m: Movie, first: MovieResponse, second: MovieResponse)
    requires first.results == [m] && first.total_pages == 2 && second.results == [m]
    ensures var s := Run(Init(), [Mount, Succeeded(Fetch(1, false), first)]);
      var (s1, f) := Step(s, EndReached);
      f == Some(Fetch(2, false)) &&
      Step(s1, Succeeded(f.value, second)).0.movies == [m, m]
  {
    var done := Succeeded(Fetch(1, false), first);
    var evs := [Mount, done];
    assert evs[1..] == [done] && [done][1..] == [];
    assert Run(Init(), evs) == Run(Init(), [done]);
    assert Run(Init(), [done]) == Run(Complete(Init(), Fetch(1, false), Some(first)), []);
  }

  // ---------------------------------------------------------------------
  // List keys
  // ---------------------------------------------------------------------

  /** The key of the entry at `index`: the movie id, a dash, the position. */
  function ListKey(m: Movie, index: nat): (key: string)
    ensures |key| == |IntToString(m.id)| + 1 + |NatToString(index)|
    ensures key[..|IntToString(m.id)|] == IntToString(m.id)
    ensures ParseInt(key[..|IntToString(m.id)|]) == m.id
    ensures key[|key| - |NatToString(index)| - 1] == '-'
    ensures key[|key| - |NatToString(index)|..] == NatToString(index)
  {
    ParseIntToString(m.id);
    var key := IntToString(m.id) + "-" + NatToString(index);
    assert key[..|IntToString(m.id)|] == IntToString(m.id);
    key
  }

  function ListKeys(movies: seq<Movie>): (keys: seq<string>)
    ensures |keys| == |movies|
    ensures forall i :: 0 <= i < |movies| ==> keys[i] == ListKey(movies[i], i)
  {
    seq(|movies|, i requires 0 <= i < |movies| => ListKey(movies[i], i))
  }

  /** Entries at different positions get different keys, even for the same
      movie: the digits after the last dash are the position. */
  lemma ListKeysDistinct(movies: seq<Movie>, i: nat, j: nat)
    requires i < |movies| && j < |movies| && i != j
    ensures ListKeys(movies)[i] != ListKeys(movies)[j]
  {
    if ListKeys(movies)[i] == ListKeys(movies)[j] {
      KeyDeterminesIndex(movies[i], i, movies[j], j);
    }
  }

  /** A key names its movie: equal keys come from movies with equal ids. */
  lemma KeyDeterminesMovie(a: Movie, i: nat, b: Movie, j: nat)
    requires ListKey(a, i) == ListKey(b, j)
    ensures a.id == b.id && i == j
  {
    KeyDeterminesIndex(a, i, b, j);
    var key := ListKey(a, i);
    assert |IntToString(a.id)| == |IntToString(b.id)|;
    assert ParseInt(key[..|IntToString(a.id)|]) == a.id;
    assert ParseInt(key[..|IntToString(b.id)|]) == b.id;
  }

  lemma KeyDeterminesIndex(a: Movie, i: nat, b: Movie, j: nat)
    requires ListKey(a, i) == ListKey(b, j)
    ensures i == j
  {
    var key := ListKey(a, i);
    var di, dj := NatToString(i), NatToString(j);
    if |di| == |dj| {
      assert di == key[|key| - |di|..] == dj;
      NatToStringInjective(i, j);
    }
  }
}
