/** The filter sheet (components/FilterModal.tsx): the filter record, the
    year choices, the edits the sheet offers on its local copy, and the
    modal's life cycle — it copies the caller's filters whenever it is shown
    or handed new ones, edits only its copy, and hands the copy back on apply. */
module Filters {
  import opened Wrappers
  import opened Strings

  datatype SortOption = Popular | TopRated | Newest

  /** `FilterState`: a sort order, an optional release year, and the selected
      genre ids in the order they were selected. */
  datatype FilterState = FilterState(sortBy: SortOption, year: Option<int>, genres: seq<int>)

  /** What `handleReset` installs, and what counts as "no filter". */
  const DEFAULT: FilterState := FilterState(Popular, None, [])

  /** The oldest year offered. */
  const FIRST_YEAR: int := 1990

  // ---------------------------------------------------------------------
  // Year choices
  // ---------------------------------------------------------------------

  /** `YEAR_OPTIONS`: "any year" first, then every year from `currentYear`
      down to 1990. `Array.from` clamps a negative length to zero, so a clock
      before 1990 offers only "any year". */
  function YearOptions(currentYear: int): (opts: seq<Option<int>>)
    ensures |opts| == 1 + (if currentYear >= FIRST_YEAR then currentYear - FIRST_YEAR + 1 else 0)
    ensures opts[0] == None
    ensures forall k :: 1 <= k < |opts| ==> opts[k] == Some(currentYear - (k - 1))
  {
    var count := if currentYear - 1989 > 0 then currentYear - 1989 else 0;
    [None] + seq(count, i requires 0 <= i < count => Some(currentYear - i))
  }

  /** A year is offered exactly when it lies between 1990 and the current
      year, and "any year" is offered once. */
  lemma YearOffered(currentYear: int, y: int)
    ensures Some(y) in YearOptions(currentYear) <==> FIRST_YEAR <= y <= currentYear
  {
    var opts := YearOptions(currentYear);
    if FIRST_YEAR <= y <= currentYear {
      assert opts[currentYear - y + 1] == Some(y);
    }
  }

  /** The years are listed newest first, each once. */
  lemma YearOptionsDescending(currentYear: int, i: int, j: int)
    requires 1 <= i < j < |YearOptions(currentYear)|
    ensures YearOptions(currentYear)[i].value > YearOptions(currentYear)[j].value
  {
  }

  // ---------------------------------------------------------------------
  // Edits of the local copy
  // ---------------------------------------------------------------------

  /** `prev.genres.filter(id => id !== genreId)`. */
  function Remove(ids: seq<int>, id: int): (r: seq<int>)
    ensures forall x :: x in r <==> x in ids && x != id
    ensures |r| <= |ids|
    ensures id !in ids ==> r == ids
  {
    if |ids| == 0 then []
    else if ids[0] == id then Remove(ids[1..], id)
    else [ids[0]] + Remove(ids[1..], id)
  }

  /** Removal works piecewise, so the kept ids keep their relative order:
      together with the one-element case this pins `Remove` down completely. */
  lemma {:induction false} RemoveAppend(a: seq<int>, b: seq<int>, id: int)
    ensures Remove(a + b, id) == Remove(a, id) + Remove(b, id)
    ensures Remove([id], id) == [] && forall x :: x != id ==> Remove([x], id) == [x]
    decreases |a|
  {
    if |a| > 0 {
      assert (a + b)[0] == a[0];
      assert (a + b)[1..] == a[1..] + b;
      RemoveAppend(a[1..], b, id);
      var tail := Remove(a[1..], id) + Remove(b, id);
      if a[0] != id {
        assert Remove(a + b, id) == [a[0]] + tail;
      }
    } else {
      assert a + b == b;
    }
    assert [id][1..] == [];
  }

  predicate Distinct(ids: seq<int>) {
    forall i, j :: 0 <= i < j < |ids| ==> ids[i] != ids[j]
  }

  /** `handleGenreToggle`: a selected genre is dropped (every occurrence), an
      unselected one is appended at the end. */
  function ToggleGenre(ids: seq<int>, id: int): (r: seq<int>)
    ensures id in r <==> id !in ids
    ensures forall x :: x != id ==> (x in r <==> x in ids)
    ensures id !in ids ==> |r| == |ids| + 1 && r[..|ids|] == ids
  {
    if id in ids then Remove(ids, id) else ids + [id]
  }

  lemma {:induction false} RemoveKeepsDistinct(ids: seq<int>, id: int)
    requires Distinct(ids)
    ensures Distinct(Remove(ids, id))
    decreases |ids|
  {
    if |ids| > 0 {
      RemoveKeepsDistinct(ids[1..], id);
      var rest := Remove(ids[1..], id);
      if ids[0] != id {
        assert ids[0] !in ids[1..];
        assert ids[0] !in rest;
        var r := [ids[0]] + rest;
        forall i, j | 0 <= i < j < |r| ensures r[i] != r[j] {
          if i == 0 {
            assert r[j] == rest[j - 1];
            assert r[j] in rest;
          } else {
            assert r[i] == rest[i - 1] && r[j] == rest[j - 1];
          }
        }
      }
    }
  }

  /** Toggling never selects a genre twice. */
  lemma ToggleKeepsDistinct(ids: seq<int>, id: int)
    requires Distinct(ids)
    ensures Distinct(ToggleGenre(ids, id))
  {
    if id in ids {
      RemoveKeepsDistinct(ids, id);
    } else {
      var r := ids + [id];
      forall i, j | 0 <= i < j < |r| ensures r[i] != r[j] {
        if j == |ids| {
          assert r[i] == ids[i];
        }
      }
    }
  }

  /** Selecting an unselected genre and deselecting it again restores the
      selection exactly, order included. */
  lemma ToggleTwiceRestores(ids: seq<int>, id: int)
    requires id !in ids
    ensures ToggleGenre(ToggleGenre(ids, id), id) == ids
  {
    RemoveAppended(ids, id);
  }

  lemma {:induction false} RemoveAppended(ids: seq<int>, id: int)
    requires id !in ids
    ensures Remove(ids + [id], id) == ids
    decreases |ids|
  {
    if |ids| == 0 {
      assert Remove([id][1..], id) == [];
    } else {
      assert (ids + [id])[1..] == ids[1..] + [id];
      RemoveAppended(ids[1..], id);
      assert [ids[0]] + ids[1..] == ids;
    }
  }

  /** Deselecting a selected genre and selecting it again keeps the same set
      of genres but moves that genre to the end of the selection. */
  lemma ToggleTwiceMovesToEnd(ids: seq<int>, id: int)
    requires id in ids
    ensures ToggleGenre(ToggleGenre(ids, id), id) == Remove(ids, id) + [id]
    ensures forall x :: x in ToggleGenre(ToggleGenre(ids, id), id) <==> x in ids
  {
  }

  datatype Edit = SetSort(sort: SortOption) | SetYear(year: Option<int>) | Toggle(genreId: int) | Reset

  /** The sheet's handlers on its local copy: the sort and year handlers
      change only their own field, the toggle only the genres, and reset
      restores the default. */
  function ApplyEdit(f: FilterState, e: Edit): (r: FilterState)
    ensures e.SetSort? ==> r.sortBy == e.sort && r.year == f.year && r.genres == f.genres
    ensures e.SetYear? ==> r.year == e.year && r.sortBy == f.sortBy && r.genres == f.genres
    ensures e.Toggle? ==>
      r.sortBy == f.sortBy && r.year == f.year && (e.genreId in r.genres <==> e.genreId !in f.genres)
    ensures e.Toggle? ==> r.genres == ToggleGenre(f.genres, e.genreId)
    ensures e.Reset? ==> r == DEFAULT
  {
    match e
    case SetSort(sort) => f.(sortBy := sort)
    case SetYear(year) => f.(year := year)
    case Toggle(id) => f.(genres := ToggleGenre(f.genres, id))
    case Reset => DEFAULT
  }

  function ApplyEdits(f: FilterState, es: seq<Edit>): FilterState
    decreases |es|
  {
    if |es| == 0 then f else ApplyEdits(ApplyEdit(f, es[0]), es[1..])
  }

  /** `hasActiveFilters`: some filter differs from the default. */
  function HasActiveFilters(f: FilterState): (active: bool)
    ensures active <==> f != DEFAULT
  {
    f.sortBy != Popular || f.year != None || |f.genres| > 0
  }

  /** Edits keep every genre selection free of repeats. */
  lemma {:induction false} EditsKeepDistinct(f: FilterState, es: seq<Edit>)
    requires Distinct(f.genres)
    ensures Distinct(ApplyEdits(f, es).genres)
    decreases |es|
  {
    if |es| > 0 {
      if es[0].Toggle? {
        ToggleKeepsDistinct(f.genres, es[0].genreId);
      }
      EditsKeepDistinct(ApplyEdit(f, es[0]), es[1..]);
    }
  }

  /** The label of the apply button: `Apply`, followed by the result count
      in parentheses when the caller supplies one. */
  function ApplyLabel(resultCount: Option<int>): (text: string)
    ensures |text| >= 5 && text[..5] == "Apply"
    ensures resultCount.None? <==> text == "Apply"
    ensures resultCount.Some? ==>
      |text| > 8 && text[5..7] == " (" && text[|text| - 1] == ')' &&
      text[7..|text| - 1] == IntToString(resultCount.value) &&
      ParseInt(text[7..|text| - 1]) == resultCount.value
  {
    match resultCount
    case None => "Apply"
    case Some(n) =>
      var digits := IntToString(n);
      ParseIntToString(n);
      var t := "Apply" + " (" + digits + ")";
      assert t[7..|t| - 1] == digits;
      t
  }

  // ---------------------------------------------------------------------
  // The modal's life cycle
  // ---------------------------------------------------------------------

  /** Whether the sheet is shown, the caller's current filters, and the
      sheet's own working copy. */
  datatype Modal = Modal(visible: bool, filters: FilterState, local: FilterState)

  /** `Show`/`Hide` set the `visible` prop, `NewFilters` passes a new
      `filters` prop, `Change` is one of the sheet's handlers, `Apply` is the
      apply button. */
  datatype Event = Show | Hide | NewFilters(filters: FilterState) | Change(edit: Edit) | Apply

  /** The working copy starts as the filters given at mount. */
  function Mount(visible: bool, filters: FilterState): (m: Modal)
    ensures m.local == filters && m.filters == filters && m.visible == visible
  {
    Modal(visible, filters, filters)
  }

  /** The effect on `[visible, filters]`: while shown, the working copy is
      replaced by the caller's filters. */
  function Sync(m: Modal): (r: Modal)
    ensures r.visible == m.visible && r.filters == m.filters
    ensures r.local == (if m.visible then m.filters else m.local)
  {
    if m.visible then m.(local := m.filters) else m
  }

  /** One event: the new modal, and the filters handed to `onApply`, if any.
      The effect runs only when `visible` or `filters` changes, so showing a
      sheet that is already shown keeps its working copy. Apply hands over
      the working copy and asks the caller to close the sheet. */
  function Step(m: Modal, ev: Event): (r: (Modal, Option<FilterState>))
    ensures ev.Apply? <==> r.1.Some?
    ensures ev.Apply? ==> r.1.value == m.local && !r.0.visible
    ensures !ev.NewFilters? ==> r.0.filters == m.filters
    ensures ev.Change? ==> r.0.local == ApplyEdit(m.local, ev.edit) && r.0.visible == m.visible
    ensures ev.Show? ==> r.0.visible && r.0.local == (if m.visible then m.local else m.filters)
    ensures ev.Show? && m.visible ==> r.0 == m
    ensures ev.Hide? ==> r.0 == m.(visible := false)
    ensures ev.NewFilters? ==> r.0 == Sync(m.(filters := ev.filters))
  {
    match ev
    case Show => (if m.visible then m else Sync(m.(visible := true)), None)
    case Hide => (m.(visible := false), None)
    case NewFilters(f) => (Sync(m.(filters := f)), None)
    case Change(e) => (m.(local := ApplyEdit(m.local, e)), None)
    case Apply => (m.(visible := false), Some(m.local))
  }

  function Changes(es: seq<Edit>): (evs: seq<Event>)
    ensures |evs| == |es|
    ensures forall k :: 0 <= k < |es| ==> evs[k] == Change(es[k])
  {
    seq(|es|, k requires 0 <= k < |es| => Change(es[k]))
  }

  /** The modal after a run of events (the outputs are dropped). */
  function Run(m: Modal, evs: seq<Event>): Modal
    decreases |evs|
  {
    if |evs| == 0 then m else Run(Step(m, evs[0]).0, evs[1..])
  }

  lemma {:induction false} ChangesEditLocal(m: Modal, es: seq<Edit>)
    ensures Run(m, Changes(es)).local == ApplyEdits(m.local, es)
    ensures Run(m, Changes(es)).filters == m.filters
    ensures Run(m, Changes(es)).visible == m.visible
    decreases |es|
  {
    if |es| > 0 {
      assert Changes(es)[1..] == Changes(es[1..]);
      ChangesEditLocal(Step(m, Change(es[0])).0, es[1..]);
    }
  }

  /** A session — show the sheet, make some edits, apply — hands back the
      caller's filters with exactly those edits when the sheet was hidden,
      whatever was left in the working copy by an earlier session that was
      dismissed without applying. On a sheet already shown the edits continue
      from the working copy. */
  lemma SessionApplies(m: Modal, es: seq<Edit>)
    ensures var shown := Step(m, Show).0;
      var edited := Run(shown, Changes(es));
      Step(edited, Apply).1 == Some(ApplyEdits(if m.visible then m.local else m.filters, es))
  {
    ChangesEditLocal(Step(m, Show).0, es);
  }

  /** After any session the sheet is closed and the caller's filters are
      untouched until the caller passes new ones. */
  lemma SessionLeavesFilters(m: Modal, es: seq<Edit>)
    ensures var edited := Run(Step(m, Show).0, Changes(es));
      Step(edited, Apply).0.filters == m.filters && !Step(edited, Apply).0.visible
  {
    ChangesEditLocal(Step(m, Show).0, es);
  }
}
