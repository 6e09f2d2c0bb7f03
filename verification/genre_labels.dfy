/** The genre captions of the three movie cards (components/MovieCard.tsx,
    components/MovieHero.tsx, components/ComingSoonCard.tsx), the hero's
    year text and the detail route the cards open. Each caption maps genre
    ids through an optional id-to-name lookup, drops ids without a non-empty
    name, keeps a prefix and joins with " • "; the three differ in where the
    prefix is taken, how long it is, and the fallback text. */
module GenreLabels {
  import opened Wrappers
  import opened Strings
  import opened Types

  /** The `genres` prop: an optional record from genre id to name. */
  type Lookup = Option<map<int, string>>

  const SEPARATOR: string := " • "
  const CARD_FALLBACK: string := "Movie"
  const COMING_SOON_FALLBACK: string := "Drama"

  /** `genres?.[id]` is truthy: the lookup exists and gives a non-empty name. */
  predicate Known(lookup: Lookup, id: int) {
    lookup.Some? && id in lookup.value && lookup.value[id] != ""
  }

  /** `ids.map(id => genres?.[id]).filter(Boolean)`: the names of the known
      ids, in id order. */
  function KnownNames(lookup: Lookup, ids: seq<int>): (names: seq<string>)
    ensures |names| <= |ids|
    ensures forall k :: 0 <= k < |names| ==> names[k] != ""
    decreases |ids|
  {
    if |ids| == 0 then []
    else if Known(lookup, ids[0]) then [lookup.value[ids[0]]] + KnownNames(lookup, ids[1..])
    else KnownNames(lookup, ids[1..])
  }

  /** `xs.slice(0, n)`. */
  function Take<T>(xs: seq<T>, n: nat): (r: seq<T>)
    ensures |r| == if |xs| < n then |xs| else n
    ensures r == xs[..|r|]
  {
    if |xs| < n then xs else xs[..n]
  }

  /** `text || fallback`: an absent or empty caption shows the fallback. */
  function OrElse(text: Option<string>, fallback: string): (shown: string)
    ensures text.Some? && text.value != "" ==> shown == text.value
    ensures text.None? || text.value == "" ==> shown == fallback
  {
    if text.Some? && text.value != "" then text.value else fallback
  }

  /** A join of at most two parts, spelled out. */
  lemma JoinShort(xs: seq<string>, sep: string)
    ensures |xs| == 1 ==> Join(xs, sep) == xs[0]
    ensures |xs| == 2 ==> Join(xs, sep) == xs[0] + sep + xs[1]
  {
    if |xs| == 2 {
      assert xs[1..] == [xs[1]];
    }
  }

  // ---------------------------------------------------------------------
  // The known-name filter
  // ---------------------------------------------------------------------

  lemma {:induction false} KnownNamesAppend(lookup: Lookup, a: seq<int>, b: seq<int>)
    ensures KnownNames(lookup, a + b) == KnownNames(lookup, a) + KnownNames(lookup, b)
    decreases |a|
  {
    if |a| == 0 {
      assert a + b == b;
    } else {
      assert (a + b)[0] == a[0] && (a + b)[1..] == a[1..] + b;
      KnownNamesAppend(lookup, a[1..], b);
    }
  }

  /** A name is kept exactly when some id in the list is known under it. */
  lemma {:induction false} KnownNamesMembers(lookup: Lookup, ids: seq<int>, name: string)
    ensures name in KnownNames(lookup, ids) <==>
      exists k :: 0 <= k < |ids| && Known(lookup, ids[k]) && lookup.value[ids[k]] == name
    decreases |ids|
  {
    if |ids| > 0 {
      KnownNamesMembers(lookup, ids[1..], name);
      if name in KnownNames(lookup, ids[1..]) {
        var k :| 0 <= k < |ids[1..]| && Known(lookup, ids[1..][k]) && lookup.value[ids[1..][k]] == name;
        assert ids[k + 1] == ids[1..][k];
      }
      if exists k :: 0 <= k < |ids| && Known(lookup, ids[k]) && lookup.value[ids[k]] == name {
        var k :| 0 <= k < |ids| && Known(lookup, ids[k]) && lookup.value[ids[k]] == name;
        if k > 0 {
          assert ids[1..][k - 1] == ids[k];
        }
      }
    }
  }

  /** Without a lookup, or when no id is known, nothing is kept. */
  lemma {:induction false} NoKnownNames(lookup: Lookup, ids: seq<int>)
    requires forall k :: 0 <= k < |ids| ==> !Known(lookup, ids[k])
    ensures KnownNames(lookup, ids) == []
    decreases |ids|
  {
    if |ids| > 0 {
      NoKnownNames(lookup, ids[1..]);
    }
  }

  // ---------------------------------------------------------------------
  // MovieCard
  // ---------------------------------------------------------------------

  /** The card keeps the first two known names (lookup, then slice). */
  function CardNames(lookup: Lookup, ids: seq<int>): (names: seq<string>)
    ensures |names| <= 2 && |names| <= |KnownNames(lookup, ids)|
    ensures names == KnownNames(lookup, ids)[..|names|]
    ensures |names| < 2 ==> names == KnownNames(lookup, ids)
  {
    Take(KnownNames(lookup, ids), 2)
  }

  /** `genreText || 'Movie'` on the card: no ids, no lookup or no known id
      shows "Movie"; one name shows alone; two show joined by " • ". */
  function CardCaption(m: Movie, lookup: Lookup): (caption: string)
    ensures m.genre_ids.None? ==> caption == CARD_FALLBACK
    ensures m.genre_ids.Some? ==>
      var names := CardNames(lookup, m.genre_ids.value);
      && (|names| == 0 ==> caption == CARD_FALLBACK)
      && (|names| == 1 ==> caption == names[0])
      && (|names| == 2 ==> caption == names[0] + SEPARATOR + names[1])
  {
    match m.genre_ids
    case None => OrElse(None, CARD_FALLBACK)
    case Some(ids) =>
      var names := CardNames(lookup, ids);
      JoinShort(names, SEPARATOR);
      OrElse(Some(Join(names, SEPARATOR)), CARD_FALLBACK)
  }

  // ---------------------------------------------------------------------
  // MovieHero
  // ---------------------------------------------------------------------

  /** The hero keeps the known names among the first two ids (slice, then
      lookup). */
  function HeroNames(lookup: Lookup, ids: seq<int>): (names: seq<string>)
    ensures |names| <= 2
    ensures names == NameAt(lookup, ids, 0) + NameAt(lookup, ids, 1)
    ensures |names| <= |KnownNames(lookup, ids)| && names == KnownNames(lookup, ids)[..|names|]
  {
    var front := Take(ids, 2);
    assert ids == front + ids[|front|..];
    KnownNamesAppend(lookup, front, ids[|front|..]);
    assert |front| == 2 ==> front[1..] == [ids[1]] && front[1..][1..] == [];
    assert |front| == 1 ==> front[1..] == [];
    KnownNames(lookup, front)
  }

  /** The name the id at position `k` contributes, if it is known. */
  function NameAt(lookup: Lookup, ids: seq<int>, k: nat): (name: seq<string>)
    ensures |name| <= 1
    ensures |name| == 1 <==> k < |ids| && Known(lookup, ids[k])
    ensures |name| == 1 ==> name[0] == lookup.value[ids[k]]
  {
    if k < |ids| && Known(lookup, ids[k]) then [lookup.value[ids[k]]] else []
  }

  function HeroCaption(m: Movie, lookup: Lookup): (caption: string)
    ensures m.genre_ids.None? ==> caption == CARD_FALLBACK
    ensures m.genre_ids.Some? ==>
      var names := HeroNames(lookup, m.genre_ids.value);
      && (|names| == 0 ==> caption == CARD_FALLBACK)
      && (|names| == 1 ==> caption == names[0])
      && (|names| == 2 ==> caption == names[0] + SEPARATOR + names[1])
  {
    match m.genre_ids
    case None => OrElse(None, CARD_FALLBACK)
    case Some(ids) =>
      var names := HeroNames(lookup, ids);
      JoinShort(names, SEPARATOR);
      OrElse(Some(Join(names, SEPARATOR)), CARD_FALLBACK)
  }

  /** The hero's names are a prefix of the card's: slicing first can only
      lose names, never reorder or add them. */
  lemma HeroNamesPrefixOfCard(lookup: Lookup, ids: seq<int>)
    ensures var hero := HeroNames(lookup, ids);
      |hero| <= |CardNames(lookup, ids)| && hero == CardNames(lookup, ids)[..|hero|]
  {
    // Both are prefixes of the known names, and the hero's has at most two.
  }

  /** The hero and the card agree whenever the first two ids are both known,
      and whenever there are at most two ids. */
  lemma HeroAgreesWithCard(lookup: Lookup, ids: seq<int>)
    requires |ids| <= 2 || (Known(lookup, ids[0]) && Known(lookup, ids[1]))
    ensures HeroNames(lookup, ids) == CardNames(lookup, ids)
  {
    if |ids| > 2 {
      var front := ids[..2];
      assert ids == front + ids[2..];
      KnownNamesAppend(lookup, front, ids[2..]);
      assert front[1..][1..] == [];
    } else {
      assert Take(ids, 2) == ids;
    }
  }

  /** A known genre after two unknown ones shows on the card but never on
      the hero, which falls back to "Movie". */
  lemma HeroIgnoresLaterIds(m: Movie, lookup: Lookup)
    requires m.genre_ids.Some? && |m.genre_ids.value| >= 3
    requires !Known(lookup, m.genre_ids.value[0]) && !Known(lookup, m.genre_ids.value[1])
    requires Known(lookup, m.genre_ids.value[2])
    ensures |CardNames(lookup, m.genre_ids.value)| > 0
    ensures HeroCaption(m, lookup) == CARD_FALLBACK
    ensures CardNames(lookup, m.genre_ids.value)[0] == lookup.value[m.genre_ids.value[2]]
  {
    var ids := m.genre_ids.value;
    NoKnownNames(lookup, ids[..2]);
    assert ids == ids[..2] + ids[2..];
    KnownNamesAppend(lookup, ids[..2], ids[2..]);
  }

  /** The year shown on the hero: the release date up to its first `-`. */
  function YearText(m: Movie): (year: string)
    ensures Free(year, '-')
    ensures |year| <= |m.release_date| && year == m.release_date[..|year|]
    ensures year == m.release_date || m.release_date[|year|] == '-'
  {
    Before(m.release_date, '-')
  }

  /** A date written `year-rest` shows exactly its year. */
  lemma YearOfDate(m: Movie, year: string, rest: string)
    requires Free(year, '-') && m.release_date == year + "-" + rest
    ensures YearText(m) == year
  {
    assert "-" == ['-'];
    FirstIndexOfFree(year, '-', rest);
  }

  // ---------------------------------------------------------------------
  // ComingSoonCard
  // ---------------------------------------------------------------------

  /** The coming-soon card keeps the first known name only. */
  function ComingSoonText(lookup: Lookup, ids: seq<int>): (text: string)
    ensures var names := KnownNames(lookup, ids);
      text == if |names| == 0 then "" else names[0]
  {
    Join(Take(KnownNames(lookup, ids), 1), SEPARATOR)
  }

  /** The coming-soon caption is the card's first name, or "Drama". */
  function ComingSoonCaption(m: Movie, lookup: Lookup): (caption: string)
    ensures m.genre_ids.Some? && |CardNames(lookup, m.genre_ids.value)| > 0 ==>
      caption == CardNames(lookup, m.genre_ids.value)[0]
    ensures m.genre_ids.None? || |CardNames(lookup, m.genre_ids.value)| == 0 ==>
      caption == COMING_SOON_FALLBACK
  {
    match m.genre_ids
    case None => OrElse(None, COMING_SOON_FALLBACK)
    case Some(ids) => OrElse(Some(ComingSoonText(lookup, ids)), COMING_SOON_FALLBACK)
  }

  /** The subtitle: the release date, the separator, then the caption. */
  function Subtitle(m: Movie, lookup: Lookup): (sub: string)
    ensures |sub| == |m.release_date| + |SEPARATOR| + |ComingSoonCaption(m, lookup)|
    ensures sub[..|m.release_date|] == m.release_date
    ensures sub[|m.release_date|..|m.release_date| + |SEPARATOR|] == SEPARATOR
    ensures sub[|m.release_date| + |SEPARATOR|..] == ComingSoonCaption(m, lookup)
  {
    m.release_date + SEPARATOR + ComingSoonCaption(m, lookup)
  }

  /** The coming-soon caption adds no separator of its own: it is one
      genre name or the fallback. */
  lemma ComingSoonSingleName(m: Movie, lookup: Lookup)
    ensures var c := ComingSoonCaption(m, lookup);
      c == COMING_SOON_FALLBACK ||
      (m.genre_ids.Some? &&
       exists k :: 0 <= k < |m.genre_ids.value| && Known(lookup, m.genre_ids.value[k]) && lookup.value[m.genre_ids.value[k]] == c)
  {
    if m.genre_ids.Some? {
      var ids := m.genre_ids.value;
      var names := KnownNames(lookup, ids);
      if |names| > 0 {
        KnownNamesMembers(lookup, ids, names[0]);
      }
    }
  }

  // ---------------------------------------------------------------------
  // Navigation
  // ---------------------------------------------------------------------

  const ROUTE_PREFIX: string := "/movies/"

  /** `router.push(`/movies/${movie.id}`)`, shared by the three cards. */
  function Route(m: Movie): (path: string)
    ensures |path| > |ROUTE_PREFIX| && path[..|ROUTE_PREFIX|] == ROUTE_PREFIX
    ensures path[|ROUTE_PREFIX|..] == IntToString(m.id)
    ensures ParseInt(path[|ROUTE_PREFIX|..]) == m.id
  {
    ParseIntToString(m.id);
    var path := ROUTE_PREFIX + IntToString(m.id);
    assert path[|ROUTE_PREFIX|..] == IntToString(m.id);
    path
  }

  /** Two cards open the same route only for the same movie id. */
  lemma RouteIdentifiesMovie(a: Movie, b: Movie)
    requires Route(a) == Route(b)
    ensures a.id == b.id
  {
    assert ParseInt(Route(a)[|ROUTE_PREFIX|..]) == a.id;
  }
}
