/** The home page's view of the catalogue: the case-insensitive search over
    title and genre, and what the page shows for its result. */
module Catalogue {
  import opened Optional
  import opened JsString
  import opened JsNumber
  import opened Seqs
  import opened MovieStore

  /** The search test for one movie: the lower-cased query occurs in the
      lower-cased title or in the lower-cased genre. */
  predicate Matches(query: string, m: Movie) {
    var q := ToLower(query);
    Includes(ToLower(m.data.title), q) || Includes(ToLower(m.data.genre), q)
  }

  /** The `filter` callback of the search. */
  function MatchesQuery(query: string): Movie -> bool {
    (m: Movie) => Matches(query, m)
  }

  /** The movies the home page lists for `query`. */
  function Search(ms: seq<Movie>, query: string): (r: seq<Movie>)
    ensures |r| <= |ms|
    ensures forall m :: m in r <==> m in ms && Matches(query, m)
  {
    Filter(ms, MatchesQuery(query))
  }

  /** The listing keeps the catalogue's order. */
  lemma SearchIsSubsequence(ms: seq<Movie>, query: string)
    ensures IsSubsequence(Search(ms, query), ms)
  {
    FilterIsSubsequence(ms, MatchesQuery(query));
  }

  /** An empty search box lists the whole catalogue. */
  lemma SearchEmptyQuery(ms: seq<Movie>)
    ensures Search(ms, "") == ms
  {
    assert ToLower("") == "";
    forall m | m in ms ensures Matches("", m) {
      IncludesEmpty(ToLower(m.data.title));
    }
    FilterKeepsAll(ms, MatchesQuery(""));
  }

  /** Two queries that agree once lower-cased list the same movies, in the
      same order: the search ignores the case of ASCII letters. */
  lemma SearchIgnoresCase(ms: seq<Movie>, q1: string, q2: string)
    requires ToLower(q1) == ToLower(q2)
    ensures Search(ms, q1) == Search(ms, q2)
  {
    FilterCongruent(ms, MatchesQuery(q1), MatchesQuery(q2));
  }

  /** In particular a query and its lower-cased form list the same movies. */
  lemma SearchLowerCaseQuery(ms: seq<Movie>, q: string)
    ensures Search(ms, q) == Search(ms, ToLower(q))
  {
    ToLowerIdempotent(q);
    SearchIgnoresCase(ms, q, ToLower(q));
  }

  /** An occurrence of an occurrence is an occurrence. */
  lemma IncludesTransitive(s: string, t: string, u: string)
    requires Includes(s, t) && Includes(t, u)
    ensures Includes(s, u)
  {
    var i :| OccursAt(s, t, i);
    var j :| OccursAt(t, u, j);
    forall k | 0 <= k < |u| ensures s[i + j + k] == u[k] {
      assert s[i..i + |t|][j + k] == t[j + k];
      assert t[j..j + |u|][k] == u[k];
    }
    assert s[i + j..i + j + |u|] == u;
    assert OccursAt(s, u, i + j);
  }

  /** Lower-casing keeps occurrences. */
  lemma IncludesToLower(s: string, t: string)
    requires Includes(s, t)
    ensures Includes(ToLower(s), ToLower(t))
  {
    var i :| OccursAt(s, t, i);
    OccursToLower(s, t, i);
  }

  lemma OccursToLower(s: string, t: string, i: int)
    requires OccursAt(s, t, i)
    ensures OccursAt(ToLower(s), ToLower(t), i)
  {
    var ls, lt := ToLower(s), ToLower(t);
    forall k | 0 <= k < |t| ensures ls[i + k] == lt[k] {
      assert s[i..i + |t|][k] == t[k];
    }
    assert ls[i..i + |t|] == lt;
  }

  /** Typing more of a query never adds movies to the listing: a query that
      contains another lists a subset of what the shorter one lists. */
  lemma SearchNarrows(ms: seq<Movie>, shorter: string, longer: string)
    requires Includes(longer, shorter)
    ensures forall m :: m in Search(ms, longer) ==> m in Search(ms, shorter)
  {
    IncludesToLower(longer, shorter);
    var ql, qs := ToLower(longer), ToLower(shorter);
    forall m | m in Search(ms, longer) ensures Matches(shorter, m) {
      if Includes(ToLower(m.data.title), ql) {
        IncludesTransitive(ToLower(m.data.title), ql, qs);
      } else {
        IncludesTransitive(ToLower(m.data.genre), ql, qs);
      }
    }
  }

  /** What the home page shows for a query: the listed movies, the
      "Found n movie(s)" line (only while the search box is not empty), and
      whether the "No movies found" message replaces the grid. */
  datatype HomeView = HomeView(listed: seq<Movie>, banner: Option<string>, noneFound: bool)

  /** The result line for `n` listed movies: the plural `s` is dropped for
      exactly one movie. */
  function FoundBanner(n: nat): (text: string)
    ensures |text| > 6 && text[..6] == "Found "
    ensures text[|text| - 1] == 's' <==> n != 1
  {
    "Found " + (NatToDecimal(n) + " movie" + (if n != 1 then "s" else ""))
  }

  /** The home page for `ms` and the text in the search box. */
  function Home(ms: seq<Movie>, query: string): (v: HomeView)
    ensures v.listed == Search(ms, query)
    ensures v.banner.Some? <==> query != []
    ensures v.banner.Some? ==> v.banner.value == FoundBanner(|v.listed|)
    ensures v.noneFound <==> forall m :: m in ms ==> !Matches(query, m)
  {
    var listed := Search(ms, query);
    SearchEmptyIffNoMatch(ms, query);
    HomeView(listed, if query != [] then Some(FoundBanner(|listed|)) else None, listed == [])
  }

  /** Nothing is listed exactly when no movie matches. */
  lemma SearchEmptyIffNoMatch(ms: seq<Movie>, query: string)
    ensures Search(ms, query) == [] <==> forall m :: m in ms ==> !Matches(query, m)
  {
    var r := Search(ms, query);
    if r != [] {
      assert r[0] in r;
    }
  }

  /** The count in the result line reads back, with `parseInt`, as the
      number of movies listed. */
  lemma FoundBannerCount(n: nat)
    ensures ParseInt(FoundBanner(n)[6..]) == Some(n)
  {
    var tail := " movie" + (if n != 1 then "s" else "");
    assert FoundBanner(n)[6..] == NatToDecimal(n) + tail;
    ParseIntNumeral(n, tail);
  }
}
