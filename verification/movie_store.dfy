/** The catalogue kept by the top-level component: the movie record, the
    seed catalogue, and the three updates the pages request (add, update,
    delete), each replacing the whole list as the component's state
    setter does. */
module MovieStore {
  import opened JsString
  import opened Patterns
  import opened Seqs

  /** A movie without its id: what the form submits. */
  datatype MovieData = MovieData(
    title: string,
    genre: string,
    description: string,
    posterUrl: string,
    rating: real)

  /** A catalogue entry: the submitted fields plus the id the store assigned. */
  datatype Movie = Movie(id: int, data: MovieData)

  /** No two entries share an id. */
  predicate UniqueIds(ms: seq<Movie>) {
    forall i, j :: 0 <= i < j < |ms| ==> ms[i].id != ms[j].id
  }

  predicate HasId(ms: seq<Movie>, id: int) {
    exists m :: m in ms && m.id == id
  }

  /** What every stored record satisfies: text fields trimmed and present,
      a poster URL starting with an http(s) scheme, a rating in [0, 10]. */
  predicate WellFormed(d: MovieData) {
    && IsTrimmedText(d.title)
    && IsTrimmedText(d.genre)
    && IsTrimmedText(d.description)
    && IsTrimmedText(d.posterUrl)
    && HasWebScheme(d.posterUrl)
    && 0.0 <= d.rating <= 10.0
  }

  predicate AllWellFormed(ms: seq<Movie>) {
    forall m :: m in ms ==> WellFormed(m.data)
  }

  // ----- the seed catalogue -----

  const Shawshank := MovieData(
    "The Shawshank Redemption",
    "Drama",
    "Two imprisoned men bond "
      + "over a number of years, finding solace and eventual redemption through acts of common decency.",
    "https://" + "images.unsplash.com/photo-1536440136628-849c177e76a1?w=500&h=750&fit=crop",
    9.3)

  const Inception := MovieData(
    "Inception",
    "Sci-Fi",
    "A thief who steals "
      + "corporate secrets through the use of dream-sharing technology is given the inverse task of planting an idea.",
    "https://" + "images.unsplash.com/photo-1485095329183-d0797cdc5676?w=500&h=750&fit=crop",
    8.8)

  const DarkKnight := MovieData(
    "The Dark Knight",
    "Action",
    "When the menace known "
      + "as the Joker wreaks havoc and chaos on the people of Gotham, Batman must accept one of the greatest tests.",
    "https://" + "images.unsplash.com/photo-1509347528160-9a9e33742cdb?w=500&h=750&fit=crop",
    9.0)

  const PulpFiction := MovieData(
    "Pulp Fiction",
    "Crime",
    "The lives of two mob "
      + "hitmen, a boxer, a gangster and his wife intertwine in four tales of violence and redemption.",
    "https://" + "images.unsplash.com/photo-1598899134739-24c46f58b8c0?w=500&h=750&fit=crop",
    8.9)

  const ForrestGump := MovieData(
    "Forrest Gump",
    "Drama",
    "The presidencies of "
      + "Kennedy and Johnson unfold through the perspective of an Alabama man with an IQ of 75.",
    "https://" + "images.unsplash.com/photo-1489599849927-2ee91cede3ba?w=500&h=750&fit=crop",
    8.8)

  /** The catalogue the application starts with, ids 1 to 5. */
  const InitialMovies: seq<Movie> := [
    Movie(1, Shawshank), Movie(2, Inception), Movie(3, DarkKnight),
    Movie(4, PulpFiction), Movie(5, ForrestGump)
  ]

  lemma ShawshankWellFormed() ensures WellFormed(Shawshank) {}
  lemma InceptionWellFormed() ensures WellFormed(Inception) {}
  lemma DarkKnightWellFormed() ensures WellFormed(DarkKnight) {}
  lemma PulpFictionWellFormed() ensures WellFormed(PulpFiction) {}
  lemma ForrestGumpWellFormed() ensures WellFormed(ForrestGump) {}

  /** The seed has ids 1 to 5, all distinct. */
  lemma InitialMoviesIds()
    ensures |InitialMovies| == 5
    ensures forall i :: 0 <= i < 5 ==> InitialMovies[i].id == i + 1
    ensures UniqueIds(InitialMovies)
    ensures MaxId(InitialMovies) == 5
  {
  }

  /** Every seed record is well formed. */
  lemma InitialMoviesWellFormed()
    ensures AllWellFormed(InitialMovies)
  {
    var datas := [Shawshank, Inception, DarkKnight, PulpFiction, ForrestGump];
    ShawshankWellFormed();
    InceptionWellFormed();
    DarkKnightWellFormed();
    PulpFictionWellFormed();
    ForrestGumpWellFormed();
    assert forall i :: 0 <= i < 5 ==> WellFormed(datas[i]);
    forall m | m in InitialMovies ensures WellFormed(m.data) {
      var i :| 0 <= i < 5 && InitialMovies[i] == m;
      assert m.data == datas[i];
    }
  }

  // ----- id allocation -----

  /** `Math.max(...ids, 0)`: the largest id, or 0 for an empty catalogue. */
  function MaxId(ms: seq<Movie>): (r: int)
    ensures r >= 0
    ensures forall m :: m in ms ==> m.id <= r
    ensures r == 0 || HasId(ms, r)
  {
    if ms == [] then 0
    else
      assert ms == [ms[0]] + ms[1..];
      var rest := MaxId(ms[1..]);
      if ms[0].id > rest then ms[0].id else rest
  }

  /** The id a new movie receives. */
  function NextId(ms: seq<Movie>): (r: int)
    ensures r > 0
    ensures forall m :: m in ms ==> m.id < r
    ensures r == 1 || HasId(ms, r - 1)
  {
    MaxId(ms) + 1
  }

  // ----- the three updates -----

  /** Appends the submitted movie under a fresh id. */
  function AddMovie(ms: seq<Movie>, d: MovieData): (r: seq<Movie>)
    ensures |r| == |ms| + 1 && r[..|ms|] == ms
    ensures r[|ms|] == Movie(NextId(ms), d)
    ensures !HasId(ms, r[|ms|].id)
  {
    ms + [Movie(NextId(ms), d)]
  }

  /** The `map` callback of an update: the entry with that id becomes the
      submitted fields under the same id; every other entry is kept. */
  function Replace(id: int, d: MovieData): Movie -> Movie {
    (m: Movie) => if m.id == id then Movie(id, d) else m
  }

  /** Replaces the fields of every entry carrying `id`, in place. */
  function UpdateMovie(ms: seq<Movie>, id: int, d: MovieData): (r: seq<Movie>)
    ensures |r| == |ms|
    ensures forall i :: 0 <= i < |ms| ==> r[i].id == ms[i].id
    ensures forall i :: 0 <= i < |ms| && ms[i].id != id ==> r[i] == ms[i]
    ensures forall i :: 0 <= i < |ms| && ms[i].id == id ==> r[i].data == d
  {
    Map(ms, Replace(id, d))
  }

  /** The `filter` callback of a delete. */
  function Keeps(id: int): Movie -> bool {
    (m: Movie) => m.id != id
  }

  /** Removes every entry carrying `id` once the user has confirmed;
      without confirmation the catalogue is left as it is. */
  function DeleteMovie(ms: seq<Movie>, id: int, confirmed: bool): (r: seq<Movie>)
    ensures !confirmed ==> r == ms
    ensures confirmed ==> !HasId(r, id)
    ensures forall m :: m in r <==> m in ms && (confirmed ==> m.id != id)
    ensures |r| <= |ms|
  {
    if confirmed then Filter(ms, Keeps(id)) else ms
  }

  // ----- properties of the updates -----

  lemma AddKeepsUniqueIds(ms: seq<Movie>, d: MovieData)
    requires UniqueIds(ms)
    ensures UniqueIds(AddMovie(ms, d))
  {
    var r := AddMovie(ms, d);
    forall i, j | 0 <= i < j < |r| ensures r[i].id != r[j].id {
      if j == |ms| {
        assert r[i] in ms;
      } else {
        assert r[i] == ms[i] && r[j] == ms[j];
      }
    }
  }

  lemma UpdateKeepsUniqueIds(ms: seq<Movie>, id: int, d: MovieData)
    requires UniqueIds(ms)
    ensures UniqueIds(UpdateMovie(ms, id, d))
  {
  }

  /** Updating an id that no entry carries changes nothing. */
  lemma UpdateAbsent(ms: seq<Movie>, id: int, d: MovieData)
    requires !HasId(ms, id)
    ensures UpdateMovie(ms, id, d) == ms
  {
    var r := UpdateMovie(ms, id, d);
    forall i | 0 <= i < |ms| ensures r[i] == ms[i] {
      assert ms[i] in ms;
    }
  }

  /** A second update of the same id overrides the first. */
  lemma UpdateOverrides(ms: seq<Movie>, id: int, d1: MovieData, d2: MovieData)
    ensures UpdateMovie(UpdateMovie(ms, id, d1), id, d2) == UpdateMovie(ms, id, d2)
  {
  }

  /** Writing back the fields an entry already has changes nothing, when
      the id is unique. */
  lemma UpdateWithSameData(ms: seq<Movie>, i: int)
    requires UniqueIds(ms) && 0 <= i < |ms|
    ensures UpdateMovie(ms, ms[i].id, ms[i].data) == ms
  {
    var r := UpdateMovie(ms, ms[i].id, ms[i].data);
    forall j | 0 <= j < |ms| ensures r[j] == ms[j] {
      if ms[j].id == ms[i].id {
        assert i == j;
      }
    }
  }

  /** A delete keeps the surviving entries in their original order. */
  lemma DeleteIsSubsequence(ms: seq<Movie>, id: int, confirmed: bool)
    ensures IsSubsequence(DeleteMovie(ms, id, confirmed), ms)
  {
    if confirmed {
      FilterIsSubsequence(ms, Keeps(id));
    } else {
      assert Embeds(seq(|ms|, k => k), ms, ms);
    }
  }

  /** Dropping entries never creates a duplicate id. */
  lemma SubsequenceKeepsUniqueIds(a: seq<Movie>, b: seq<Movie>)
    requires IsSubsequence(a, b) && UniqueIds(b)
    ensures UniqueIds(a)
  {
    var idx :| Embeds(idx, a, b);
    forall i, j | 0 <= i < j < |a| ensures a[i].id != a[j].id {
      assert idx[i] < idx[j];
      assert a[i] == b[idx[i]] && a[j] == b[idx[j]];
    }
  }

  lemma DeleteKeepsUniqueIds(ms: seq<Movie>, id: int, confirmed: bool)
    requires UniqueIds(ms)
    ensures UniqueIds(DeleteMovie(ms, id, confirmed))
  {
    DeleteIsSubsequence(ms, id, confirmed);
    SubsequenceKeepsUniqueIds(DeleteMovie(ms, id, confirmed), ms);
  }

  /** Deleting an id no entry carries changes nothing. */
  lemma DeleteAbsent(ms: seq<Movie>, id: int, confirmed: bool)
    requires !HasId(ms, id)
    ensures DeleteMovie(ms, id, confirmed) == ms
  {
    if confirmed {
      FilterKeepsAll(ms, Keeps(id));
    }
  }

  /** With unique ids, a confirmed delete of a present id removes exactly
      one entry. */
  lemma {:induction false} DeleteRemovesOne(ms: seq<Movie>, id: int)
    requires UniqueIds(ms) && HasId(ms, id)
    ensures |DeleteMovie(ms, id, true)| == |ms| - 1
  {
    assert ms == [ms[0]] + ms[1..];
    var tail := ms[1..];
    assert UniqueIds(tail) by {
      forall i, j | 0 <= i < j < |tail| ensures tail[i].id != tail[j].id {
        assert tail[i] == ms[i + 1] && tail[j] == ms[j + 1];
      }
    }
    if ms[0].id == id {
      assert !HasId(tail, id) by {
        forall m | m in tail ensures m.id != id {
          var k :| 0 <= k < |tail| && tail[k] == m;
          assert ms[k + 1] == m;
        }
      }
      FilterKeepsAll(tail, Keeps(id));
    } else {
      DeleteRemovesOne(tail, id);
    }
  }

  /** A confirmed delete is idempotent. */
  lemma DeleteIdempotent(ms: seq<Movie>, id: int)
    ensures DeleteMovie(DeleteMovie(ms, id, true), id, true) == DeleteMovie(ms, id, true)
  {
    DeleteAbsent(DeleteMovie(ms, id, true), id, true);
  }

  /** Adding a well formed record keeps every stored record well formed. */
  lemma AddKeepsWellFormed(ms: seq<Movie>, d: MovieData)
    requires AllWellFormed(ms) && WellFormed(d)
    ensures AllWellFormed(AddMovie(ms, d))
  {
    var r := AddMovie(ms, d);
    forall m | m in r ensures WellFormed(m.data) {
      var i :| 0 <= i < |r| && r[i] == m;
      if i < |ms| {
        assert ms[i] in ms;
      }
    }
  }

  /** Updating with a well formed record keeps every stored record well
      formed. */
  lemma UpdateKeepsWellFormed(ms: seq<Movie>, id: int, d: MovieData)
    requires AllWellFormed(ms) && WellFormed(d)
    ensures AllWellFormed(UpdateMovie(ms, id, d))
  {
    var r := UpdateMovie(ms, id, d);
    forall m | m in r ensures WellFormed(m.data) {
      var i :| 0 <= i < |r| && r[i] == m;
      assert ms[i] in ms;
    }
  }

  /** Deleting keeps every remaining record well formed. */
  lemma DeleteKeepsWellFormed(ms: seq<Movie>, id: int, confirmed: bool)
    requires AllWellFormed(ms)
    ensures AllWellFormed(DeleteMovie(ms, id, confirmed))
  {
  }
}
