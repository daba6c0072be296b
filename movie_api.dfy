/**
 * The movie store of app.js: an ordered sequence of records held in memory,
 * the two read-only handlers (`GET /movies`, `GET /movies/:id`) as functions
 * over it, and the three writing handlers (`POST`, `PATCH`, `DELETE`) as
 * methods of a class that owns it.
 */
module MovieApi {
  import opened Json
  import opened MovieSchema

  /** A stored record: the id given at creation and the validated data. */
  datatype Movie = Movie(id: string, data: MovieData)

  /** What a handler answers: a record, an empty success, not-found, or a validation failure. */
  datatype Reply = Done(movie: Movie) | Removed | NotFound | Rejected(errors: set<Field>)

  /** Every stored record satisfies the full schema. */
  ghost predicate AllValid(schema: Schema, s: seq<Movie>)
  {
    forall i :: 0 <= i < |s| ==> ValidData(schema, s[i].data)
  }

  /** No two stored records share an id. */
  ghost predicate UniqueIds(s: seq<Movie>)
  {
    forall i, j :: 0 <= i < j < |s| ==> s[i].id != s[j].id
  }

  // ----- Lookup by id (`find` and `findIndex`) -----

  /** The index of the first record with the given id, or -1 when there is none. */
  function FirstIndex(s: seq<Movie>, id: string): (i: int)
    ensures -1 <= i < |s|
    ensures i == -1 <==> forall j :: 0 <= j < |s| ==> s[j].id != id
    ensures 0 <= i ==> s[i].id == id && forall j :: 0 <= j < i ==> s[j].id != id
  {
    if |s| == 0 then -1
    else if s[0].id == id then 0
    else
      var k := FirstIndex(s[1..], id);
      if k == -1 then -1 else k + 1
  }

  /** `GET /movies/:id`: the first record whose id equals `id`, or nothing. */
  function GetMovie(s: seq<Movie>, id: string): (r: Option<Movie>)
    ensures r.None? <==> forall j :: 0 <= j < |s| ==> s[j].id != id
    ensures r.Some? ==> r.value.id == id
    ensures r.Some? ==> exists i :: 0 <= i < |s| && s[i] == r.value && forall j :: 0 <= j < i ==> s[j].id != id
  {
    var i := FirstIndex(s, id);
    if i == -1 then None else Some(s[i])
  }

  // ----- The genre filter of `GET /movies` -----

  /** Lower-casing of one character, on the ASCII letters. */
  function LowerChar(c: char): char
  {
    if 'A' <= c <= 'Z' then (c as int + 32) as char else c
  }

  function Lower(t: string): string
  {
    seq(|t|, i requires 0 <= i < |t| => LowerChar(t[i]))
  }

  /** The record lists a genre equal to the query once both are lower-cased. */
  predicate HasGenre(m: Movie, q: string)
  {
    exists g :: g in m.data.genre && Lower(g) == Lower(q)
  }

  /** `movies.filter(...)`: the records that have the genre, in store order. */
  function FilterGenre(s: seq<Movie>, q: string): (r: seq<Movie>)
    ensures |r| <= |s|
    ensures forall m :: m in r <==> m in s && HasGenre(m, q)
  {
    if s == [] then []
    else (if HasGenre(s[0], q) then [s[0]] else []) + FilterGenre(s[1..], q)
  }

  /**
   * `GET /movies`: with a non-empty `genre` query, exactly the records that
   * have that genre; without one (or with an empty one), the whole store.
   */
  function ListMovies(s: seq<Movie>, genre: Option<string>): (r: seq<Movie>)
    ensures genre.None? || genre == Some("") ==> r == s
    ensures genre.Some? && genre.value != "" ==> forall m :: m in r <==> m in s && HasGenre(m, genre.value)
    ensures |r| <= |s|
  {
    if genre.Some? && genre.value != "" then FilterGenre(s, genre.value) else s
  }

  /** The filter keeps store order: filtering a concatenation concatenates the filtered parts. */
  lemma {:induction false} FilterAppend(a: seq<Movie>, b: seq<Movie>, q: string)
    ensures FilterGenre(a + b, q) == FilterGenre(a, q) + FilterGenre(b, q)
  {
    if a == [] {
      assert a + b == b;
    } else {
      assert (a + b)[1..] == a[1..] + b;
      FilterAppend(a[1..], b, q);
    }
  }

  /** The filter depends on the query only through its lower-cased form. */
  lemma {:induction false} FilterCaseInsensitive(s: seq<Movie>, q1: string, q2: string)
    requires Lower(q1) == Lower(q2)
    ensures FilterGenre(s, q1) == FilterGenre(s, q2)
  {
    if s != [] {
      assert HasGenre(s[0], q1) == HasGenre(s[0], q2);
      FilterCaseInsensitive(s[1..], q1, q2);
    }
  }

  /** Two queries that lower-case alike list the same records. */
  lemma ListCaseInsensitive(s: seq<Movie>, q1: string, q2: string)
    requires Lower(q1) == Lower(q2)
    ensures ListMovies(s, Some(q1)) == ListMovies(s, Some(q2))
  {
    assert |q1| == |Lower(q1)| && |q2| == |Lower(q2)|;
    FilterCaseInsensitive(s, q1, q2);
  }

  /** `?genre=ACTION` and `?genre=action` list the same records. */
  lemma UpperAndLowerQueryAgree(s: seq<Movie>)
    ensures ListMovies(s, Some("ACTION")) == ListMovies(s, Some("action"))
  {
    assert Lower("ACTION") == "action";
    assert Lower("action") == "action";
    ListCaseInsensitive(s, "ACTION", "action");
  }

  // ----- What the writing handlers do to the sequence -----

  /** After an append with a fresh id, lookup by that id finds the new record. */
  lemma GetAfterAppend(s: seq<Movie>, m: Movie)
    requires forall j :: 0 <= j < |s| ==> s[j].id != m.id
    ensures GetMovie(s + [m], m.id) == Some(m)
  {
    var t := s + [m];
    assert t[|s|] == m;
    assert forall j :: 0 <= j < |s| ==> t[j].id != m.id;
  }

  /** `splice(i, 1)`: the sequence without its element at index `i`. */
  function Without(s: seq<Movie>, i: int): seq<Movie>
    requires 0 <= i < |s|
  {
    s[..i] + s[i + 1..]
  }

  /** Removing index `i` keeps every other record, in its original relative order. */
  lemma RemoveKeepsOthers(s: seq<Movie>, i: int)
    requires 0 <= i < |s|
    ensures |Without(s, i)| == |s| - 1
    ensures forall j :: 0 <= j < |s| && j != i ==> Without(s, i)[if j < i then j else j - 1] == s[j]
    ensures multiset(Without(s, i)) + multiset{s[i]} == multiset(s)
  {
    assert s == s[..i] + [s[i]] + s[i + 1..];
  }

  /** With unique ids, once the first match is removed no record has that id. */
  lemma {:induction false} GetAfterRemove(s: seq<Movie>, id: string)
    requires UniqueIds(s)
    requires FirstIndex(s, id) >= 0
    ensures GetMovie(Without(s, FirstIndex(s, id)), id) == None
  {
    var i := FirstIndex(s, id);
    var t := Without(s, i);
    RemoveKeepsOthers(s, i);
    forall k | 0 <= k < |t| ensures t[k].id != id {
      var j := if k < i then k else k + 1;
      assert t[k] == s[j];
      assert j != i;
      if j < i { assert s[j].id != id; } else { assert s[i].id != s[j].id; }
    }
  }

  /** After the record at `i` is replaced, lookup by its id finds the replacement. */
  lemma GetAfterUpdate(s: seq<Movie>, id: string, m: Movie)
    requires FirstIndex(s, id) >= 0 && m.id == id
    ensures GetMovie(s[FirstIndex(s, id) := m], id) == Some(m)
  {
    var i := FirstIndex(s, id);
    var t := s[i := m];
    assert forall j :: 0 <= j < i ==> t[j].id != id;
    assert t[i] == m;
  }

  lemma ValidAfterRemove(schema: Schema, s: seq<Movie>, i: int)
    requires 0 <= i < |s|
    requires AllValid(schema, s) && UniqueIds(s)
    ensures AllValid(schema, Without(s, i)) && UniqueIds(Without(s, i))
  {
    var t := Without(s, i);
    RemoveKeepsOthers(s, i);
    forall k | 0 <= k < |t| ensures t[k] == s[if k < i then k else k + 1] { }
  }

  lemma ValidAfterAppend(schema: Schema, s: seq<Movie>, m: Movie)
    requires AllValid(schema, s) && UniqueIds(s)
    requires ValidData(schema, m.data) && forall j :: 0 <= j < |s| ==> s[j].id != m.id
    ensures AllValid(schema, s + [m]) && UniqueIds(s + [m])
  {
  }

  lemma ValidAfterUpdate(schema: Schema, s: seq<Movie>, i: int, p: MoviePatch)
    requires 0 <= i < |s|
    requires AllValid(schema, s) && UniqueIds(s)
    requires ValidPatch(schema, p)
    ensures AllValid(schema, s[i := Movie(s[i].id, Overwrite(s[i].data, p))])
    ensures UniqueIds(s[i := Movie(s[i].id, Overwrite(s[i].data, p))])
  {
    OverwriteValid(schema, s[i].data, p);
  }

  /** The store: the `movies` array of app.js, and the schema built at module load. */
  class Store {
    const schema: Schema
    var movies: seq<Movie>

    /** The store-wide invariant that the writing handlers preserve. */
    ghost predicate Valid()
      reads this
    {
      AllValid(schema, movies) && UniqueIds(movies)
    }

    /** The store as loaded from the seed data. */
    constructor (schema: Schema, seed: seq<Movie>)
      ensures this.schema == schema && movies == seed
    {
      this.schema := schema;
      movies := seed;
    }

    /**
     * `POST /movies`: full validation; on failure the store is untouched; on
     * success the record with the fresh id is appended at the end.
     */
    method Create(body: Object, freshId: string) returns (reply: Reply)
      requires forall j :: 0 <= j < |movies| ==> movies[j].id != freshId
      modifies this
      ensures ValidateMovie(schema, body).Invalid? ==>
        reply == Rejected(ValidateMovie(schema, body).errors) && movies == old(movies)
      ensures ValidateMovie(schema, body).Ok? ==>
        var m := Movie(freshId, ValidateMovie(schema, body).value);
        reply == Done(m) && movies == old(movies) + [m] && GetMovie(movies, freshId) == Some(m)
      ensures old(Valid()) ==> Valid()
    {
      var result := ValidateMovie(schema, body);
      if result.Invalid? {
        return Rejected(result.errors);
      }
      var m := Movie(freshId, result.value);
      GetAfterAppend(movies, m);
      if Valid() {
        ValidAfterAppend(schema, movies, m);
      }
      movies := movies + [m];
      reply := Done(m);
    }

    /**
     * `PATCH /movies/:id`: partial validation first (a failure leaves the
     * store untouched, whether or not the id exists), then lookup of the first
     * record with the id (not found leaves it untouched); then that one slot is
     * replaced by the old record with the present fields overwritten.
     */
    method Patch(id: string, body: Object) returns (reply: Reply)
      modifies this
      ensures ValidatePartial(schema, body).Invalid? ==>
        reply == Rejected(ValidatePartial(schema, body).errors) && movies == old(movies)
      ensures ValidatePartial(schema, body).Ok? && FirstIndex(old(movies), id) == -1 ==>
        reply == NotFound && movies == old(movies)
      ensures ValidatePartial(schema, body).Ok? && FirstIndex(old(movies), id) >= 0 ==>
        var i := FirstIndex(old(movies), id);
        var m := Movie(old(movies)[i].id, Overwrite(old(movies)[i].data, ValidatePartial(schema, body).value));
        reply == Done(m) && m.id == id && movies == old(movies)[i := m] && GetMovie(movies, id) == Some(m)
      ensures old(Valid()) ==> Valid()
    {
      var result := ValidatePartial(schema, body);
      if result.Invalid? {
        return Rejected(result.errors);
      }
      var i := FirstIndex(movies, id);
      if i == -1 {
        return NotFound;
      }
      var m := Movie(movies[i].id, Overwrite(movies[i].data, result.value));
      GetAfterUpdate(movies, id, m);
      if Valid() {
        ValidAfterUpdate(schema, movies, i, result.value);
      }
      movies := movies[i := m];
      reply := Done(m);
    }

    /**
     * `DELETE /movies/:id`: not found leaves the store untouched; otherwise
     * the first record with the id is spliced out and the rest keep their order.
     */
    method Delete(id: string) returns (reply: Reply)
      modifies this
      ensures FirstIndex(old(movies), id) == -1 ==> reply == NotFound && movies == old(movies)
      ensures FirstIndex(old(movies), id) >= 0 ==>
        var i := FirstIndex(old(movies), id);
        reply == Removed && movies == Without(old(movies), i)
      ensures old(UniqueIds(movies)) ==> GetMovie(movies, id) == None
      ensures old(Valid()) ==> Valid()
    {
      var i := FirstIndex(movies, id);
      if i == -1 {
        return NotFound;
      }
      if UniqueIds(movies) {
        GetAfterRemove(movies, id);
      }
      if Valid() {
        ValidAfterRemove(schema, movies, i);
      }
      movies := Without(movies, i);
      reply := Removed;
    }
  }

  /** The single seed record of the worked example. */
  function ExampleMovie(): Movie
  {
    Movie("1", MovieData("Example", 2000, "D", 100, 5.0, "https://x/y.jpg", ["action"]))
  }

  /** A body that carries only `year` validates to a patch of the year alone. */
  lemma YearOnlyPatch(schema: Schema)
    requires schema.maxYear >= 2001
    ensures ValidatePartial(schema, map["year" := Num(2001.0)])
      == Ok(MoviePatch(None, Some(2001), None, None, None, None, None))
  {
    var body: Object := map["year" := Num(2001.0)];
    var r := ValidatePartial(schema, body);
    assert FieldPasses(schema, body, Year, true);
    forall f ensures FieldPasses(schema, body, f, true) {
      KeyInjective(f, Year);
    }
    var p := r.value;
    forall f | f != Year ensures PatchEncoded(p, f).None? {
      InAllFields(f);
      KeyInjective(f, Year);
      assert f !in Known(body);
    }
    InAllFields(Year);
    assert Known(body)[Year] == Num(2001.0);
    assert PatchEncoded(p, Year) == Some(Num(2001.0));
    assert PatchEncoded(p, Title).None? && PatchEncoded(p, Director).None? && PatchEncoded(p, Duration).None?;
    assert PatchEncoded(p, Rate).None? && PatchEncoded(p, Poster).None? && PatchEncoded(p, Genre).None?;
  }

  /**
   * The worked example: seeded with one record, `GET /movies/1` finds it,
   * `PATCH /movies/1` with `{year: 2001}` changes only the year, and after
   * `DELETE /movies/1` the lookup finds nothing.
   */
  method ExampleSession(schema: Schema) returns (fetched: Option<Movie>, patched: Reply, deleted: Reply, after: Option<Movie>)
    requires schema.maxYear >= 2001
    ensures fetched == Some(ExampleMovie())
    ensures patched == Done(ExampleMovie().(data := ExampleMovie().data.(year := 2001)))
    ensures deleted == Removed && after == None
  {
    var store := new Store(schema, [ExampleMovie()]);
    fetched := GetMovie(store.movies, "1");
    var body: Object := map["year" := Num(2001.0)];
    YearOnlyPatch(schema);
    patched := store.Patch("1", body);
    deleted := store.Delete("1");
    after := GetMovie(store.movies, "1");
  }
}
