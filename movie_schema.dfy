/**
 * The movie schema of schemas/movies.js: one rule per field, a full entry
 * point (every field required except `rate`, which defaults to 5) and a
 * partial one (every field optional, present fields checked by the same rule).
 */
module MovieSchema {
  import opened Json

  /** The keys of the schema. */
  datatype Field = Title | Year | Director | Duration | Rate | Poster | Genre

  const AllFields: set<Field> := {Title, Year, Director, Duration, Rate, Poster, Genre}

  /** The JSON key of each field. */
  function Key(f: Field): string
  {
    match f
    case Title => "title"
    case Year => "year"
    case Director => "director"
    case Duration => "duration"
    case Rate => "rate"
    case Poster => "poster"
    case Genre => "genre"
  }

  const MinYear: int := 1900
  const DefaultRate: real := 5.0
  const GenreTokens: set<string> := {"action", "comedy", "drama", "horror", "sci-fi"}

  /**
   * The schema object as it is built once, when the module is loaded: the
   * upper bound on `year` is the calendar year at that moment, and the URL
   * check of the validation library is a predicate supplied from outside.
   */
  datatype Schema = Schema(maxYear: int, isUrl: string -> bool)

  /** The data of a movie as full validation returns it (it has no `id`). */
  datatype MovieData = MovieData(
    title: string,
    year: int,
    director: string,
    duration: int,
    rate: real,
    poster: string,
    genre: seq<string>)

  /** The data as partial validation returns it: only the supplied fields. */
  datatype MoviePatch = MoviePatch(
    title: Option<string>,
    year: Option<int>,
    director: Option<string>,
    duration: Option<int>,
    rate: Option<real>,
    poster: Option<string>,
    genre: Option<seq<string>>)

  /** Outcome of a safeParse: the data, or the set of offending fields. */
  datatype Result<T> = Ok(value: T) | Invalid(errors: set<Field>)

  predicate IsInteger(n: real)
  {
    n.Floor as real == n
  }

  /** The rule of the schema for one field, on a supplied JSON value. */
  predicate Accepts(s: Schema, f: Field, v: Value)
  {
    match f
    case Title => v.Str?
    case Year => v.Num? && IsInteger(v.n) && MinYear as real <= v.n <= s.maxYear as real
    case Director => v.Str?
    case Duration => v.Num? && IsInteger(v.n) && v.n > 0.0
    case Rate => v.Num? && 0.0 <= v.n <= 10.0
    case Poster => v.Str? && s.isUrl(v.s)
    case Genre => v.Arr? && forall i :: 0 <= i < |v.items| ==> v.items[i].Str? && v.items[i].s in GenreTokens
  }

  function Lookup(body: Object, f: Field): Option<Value>
  {
    if Key(f) in body then Some(body[Key(f)]) else None
  }

  /** A field passes when it is present with an accepted value, or absent and not required. */
  predicate FieldPasses(s: Schema, body: Object, f: Field, partial: bool)
  {
    match Lookup(body, f)
    case None => partial || f == Rate
    case Some(v) => Accepts(s, f, v)
  }

  function Offending(s: Schema, body: Object, partial: bool): set<Field>
  {
    set f | f in AllFields && !FieldPasses(s, body, f, partial)
  }

  /**
   * The part of a body that the schema keeps, keyed by field: unknown keys
   * (`id` among them) are stripped.
   */
  function Known(body: Object): map<Field, Value>
  {
    map f | f in AllFields && Key(f) in body :: body[Key(f)]
  }

  /** What a valid stored movie looks like, stated on typed data. */
  predicate ValidData(s: Schema, d: MovieData)
  {
    && MinYear <= d.year <= s.maxYear
    && d.duration > 0
    && 0.0 <= d.rate <= 10.0
    && s.isUrl(d.poster)
    && forall g :: g in d.genre ==> g in GenreTokens
  }

  /** What a partially valid patch looks like: every present field obeys the rule of ValidData. */
  predicate ValidPatch(s: Schema, p: MoviePatch)
  {
    && (p.year.Some? ==> MinYear <= p.year.value <= s.maxYear)
    && (p.duration.Some? ==> p.duration.value > 0)
    && (p.rate.Some? ==> 0.0 <= p.rate.value <= 10.0)
    && (p.poster.Some? ==> s.isUrl(p.poster.value))
    && (p.genre.Some? ==> forall g :: g in p.genre.value ==> g in GenreTokens)
  }

  function GenreValues(g: seq<string>): seq<Value>
  {
    seq(|g|, i requires 0 <= i < |g| => Str(g[i]))
  }

  function GenreStrings(items: seq<Value>): seq<string>
  {
    seq(|items|, i requires 0 <= i < |items| => if items[i].Str? then items[i].s else "")
  }

  /** The JSON value that serialising field `f` of the data produces. */
  function Encoded(d: MovieData, f: Field): Value
  {
    match f
    case Title => Str(d.title)
    case Year => Num(d.year as real)
    case Director => Str(d.director)
    case Duration => Num(d.duration as real)
    case Rate => Num(d.rate)
    case Poster => Str(d.poster)
    case Genre => Arr(GenreValues(d.genre))
  }

  /** The JSON object (keyed by field) that serialising the data produces. */
  function Encode(d: MovieData): map<Field, Value>
  {
    map f | f in AllFields :: Encoded(d, f)
  }

  /** The JSON value that serialising field `f` of a patch produces, when present. */
  function PatchEncoded(p: MoviePatch, f: Field): Option<Value>
  {
    match f
    case Title => if p.title.Some? then Some(Str(p.title.value)) else None
    case Year => if p.year.Some? then Some(Num(p.year.value as real)) else None
    case Director => if p.director.Some? then Some(Str(p.director.value)) else None
    case Duration => if p.duration.Some? then Some(Num(p.duration.value as real)) else None
    case Rate => if p.rate.Some? then Some(Num(p.rate.value)) else None
    case Poster => if p.poster.Some? then Some(Str(p.poster.value)) else None
    case Genre => if p.genre.Some? then Some(Arr(GenreValues(p.genre.value))) else None
  }

  /** The JSON object that serialising a patch produces: only its present fields. */
  function EncodePatch(p: MoviePatch): map<Field, Value>
  {
    map f | f in AllFields && PatchEncoded(p, f).Some? :: PatchEncoded(p, f).value
  }

  /** The default that full validation fills in when `rate` is absent. */
  function RateDefault(body: Object): map<Field, Value>
  {
    if Key(Rate) in body then map[] else map[Rate := Num(DefaultRate)]
  }

  lemma InAllFields(f: Field)
    ensures f in AllFields
  {
    match f
    case Title => case Year => case Director => case Duration =>
    case Rate => case Poster => case Genre =>
  }

  lemma OffendingEmpty(s: Schema, body: Object, partial: bool)
    requires Offending(s, body, partial) == {}
    ensures forall f :: FieldPasses(s, body, f, partial)
  {
    forall f ensures FieldPasses(s, body, f, partial) {
      InAllFields(f);
      assert f !in Offending(s, body, partial);
    }
  }

  lemma OffendingNonEmpty(s: Schema, body: Object, partial: bool)
    ensures forall f :: f in Offending(s, body, partial) <==> !FieldPasses(s, body, f, partial)
  {
    forall f ensures f in Offending(s, body, partial) <==> !FieldPasses(s, body, f, partial) {
      InAllFields(f);
    }
  }

  /** What "every field passes" says about each key of the body. */
  lemma BodyShape(s: Schema, body: Object, partial: bool)
    requires forall f :: FieldPasses(s, body, f, partial)
    ensures forall f :: Key(f) in body ==> Accepts(s, f, body[Key(f)])
    ensures !partial ==> forall f :: f != Rate ==> Key(f) in body
  {
    forall f | Key(f) in body ensures Accepts(s, f, body[Key(f)]) {
      assert FieldPasses(s, body, f, partial);
    }
    forall f | !partial && f != Rate ensures Key(f) in body {
      assert FieldPasses(s, body, f, partial);
    }
  }

  lemma GenreRoundTrip(items: seq<Value>)
    requires forall i :: 0 <= i < |items| ==> items[i].Str?
    ensures GenreValues(GenreStrings(items)) == items
  {
  }

  /** The typed data read off a body on which every field passes full validation. */
  function DecodeMovie(s: Schema, body: Object): (d: MovieData)
    requires forall f :: FieldPasses(s, body, f, false)
  {
    BodyShape(s, body, false);
    MovieData(
      body[Key(Title)].s,
      body[Key(Year)].n.Floor,
      body[Key(Director)].s,
      body[Key(Duration)].n.Floor,
      if Key(Rate) in body then body[Key(Rate)].n else DefaultRate,
      body[Key(Poster)].s,
      GenreStrings(body[Key(Genre)].items))
  }

  lemma MovieDecoded(s: Schema, body: Object)
    requires forall f :: FieldPasses(s, body, f, false)
    ensures ValidData(s, DecodeMovie(s, body))
    ensures Encode(DecodeMovie(s, body)) == Known(body) + RateDefault(body)
  {
    BodyShape(s, body, false);
    var d := DecodeMovie(s, body);
    var lhs, rhs := Encode(d), Known(body) + RateDefault(body);
    GenreRoundTrip(body[Key(Genre)].items);
    forall f ensures f in lhs && f in rhs && lhs[f] == rhs[f] {
      InAllFields(f);
      match f
      case Title => case Year => case Director => case Duration =>
      case Rate => case Poster => case Genre =>
    }
    assert lhs.Keys == rhs.Keys;
  }

  /**
   * Full validation (validateMovie). It succeeds exactly when every required
   * field is present and valid and `rate` is absent or valid; the data then
   * serialises to the known part of the body with `rate` defaulted to 5. On
   * failure the errors are exactly the offending fields.
   */
  function ValidateMovie(s: Schema, body: Object): (r: Result<MovieData>)
    ensures r.Ok? <==> forall f :: FieldPasses(s, body, f, false)
    ensures r.Invalid? ==> r.errors != {} && forall f :: f in r.errors <==> !FieldPasses(s, body, f, false)
    ensures r.Ok? ==> ValidData(s, r.value)
    ensures r.Ok? ==> Encode(r.value) == Known(body) + RateDefault(body)
  {
    var bad := Offending(s, body, false);
    OffendingNonEmpty(s, body, false);
    if bad != {} then
      Invalid(bad)
    else
      OffendingEmpty(s, body, false);
      MovieDecoded(s, body);
      Ok(DecodeMovie(s, body))
  }

  function Decoded<T>(body: Object, f: Field, dec: Value -> T): Option<T>
  {
    if Key(f) in body then Some(dec(body[Key(f)])) else None
  }

  /** The typed patch read off a body: the present fields only. */
  function DecodePatch(body: Object): MoviePatch
  {
    MoviePatch(
      Decoded(body, Title, (v: Value) => if v.Str? then v.s else ""),
      Decoded(body, Year, (v: Value) => if v.Num? then v.n.Floor else 0),
      Decoded(body, Director, (v: Value) => if v.Str? then v.s else ""),
      Decoded(body, Duration, (v: Value) => if v.Num? then v.n.Floor else 0),
      Decoded(body, Rate, (v: Value) => if v.Num? then v.n else 0.0),
      Decoded(body, Poster, (v: Value) => if v.Str? then v.s else ""),
      Decoded(body, Genre, (v: Value) => if v.Arr? then GenreStrings(v.items) else []))
  }

  lemma PatchDecoded(s: Schema, body: Object)
    requires forall f :: FieldPasses(s, body, f, true)
    ensures ValidPatch(s, DecodePatch(body))
    ensures EncodePatch(DecodePatch(body)) == Known(body)
  {
    BodyShape(s, body, true);
    var p := DecodePatch(body);
    var lhs, rhs := EncodePatch(p), Known(body);
    if Key(Genre) in body {
      GenreRoundTrip(body[Key(Genre)].items);
    }
    forall f ensures (f in lhs <==> f in rhs) && (f in lhs ==> lhs[f] == rhs[f]) {
      InAllFields(f);
      match f
      case Title => case Year => case Director => case Duration =>
      case Rate => case Poster => case Genre =>
    }
    assert lhs.Keys == rhs.Keys;
  }

  /**
   * Partial validation (validatePartialMovie, used by PATCH). It succeeds
   * exactly when every present field is valid; the patch then serialises to
   * the known part of the body, with no default for `rate`. On failure the
   * errors are exactly the present fields that are invalid.
   */
  function ValidatePartial(s: Schema, body: Object): (r: Result<MoviePatch>)
    ensures r.Ok? <==> forall f :: FieldPasses(s, body, f, true)
    ensures r.Invalid? ==> r.errors != {} && forall f :: f in r.errors <==> !FieldPasses(s, body, f, true)
    ensures r.Ok? ==> ValidPatch(s, r.value)
    ensures r.Ok? ==> EncodePatch(r.value) == Known(body)
  {
    var bad := Offending(s, body, true);
    OffendingNonEmpty(s, body, true);
    if bad != {} then
      Invalid(bad)
    else
      OffendingEmpty(s, body, true);
      PatchDecoded(s, body);
      Ok(DecodePatch(body))
  }

  /** The merge `{...old, ...patch}` on the data: present fields overwrite, absent ones stay. */
  function Overwrite(d: MovieData, p: MoviePatch): MovieData
  {
    MovieData(
      p.title.GetOr(d.title),
      p.year.GetOr(d.year),
      p.director.GetOr(d.director),
      p.duration.GetOr(d.duration),
      p.rate.GetOr(d.rate),
      p.poster.GetOr(d.poster),
      p.genre.GetOr(d.genre))
  }

  // ----- Properties relating the two entry points, the merge and serialisation -----

  lemma KeyInjective(f: Field, g: Field)
    ensures Key(f) == Key(g) ==> f == g
  {
    match f
    case Title => case Year => case Director => case Duration =>
    case Rate => case Poster => case Genre =>
  }

  /** The request body that carries the given values under the schema's keys. */
  function ToObject(fields: map<Field, Value>): (body: Object)
    ensures forall f :: Key(f) in body <==> f in fields
    ensures forall f :: f in fields ==> body[Key(f)] == fields[f]
  {
    forall f, g ensures Key(f) == Key(g) ==> f == g { KeyInjective(f, g); }
    map f | f in fields :: Key(f) := fields[f]
  }

  lemma GenreValuesInjective(a: seq<string>, b: seq<string>)
    requires GenreValues(a) == GenreValues(b)
    ensures a == b
  {
    assert |a| == |GenreValues(a)|;
    forall i | 0 <= i < |a| ensures a[i] == b[i] {
      assert GenreValues(a)[i] == Str(a[i]);
      assert GenreValues(b)[i] == Str(b[i]);
    }
  }

  /** Serialisation loses nothing: equal encodings come from equal data. */
  lemma EncodeInjective(a: MovieData, b: MovieData)
    requires Encode(a) == Encode(b)
    ensures a == b
  {
    forall f ensures Encoded(a, f) == Encoded(b, f) {
      InAllFields(f);
      assert Encode(a)[f] == Encoded(a, f) && Encode(b)[f] == Encoded(b, f);
    }
    assert Encoded(a, Title) == Encoded(b, Title);
    assert Encoded(a, Year) == Encoded(b, Year);
    assert Encoded(a, Director) == Encoded(b, Director);
    assert Encoded(a, Duration) == Encoded(b, Duration);
    assert Encoded(a, Rate) == Encoded(b, Rate);
    assert Encoded(a, Poster) == Encoded(b, Poster);
    assert Encoded(a, Genre) == Encoded(b, Genre);
    GenreValuesInjective(a.genre, b.genre);
  }

  /** Stripping a serialised record keeps all of it. */
  lemma KnownOfEncoded(d: MovieData)
    ensures Known(ToObject(Encode(d))) == Encode(d)
  {
    var body := ToObject(Encode(d));
    forall f ensures f in Known(body) && f in Encode(d) && Known(body)[f] == Encode(d)[f] {
      InAllFields(f);
    }
  }

  /** Every field of a serialised valid record passes its rule. */
  lemma ValidEncodingPasses(s: Schema, d: MovieData)
    requires ValidData(s, d)
    ensures forall f :: FieldPasses(s, ToObject(Encode(d)), f, false)
  {
    var body := ToObject(Encode(d));
    forall f ensures FieldPasses(s, body, f, false) {
      InAllFields(f);
      assert body[Key(f)] == Encoded(d, f);
      if f == Genre {
        forall i | 0 <= i < |d.genre| ensures GenreValues(d.genre)[i].s in GenreTokens {
          assert d.genre[i] in d.genre;
        }
      }
    }
  }

  /**
   * Round trip: a serialised record passes full validation exactly when it is
   * valid, and then validation gives the record's data back unchanged.
   */
  lemma {:induction false} ValidDataRoundTrip(s: Schema, d: MovieData)
    ensures ValidateMovie(s, ToObject(Encode(d))).Ok? <==> ValidData(s, d)
    ensures ValidData(s, d) ==> ValidateMovie(s, ToObject(Encode(d))) == Ok(d)
  {
    var body := ToObject(Encode(d));
    if ValidData(s, d) {
      ValidEncodingPasses(s, d);
    }
    var r := ValidateMovie(s, body);
    if r.Ok? {
      KnownOfEncoded(d);
      InAllFields(Rate);
      assert RateDefault(body) == map[];
      assert Known(body) + RateDefault(body) == Known(body);
      EncodeInjective(r.value, d);
    }
  }

  /**
   * Everything full validation accepts, partial validation accepts; and every
   * field partial validation rejects, full validation rejects too.
   */
  lemma FullImpliesPartial(s: Schema, body: Object)
    ensures ValidateMovie(s, body).Ok? ==> ValidatePartial(s, body).Ok?
    ensures ValidatePartial(s, body).Invalid? ==>
      ValidateMovie(s, body).Invalid? && ValidatePartial(s, body).errors <= ValidateMovie(s, body).errors
  {
    forall f | FieldPasses(s, body, f, false) ensures FieldPasses(s, body, f, true) { }
  }

  /** The merge of app.js on the data is the object spread `{...old, ...patch}` on the JSON. */
  lemma {:induction false} OverwriteIsSpread(d: MovieData, p: MoviePatch)
    ensures Encode(Overwrite(d, p)) == Encode(d) + EncodePatch(p)
  {
    var lhs, rhs := Encode(Overwrite(d, p)), Encode(d) + EncodePatch(p);
    forall f ensures f in lhs && f in rhs && lhs[f] == rhs[f] {
      InAllFields(f);
      match f
      case Title => case Year => case Director => case Duration =>
      case Rate => case Poster => case Genre =>
    }
    assert lhs.Keys == rhs.Keys;
  }

  /** Merging a partially valid patch over fully valid data keeps it fully valid. */
  lemma OverwriteValid(s: Schema, d: MovieData, p: MoviePatch)
    requires ValidData(s, d) && ValidPatch(s, p)
    ensures ValidData(s, Overwrite(d, p))
  {
  }

  /**
   * A body that passes full validation, applied as a patch, replaces every
   * field of the old data except `rate` when the body has none.
   */
  lemma {:induction false} FullPatchReplaces(s: Schema, body: Object, stored: MovieData)
    requires ValidateMovie(s, body).Ok?
    ensures ValidatePartial(s, body).Ok?
    ensures Overwrite(stored, ValidatePartial(s, body).value)
      == if Key(Rate) in body then ValidateMovie(s, body).value
         else ValidateMovie(s, body).value.(rate := stored.rate)
  {
    FullImpliesPartial(s, body);
    var d, p := ValidateMovie(s, body).value, ValidatePartial(s, body).value;
    var want := if Key(Rate) in body then d else d.(rate := stored.rate);
    OverwriteIsSpread(stored, p);
    BodyShape(s, body, false);
    var lhs, rhs := Encode(Overwrite(stored, p)), Encode(want);
    forall f ensures f in lhs && f in rhs && lhs[f] == rhs[f] {
      InAllFields(f);
      assert Encode(d)[f] == (Known(body) + RateDefault(body))[f];
      if f != Rate || Key(Rate) in body {
        assert f in Known(body);
        assert f in EncodePatch(p);
      } else {
        assert f !in EncodePatch(p);
      }
    }
    assert lhs == rhs;
    EncodeInjective(Overwrite(stored, p), want);
  }

  /** An empty body fails full validation on exactly the required fields. */
  lemma EmptyBodyErrors(s: Schema)
    ensures ValidateMovie(s, map[]) == Invalid({Title, Year, Director, Duration, Poster, Genre})
  {
    var r := ValidateMovie(s, map[]);
    assert !FieldPasses(s, map[], Title, false);
    assert r.errors == {Title, Year, Director, Duration, Poster, Genre};
  }

  /**
   * The schema checks no text for emptiness and sets no minimum length on
   * `genre`: empty title, director and genre list pass full validation.
   */
  lemma EmptyTextAndGenreAccepted(s: Schema, year: int, duration: int, poster: string)
    requires MinYear <= year <= s.maxYear && duration > 0 && s.isUrl(poster)
    ensures ValidateMovie(s, ToObject(Encode(MovieData("", year, "", duration, DefaultRate, poster, []))))
      == Ok(MovieData("", year, "", duration, DefaultRate, poster, []))
  {
    ValidDataRoundTrip(s, MovieData("", year, "", duration, DefaultRate, poster, []));
  }
}
