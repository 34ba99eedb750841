/**
 * `lugaresFiltrados` and the option lists of the filter menus: a place survives when
 * it passes every active filter, and an unset filter passes every place.
 */
module Filtering {
  import opened Entities
  import opened Collections
  import opened JsText
  import opened Ratings

  /** `getCert`: `certificacion`, else `certificadoPor`, else `"Comunidad"` (older records use `certificadoPor`). */
  function GetCert(l: Place): (c: string)
    ensures c != ""
    ensures l.certificacion != "" ==> c == l.certificacion
    ensures l.certificacion == "" && l.certificadoPor != "" ==> c == l.certificadoPor
    ensures l.certificacion == "" && l.certificadoPor == "" ==> c == "Comunidad"
  {
    if l.certificacion != "" then l.certificacion
    else if l.certificadoPor != "" then l.certificadoPor
    else "Comunidad"
  }

  /** The certification class the filter compares: anything other than `"APADEA"` is `"Comunidad"`. */
  function CertClass(l: Place): (c: string)
    ensures c == "APADEA" || c == "Comunidad"
    ensures c == "APADEA" <==> GetCert(l) == "APADEA"
  {
    if GetCert(l) == "APADEA" then "APADEA" else "Comunidad"
  }

  /** The active filters; `""` (or 0 for `minRating`) means the filter is off. */
  datatype Filters = Filters(q: string, tipo: string, provincia: string, certificado: string,
                             minRating: int, inicial: string)

  /** The filter state after "Limpiar": every filter off. */
  const Unset := Filters("", "", "", "", 0, "")

  /** A case-insensitive hit of the query in the name, the address or the description. */
  predicate MatchesQuery(f: Filters, l: Place) {
    f.q == "" ||
    var q := Lower(f.q);
    Contains(Lower(l.nombre), q) || Contains(Lower(l.direccion), q) || Contains(Lower(l.descripcion), q)
  }

  predicate MatchesTipo(f: Filters, l: Place) {
    f.tipo == "" || l.tipo == f.tipo
  }

  predicate MatchesProvincia(f: Filters, l: Place) {
    f.provincia == "" || l.provincia == f.provincia
  }

  predicate MatchesCert(f: Filters, l: Place) {
    f.certificado == "" || CertClass(l) == f.certificado
  }

  /** The first character of the trimmed name, upper-cased, is the chosen initial. */
  predicate MatchesInicial(f: Filters, l: Place) {
    f.inicial == "" || Upper(CharAt0(Trim(l.nombre))) == Upper(f.inicial)
  }

  /** The place's average (0 when it has no reviews) is not below the minimum. */
  predicate MeetsRating(f: Filters, ratings: map<string, Rating>, l: Place) {
    !(AvgOf(ratings, l.id) < f.minRating as real)
  }

  /** The conjunction `lugares.filter` applies to each place. */
  predicate Keep(f: Filters, ratings: map<string, Rating>, l: Place) {
    && MatchesQuery(f, l)
    && MatchesTipo(f, l)
    && MatchesProvincia(f, l)
    && MatchesCert(f, l)
    && MatchesInicial(f, l)
    && MeetsRating(f, ratings, l)
  }

  /**
   * `lugaresFiltrados`: the places that pass every filter, in their original order,
   * and every place that passes them all.
   */
  function LugaresFiltrados(lugares: seq<Place>, f: Filters, ratings: map<string, Rating>): (r: seq<Place>)
    ensures IsSubsequence(r, lugares)
    ensures forall l :: l in r <==> l in lugares && Keep(f, ratings, l)
    ensures forall l :: multiset(r)[l] == if Keep(f, ratings, l) then multiset(lugares)[l] else 0
  {
    FilterMultiplicity(lugares, (l: Place) => Keep(f, ratings, l));
    Filter(lugares, (l: Place) => Keep(f, ratings, l))
  }

  /**
   * With every filter off, no place is dropped, provided no average is negative
   * (`rating < 0` would still exclude a place whose average is below 0).
   */
  lemma UnsetKeepsAll(lugares: seq<Place>, ratings: map<string, Rating>)
    requires forall l :: l in lugares ==> AvgOf(ratings, l.id) >= 0.0
    ensures LugaresFiltrados(lugares, Unset, ratings) == lugares
  {
    FilterKeepsAll(lugares, (l: Place) => Keep(Unset, ratings, l));
  }

  /** A place whose average is negative is dropped even with every filter off. */
  lemma NegativeAverageDroppedWhenUnset(l: Place, ratings: map<string, Rating>)
    requires AvgOf(ratings, l.id) < 0.0
    ensures LugaresFiltrados([l], Unset, ratings) == []
  {
    assert !Keep(Unset, ratings, l);
    assert l !in LugaresFiltrados([l], Unset, ratings);
  }

  /** Averages of non-negative scores are non-negative, so the open filter keeps every place of such a table. */
  lemma NonNegativeScoresGiveNonNegativeAverages(rs: seq<Review>, id: string)
    requires forall r :: r in rs ==> Score(r) >= 0
    requires CountFor(rs, id) > 0
    ensures SumFor(rs, id) as real / CountFor(rs, id) as real >= 0.0
  {
    SumAtLeast(rs, id, 0);
    DivideBounds(SumFor(rs, id) as real, CountFor(rs, id) as real, 0.0, SumFor(rs, id) as real / CountFor(rs, id) as real);
  }

  /** Applying the same filters to the filtered list changes nothing. */
  lemma FilterTwice(lugares: seq<Place>, f: Filters, ratings: map<string, Rating>)
    ensures LugaresFiltrados(LugaresFiltrados(lugares, f, ratings), f, ratings) == LugaresFiltrados(lugares, f, ratings)
  {
    FilterIdempotent(lugares, (l: Place) => Keep(f, ratings, l));
  }

  /** The query filter is a case-insensitive occurrence test on one of the three texts. */
  lemma QueryHitOccurs(f: Filters, l: Place)
    requires f.q != "" && MatchesQuery(f, l)
    ensures exists i :: OccursAt(Lower(l.nombre), Lower(f.q), i) || OccursAt(Lower(l.direccion), Lower(f.q), i)
                        || OccursAt(Lower(l.descripcion), Lower(f.q), i)
  {
    var q := Lower(f.q);
    ContainsIffOccurs(Lower(l.nombre), q);
    ContainsIffOccurs(Lower(l.direccion), q);
    ContainsIffOccurs(Lower(l.descripcion), q);
  }

  /** `Array.from(new Set(values.filter(Boolean)))`: the distinct non-empty values in first-appearance order. */
  function DistinctNonEmpty(values: seq<string>): (r: seq<string>)
    ensures NoDup(r)
    ensures forall v :: v in r <==> v in values && v != ""
  {
    Dedup(Filter(values, NonEmpty))
  }

  /** `tipos`: the distinct non-empty place types, for the type menu. */
  function Tipos(lugares: seq<Place>): (r: seq<string>)
    ensures NoDup(r)
    ensures forall t :: t in r <==> t != "" && exists l :: l in lugares && l.tipo == t
  {
    var values := seq(|lugares|, i requires 0 <= i < |lugares| => lugares[i].tipo);
    assert forall t :: t in values <==> exists l :: l in lugares && l.tipo == t by {
      forall t | t in values ensures exists l :: l in lugares && l.tipo == t {
        var i :| 0 <= i < |values| && values[i] == t;
        assert lugares[i] in lugares;
      }
      forall t | exists l :: l in lugares && l.tipo == t ensures t in values {
        var l :| l in lugares && l.tipo == t;
        var i :| 0 <= i < |lugares| && lugares[i] == l;
        assert values[i] == t;
      }
    }
    DistinctNonEmpty(values)
  }

  /** `provincias`: the distinct non-empty provinces, for the province menu. */
  function Provincias(lugares: seq<Place>): (r: seq<string>)
    ensures NoDup(r)
    ensures forall p :: p in r <==> p != "" && exists l :: l in lugares && l.provincia == p
  {
    var values := seq(|lugares|, i requires 0 <= i < |lugares| => lugares[i].provincia);
    assert forall p :: p in values <==> exists l :: l in lugares && l.provincia == p by {
      forall p | p in values ensures exists l :: l in lugares && l.provincia == p {
        var i :| 0 <= i < |values| && values[i] == p;
        assert lugares[i] in lugares;
      }
      forall p | exists l :: l in lugares && l.provincia == p ensures p in values {
        var l :| l in lugares && l.provincia == p;
        var i :| 0 <= i < |lugares| && lugares[i] == l;
        assert values[i] == p;
      }
    }
    DistinctNonEmpty(values)
  }

  /** The menu lists keep first-appearance order among the non-empty values. */
  lemma DistinctNonEmptyOrder(values: seq<string>)
    ensures InFirstAppearanceOrder(DistinctNonEmpty(values), Filter(values, NonEmpty))
  {
    DedupFirstAppearance(Filter(values, NonEmpty));
  }
}
