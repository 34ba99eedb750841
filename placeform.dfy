/**
 * The small list operations of the place map: the sensory-tag editor and the
 * missing-field check of the new-place form, the replacement of a voted place and
 * the review list of the detail view.
 */
module PlaceForm {
  import opened Wrappers
  import opened Entities
  import opened Collections
  import opened JsText
  import opened Ratings

  /** Enter or comma in the tag input: the trimmed value is appended unless it is empty or already there. */
  function AddTag(tags: seq<string>, input: string): (r: seq<string>)
    ensures var v := Trim(input);
      r == if v != "" && v !in tags then tags + [v] else tags
    ensures NoDup(tags) ==> NoDup(r)
    ensures forall t :: t in r <==> t in tags || (t == Trim(input) && t != "")
  {
    var v := Trim(input);
    if v != "" && v !in tags then tags + [v] else tags
  }

  /** The chip's remove button: `tags.filter((_, i) => i !== idx)`. */
  function RemoveTagAt(tags: seq<string>, idx: int): (r: seq<string>)
    ensures 0 <= idx < |tags| ==> |r| == |tags| - 1
    ensures !(0 <= idx < |tags|) ==> r == tags
    ensures 0 <= idx < |tags| ==>
      (forall k :: 0 <= k < idx ==> r[k] == tags[k]) && (forall k :: idx <= k < |r| ==> r[k] == tags[k + 1])
  {
    if 0 <= idx < |tags| then tags[..idx] + tags[idx + 1..] else tags
  }

  /** Removing a tag keeps the list free of duplicates and drops exactly that tag. */
  lemma RemoveTagAtKeepsNoDup(tags: seq<string>, idx: int)
    requires NoDup(tags) && 0 <= idx < |tags|
    ensures NoDup(RemoveTagAt(tags, idx))
    ensures tags[idx] !in RemoveTagAt(tags, idx)
    ensures forall t :: t in RemoveTagAt(tags, idx) <==> t in tags && t != tags[idx]
  {
    var r := RemoveTagAt(tags, idx);
    forall i, j | 0 <= i < j < |r| ensures r[i] != r[j] {
      var i', j' := if i < idx then i else i + 1, if j < idx then j else j + 1;
      assert r[i] == tags[i'] && r[j] == tags[j'] && i' < j';
    }
    forall t | t in r ensures t in tags && t != tags[idx] {
      var k :| 0 <= k < |r| && r[k] == t;
      var k' := if k < idx then k else k + 1;
      assert tags[k'] == t && k' != idx;
    }
    forall t | t in tags && t != tags[idx] ensures t in r {
      var k :| 0 <= k < |tags| && tags[k] == t;
      assert k != idx;
      if k < idx {
        assert r[k] == t;
      } else {
        assert r[k - 1] == t;
      }
    }
  }

  /** Removing the chip just added gives back the list before the addition. */
  lemma RemoveUndoesAdd(tags: seq<string>, input: string)
    requires Trim(input) != "" && Trim(input) !in tags
    ensures RemoveTagAt(AddTag(tags, input), |tags|) == tags
  {
    assert (tags + [Trim(input)])[..|tags|] == tags;
  }

  /** The new-place form; a coordinate is `null` until the map is clicked. */
  datatype NuevoLugar = NuevoLugar(
    nombre: string,
    direccion: string,
    latitud: Option<real>,
    longitud: Option<real>,
    tipo: string,
    provincia: string,
    descripcion: string,
    etiquetasSensoriales: seq<string>,
    certificadoPor: string)

  /** `!value` for a coordinate: `null` and `0` are missing. */
  predicate CoordMissing(c: Option<real>) {
    c.None? || c.value == 0.0
  }

  /** The `faltantes` list of the warning, in the order of the checks. */
  function Faltantes(n: NuevoLugar): (r: seq<string>)
    ensures ("nombre" in r) <==> n.nombre == ""
    ensures ("dirección" in r) <==> n.direccion == ""
    ensures ("ubicación en el mapa" in r) <==> CoordMissing(n.latitud) || CoordMissing(n.longitud)
    ensures NoDup(r)
    ensures IsSubsequence(r, ["nombre", "dirección", "ubicación en el mapa"])
  {
    var falta0 := if n.nombre == "" then ["nombre"] else [];
    var falta1 := falta0 + if n.direccion == "" then ["dirección"] else [];
    falta1 + if CoordMissing(n.latitud) || CoordMissing(n.longitud) then ["ubicación en el mapa"] else []
  }

  /** The body POSTed for a complete form; empty optional fields are sent as `""`. */
  datatype Payload = Payload(
    nombre: string,
    direccion: string,
    latitud: real,
    longitud: real,
    tipo: string,
    provincia: string,
    descripcion: string,
    etiquetasSensoriales: seq<string>,
    certificacion: string)

  /** What submitting the form does: warn about the missing fields, or POST the payload. */
  datatype SubmitAction = Warn(faltantes: seq<string>) | Post(payload: Payload)

  /** `handleSubmit` up to the request. */
  function HandleSubmit(n: NuevoLugar): (a: SubmitAction)
    ensures a.Warn? <==> Faltantes(n) != []
    ensures a.Warn? ==> a.faltantes == Faltantes(n)
    ensures a.Post? ==>
      && n.latitud == Some(a.payload.latitud) && n.longitud == Some(a.payload.longitud)
      && a.payload.nombre == n.nombre != "" && a.payload.direccion == n.direccion != ""
      && a.payload.tipo == n.tipo && a.payload.provincia == n.provincia && a.payload.descripcion == n.descripcion
      && a.payload.etiquetasSensoriales == n.etiquetasSensoriales
      && a.payload.certificacion == (if n.certificadoPor != "" then n.certificadoPor else "Comunidad")
  {
    if n.nombre == "" || n.direccion == "" || CoordMissing(n.latitud) || CoordMissing(n.longitud) then
      Warn(Faltantes(n))
    else
      Post(Payload(n.nombre, n.direccion, n.latitud.value, n.longitud.value, n.tipo, n.provincia,
                   n.descripcion, n.etiquetasSensoriales,
                   if n.certificadoPor != "" then n.certificadoPor else "Comunidad"))
  }

  /** A payload always names a certification, so `getCert` of the stored place never falls back to its default. */
  lemma PayloadNamesCertification(n: NuevoLugar)
    requires HandleSubmit(n).Post?
    ensures HandleSubmit(n).payload.certificacion != ""
  {
  }

  /** `prev.map((l) => (l._id === data._id ? data : l))` after a vote. */
  function Votar(lugares: seq<Place>, data: Place): (r: seq<Place>)
    ensures |r| == |lugares|
    ensures forall i :: 0 <= i < |r| ==> r[i] == if lugares[i].id == data.id then data else lugares[i]
  {
    seq(|lugares|, i requires 0 <= i < |lugares| => if lugares[i].id == data.id then data else lugares[i])
  }

  /** A vote keeps every id in its position, and applying the same response again changes nothing. */
  lemma VotarKeepsIdsAndIsIdempotent(lugares: seq<Place>, data: Place)
    ensures forall i :: 0 <= i < |lugares| ==> Votar(lugares, data)[i].id == lugares[i].id
    ensures Votar(Votar(lugares, data), data) == Votar(lugares, data)
  {
  }

  /** A response for an id that is not listed leaves the list as it was. */
  lemma VotarUnknownId(lugares: seq<Place>, data: Place)
    requires forall l :: l in lugares ==> l.id != data.id
    ensures Votar(lugares, data) == lugares
  {
    assert forall i :: 0 <= i < |lugares| ==> lugares[i] in lugares;
  }

  /** `.slice(-3).reverse()` of the place's reviews: the last three, newest first. */
  function UltimasResenas(resenas: seq<Review>, id: string): (r: seq<Review>)
    ensures var f := ReviewsOf(resenas, id);
      && |r| == (if |f| < 3 then |f| else 3)
      && forall k :: 0 <= k < |r| ==> r[k] == f[|f| - 1 - k]
  {
    var f := ReviewsOf(resenas, id);
    Reverse(if |f| <= 3 then f else f[|f| - 3..])
  }

  /** The detail view says "no opinions yet" exactly when it lists none. */
  lemma NoOpinionsIffEmpty(resenas: seq<Review>, id: string)
    ensures UltimasResenas(resenas, id) == [] <==> forall r :: r in resenas ==> r.lugar != Some(id)
  {
    var f := ReviewsOf(resenas, id);
    if f != [] {
      assert f[0] in f;
    }
  }
}
