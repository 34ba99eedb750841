/**
 * The records the client receives from the API. A missing string field of a place
 * is the empty string (the client only ever tests such fields for truthiness);
 * references and scores of a review may be absent.
 */
module Entities {
  import opened Wrappers

  /** A mapped place. `id` is the document's `_id`. */
  datatype Place = Place(
    id: string,
    nombre: string,
    direccion: string,
    descripcion: string,
    tipo: string,
    provincia: string,
    certificacion: string,
    certificadoPor: string,
    latitud: real,
    longitud: real,
    etiquetasSensoriales: seq<string>)

  /**
   * A review. `lugar` and `usuario` stand for `r.lugar?._id || r.lugar` and
   * `r.usuario?._id || r.usuario`: the referenced id, whether the API sent a bare id
   * or a populated document; `None` is `undefined`.
   */
  datatype Review = Review(
    lugar: Option<string>,
    usuario: Option<string>,
    puntuacion: Option<int>,
    comentario: string)

  /** The per-place aggregate `{ avg, count }`. */
  datatype Rating = Rating(avg: real, count: nat)

  /** The place id a review is filed under by the aggregation: absent when it is missing or `""`. */
  function PlaceKey(r: Review): (k: Option<string>)
    ensures k.Some? <==> r.lugar.Some? && r.lugar.value != ""
    ensures k.Some? ==> k.value == r.lugar.value
  {
    if r.lugar.Some? && r.lugar.value != "" then r.lugar else None
  }

  /** `r.puntuacion || 0`: a missing score counts as 0. */
  function Score(r: Review): (s: int)
    ensures r.puntuacion.Some? ==> s == r.puntuacion.value
    ensures r.puntuacion.None? ==> s == 0
  {
    r.puntuacion.GetOr(0)
  }
}
