/**
 * The home view: favourite techniques, kept as a set persisted in local storage,
 * and the custom technique card built from the upload form.
 */
module Home {
  import opened Collections
  import opened JsText

  /** What `localStorage.getItem("fav_tecnicas")` yields once parsed. */
  datatype Stored = Absent | Unparseable | JsonArray(items: seq<string>)

  /**
   * The `favs` initialiser: `new Set(JSON.parse(stored || "[]"))`, and the empty set
   * when parsing fails.
   */
  function LoadFavs(stored: Stored): (r: seq<string>)
    ensures NoDup(r)
    ensures stored.JsonArray? ==> forall x :: x in r <==> x in stored.items
    ensures !stored.JsonArray? ==> r == []
  {
    match stored
    case Absent => Dedup([])
    case Unparseable => []
    case JsonArray(items) => Dedup(items)
  }

  function Other(id: string): string -> bool {
    (x: string) => x != id
  }

  /**
   * The set after `toggleFav(id)`: `delete` when present, otherwise `add` at the end.
   * It flips the membership of `id` and of nothing else, keeps the set duplicate-free,
   * and deleting keeps the order of the other members.
   */
  function Toggled(favs: seq<string>, id: string): (r: seq<string>)
    ensures (id in r) <==> id !in favs
    ensures forall x :: x != id ==> (x in r <==> x in favs)
    ensures NoDup(favs) ==> NoDup(r)
    ensures id in favs ==> IsSubsequence(r, favs)
  {
    if id in favs then
      FilterNoDup(favs, Other(id));
      Filter(favs, Other(id))
    else favs + [id]
  }

  /** Toggling the same id twice restores the set; when the id was absent it restores the exact sequence. */
  lemma ToggledTwice(favs: seq<string>, id: string)
    ensures forall x :: x in Toggled(Toggled(favs, id), id) <==> x in favs
    ensures id !in favs ==> Toggled(Toggled(favs, id), id) == favs
  {
    if id !in favs {
      FilterAppend(favs, [id], Other(id));
      FilterKeepsAll(favs, Other(id));
      assert Filter([id], Other(id)) == [] by {
        assert [id][1..] == [];
      }
    }
  }

  /** What `toggleFav` writes is read back as the same set on the next load. */
  lemma PersistedFavsReload(favs: seq<string>, id: string)
    requires NoDup(favs)
    ensures LoadFavs(JsonArray(Toggled(favs, id))) == Toggled(favs, id)
  {
    DedupOfNoDup(Toggled(favs, id));
  }

  /** The favourites state of the home view and the storage entry it writes. */
  class Favoritos {
    var favs: seq<string>
    var stored: Stored

    ghost predicate Valid()
      reads this
    {
      NoDup(favs)
    }

    /** The lazy `useState` initialiser. */
    constructor (saved: Stored)
      ensures Valid()
      ensures favs == LoadFavs(saved) && stored == saved
    {
      favs := LoadFavs(saved);
      stored := saved;
    }

    /**
     * `toggleFav(id)`: clones the set, adds or deletes `id`, writes the clone to storage
     * (a failing write, `writable == false`, is ignored) and makes it the new state.
     */
    method ToggleFav(id: string, writable: bool)
      requires Valid()
      modifies this
      ensures Valid()
      ensures favs == Toggled(old(favs), id)
      ensures stored == if writable then JsonArray(favs) else old(stored)
    {
      var next := favs;
      if id in next {
        next := Filter(next, Other(id));
      } else {
        next := next + [id];
      }
      assert next == Toggled(favs, id);
      if writable {
        stored := JsonArray(next);
      }
      favs := next;
    }
  }

  /** One self-regulation technique card. */
  datatype Tecnica = Tecnica(id: string, titulo: string, desc: string, img: string,
                             tags: seq<string>, steps: seq<string>, source: string)

  /** The custom-technique form; `imgUrl` is the object URL of the chosen image. */
  datatype NewTec = NewTec(titulo: string, desc: string, tags: string, imgUrl: string)

  const EmptyNewTec := NewTec("", "", "", "")

  /** Trims each piece. */
  function TrimAll(pieces: seq<string>): (r: seq<string>)
    ensures |r| == |pieces|
    ensures forall i :: 0 <= i < |pieces| ==> r[i] == Trim(pieces[i])
  {
    seq(|pieces|, i requires 0 <= i < |pieces| => Trim(pieces[i]))
  }

  /** Trimmed pieces of a comma split are comma-free and trimmed. */
  lemma TrimAllClean(pieces: seq<string>)
    requires forall p :: p in pieces ==> ',' !in p
    ensures forall t :: t in TrimAll(pieces) ==> ',' !in t && Trim(t) == t
  {
    var trimmed := TrimAll(pieces);
    forall t | t in trimmed ensures ',' !in t && Trim(t) == t {
      var i :| 0 <= i < |pieces| && trimmed[i] == t;
      assert pieces[i] in pieces;
      TrimKeepsCharacters(pieces[i]);
      TrimmedIsTrimmed(pieces[i]);
    }
  }

  /**
   * The card's tags: the comma-separated pieces, trimmed, without the empty ones, in
   * order and each as often as it occurs; `["personalizada"]` for no input.
   */
  function ParseTags(tags: string): (r: seq<string>)
    ensures tags == "" ==> r == ["personalizada"]
    ensures tags != "" ==>
      var pieces := TrimAll(Split(tags, ','));
      && IsSubsequence(r, pieces)
      && (forall t :: t in r <==> t in pieces && t != "")
      && (forall t :: multiset(r)[t] == if t != "" then multiset(pieces)[t] else 0)
    ensures tags != "" ==> forall t :: t in r ==> t != "" && ',' !in t && Trim(t) == t
  {
    if tags == "" then ["personalizada"]
    else
      var pieces := Split(tags, ',');
      var trimmed := TrimAll(pieces);
      TrimAllClean(pieces);
      FilterMultiplicity(trimmed, NonEmpty);
      Filter(trimmed, NonEmpty)
  }

  /** A tag string of only separators and spaces gives no tags at all, not the default. */
  lemma BlankTagsGiveNone()
    ensures ParseTags(" , ") == []
  {
    assert " , " == " " + [','] + " ";
    SplitAtSeparator(" ", " ", ',');
    SplitNoSeparator(" ", ',');
    var pieces := Split(" , ", ',');
    assert pieces == [" ", " "];
    TrimAllSpace(" ");
    var trimmed := TrimAll(pieces);
    assert trimmed == ["", ""];
    var r := Filter(trimmed, NonEmpty);
    assert forall t :: t in r ==> t in trimmed && t != "";
  }

  /** Tags that are already trimmed, non-empty and comma-free survive `join(",")` and parsing unchanged. */
  lemma ParseJoinedTags(ts: seq<string>)
    requires ts != []
    requires forall t :: t in ts ==> t != "" && ',' !in t && Trim(t) == t
    ensures ParseTags(Join(ts, ',')) == ts
  {
    var s := Join(ts, ',');
    assert ts[0] in ts;
    assert ts[0] <= s;
    SplitJoin(ts, ',');
    var trimmed := TrimAll(ts);
    assert trimmed == ts by {
      forall i | 0 <= i < |ts| ensures trimmed[i] == ts[i] {
        assert ts[i] in ts;
      }
    }
    FilterKeepsAll(ts, NonEmpty);
  }

  /**
   * `custom_${Date.now()}`, for the clock reading `now`: the prefix, then the decimal
   * digits of `now` without a leading zero, which read back as `now`.
   */
  function CustomId(now: nat): (r: string)
    ensures |r| > 7 && r[..7] == "custom_"
    ensures forall i :: 7 <= i < |r| ==> '0' <= r[i] <= '9'
    ensures r[7] == '0' ==> now == 0 && r == "custom_0"
    ensures DecimalValue(r[7..]) == now
  {
    var digits := NatToString(now);
    DecimalRoundTrip(now);
    var r := "custom_" + digits;
    assert r[7..] == digits;
    r
  }

  /** Cards created at different milliseconds get different ids. */
  lemma CustomIdsDiffer(a: nat, b: nat)
    requires a != b
    ensures CustomId(a) != CustomId(b)
  {
  }

  /**
   * `addTecnica`: with no image nothing changes; otherwise the new card is put in front
   * of the existing ones and the form is reset.
   */
  function AddTecnica(tecnicas: seq<Tecnica>, form: NewTec, now: nat): (r: (seq<Tecnica>, NewTec))
    ensures form.imgUrl == "" ==> r == (tecnicas, form)
    ensures form.imgUrl != "" ==>
      && |r.0| == |tecnicas| + 1 && r.0[1..] == tecnicas && r.1 == EmptyNewTec
      && r.0[0].id == CustomId(now) && r.0[0].img == form.imgUrl && r.0[0].desc == form.desc
      && r.0[0].titulo == (if form.titulo != "" then form.titulo else "Técnica personalizada")
      && r.0[0].tags == ParseTags(form.tags)
      && r.0[0].steps == ["Seguí los pasos preferidos para tu autorregulación."] && r.0[0].source == "archivo local"
  {
    if form.imgUrl == "" then (tecnicas, form)
    else
      var card := Tecnica(CustomId(now), if form.titulo != "" then form.titulo else "Técnica personalizada",
                          form.desc, form.imgUrl, ParseTags(form.tags),
                          ["Seguí los pasos preferidos para tu autorregulación."], "archivo local");
      ([card] + tecnicas, EmptyNewTec)
  }
}
