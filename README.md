# Derived views of the sensory-friendly places map

This project models the client-side logic of a web application. The application maps places
that are friendly to people with sensory sensitivities, and it has a page of
self-regulation techniques. The model covers the computations the React components
perform on in-memory data:

- **Place map (`MapaLugares`).** It folds the reviews into a per-place `{ avg, count }` table
  (`ratingPorLugar`) and normalises a place's certification (`getCert`). It filters the places
  by text, type, province, certification, initial letter and minimum rating
  (`lugaresFiltrados`), and sorts the survivors by name or by average (`listaOrdenada`). It
  builds the type and province menus.
- **Place map, small list operations.** These are the sensory-tag editor of the new-place form,
  the form's missing-field check and payload, the replacement of a voted place, and the
  "last three reviews, newest first" list of the detail view.
- **Home (`Home`).** Favourite techniques are a set persisted in local storage and toggled in
  place. A custom technique card is built from the upload form: its comma-separated tags are
  parsed and the card is put in front of the list.
- **My reviews (`MisResenas`).** The API response is normalised into a review list and narrowed
  to the signed-in user's reviews.

The modules follow the program. `Entities` holds the records. `Ratings`, `Filtering`,
`Ordering` and `PlaceForm` cover `mapalugares.jsx`; besides the new-place form's helpers,
`PlaceForm` holds the map's other small list operations, the vote replacement and the
detail view's review list. `Home` covers `home.jsx` and `MisResenas` covers
`misresenas.jsx`. Two modules hold the JavaScript built-ins the components rely on, and one
holds a plain Dafny helper type:

- `Collections` holds `Array.prototype.filter` and the insertion-ordered `Set`.
- `JsText` holds `trim`, ASCII case mapping, `includes`, `split` and decimal formatting.
- `Wrappers` holds `Option`, which stands for a JavaScript value that may be absent.

The two loops of `ratingPorLugar` become a method with two `while` loops over a `map`. It is
proved equal to the recursive `CountFor`/`SumFor`. `listaOrdenada` copies the filtered places
into a fresh array and sorts it in place with a stable insertion sort. That sort is proved to
produce the functional `InsertionSort`; permutation, sortedness and stability are proved of
`InsertionSort`. `toggleFav` is a method of the class `Favoritos`, whose fields are the
favourite set and the storage entry. The filters, the menus and the form helpers are pure
functions with lemmas, as in the source.

**Modelling conventions.**
- A missing string field of a place is `""`, because the code only tests those fields for
  truthiness (`l.nombre || ""`, `filter(Boolean)`). A review's place and user reference is
  an `Option<string>`. It stands for `r.lugar?._id || r.lugar` and
  `r.usuario?._id || r.usuario`.
- A JavaScript `Set` is a duplicate-free sequence in insertion order, which is the order
  `Array.from` yields.
- Averages are `real`, so division is exact.
- `localeCompare` is a comparator parameter `nameLe`.
- `Date.now()` is a parameter `now`. A storage write that throws is the `writable`
  parameter of `ToggleFav`.

**Edge cases where the code does less than one might expect.** The model follows the code:
- *Open filters.* One might expect an unset filter to keep every place. The code's last test, `rating < (Number(filtros.minRating) || 0)`, still runs with the minimum
  at 0. It drops any place whose average is negative, so the open-filter property holds only
  for non-negative averages (`Filtering.UnsetKeepsAll`, `Filtering.NegativeAverageDroppedWhenUnset`).
- *Places without reviews.* One might expect such a place to have an entry with average 0
  and count 0. The code gives it no table entry at all. The zero average appears only when the filter and
  the sort read the missing entry (`Ratings.AvgOf`).
- *The filter reset.* After a place is added, the filter state is reset with the object at
  `mapalugares.jsx:195`, which has no `inicial` key. An absent `inicial` is falsy, exactly like
  `""`, so the reset equals `Filtering.Unset`.

## Model

| member | source | states |
|---|---|---|
| Entities.PlaceKey | frontend/src/components/mapalugares.jsx:113-114 | a review is filed under a place exactly when its place reference is present and non-empty, and then under that id |
| Entities.Score | frontend/src/components/mapalugares.jsx:116 | a review's score is its `puntuacion`, and 0 when it has none |
| Ratings.CountFor | frontend/src/components/mapalugares.jsx:113-116 | the number of reviews filed under an id; with RatingPorLugar and CountZeroIffUnfiled as its contract |
| Ratings.SumFor | frontend/src/components/mapalugares.jsx:116 | the sum of the scores (missing = 0) of the reviews filed under an id; with RatingPorLugar and CountZeroIffUnfiled as its contract |
| Ratings.CountZeroIffUnfiled | frontend/src/components/mapalugares.jsx:113-119 | the count is at most the number of reviews, is zero exactly when no review is filed under the id, and then the sum is zero too |
| Ratings.RatingPorLugar | frontend/src/components/mapalugares.jsx:110-121 | the table has an entry for an id exactly when some review is filed under it; the entry's count is the number of those reviews and its average their score sum (missing score = 0) divided by the count |
| Ratings.AvgOf | frontend/src/components/mapalugares.jsx:301 | an id with an entry reads as that entry's average, and an id without one reads as 0 |
| Ratings.ReviewsOf | frontend/src/components/mapalugares.jsx:620 | the reviews of a place are an order-preserving subsequence of all reviews, holding exactly those whose reference is the id |
| Ratings.CountIsReviewsOf | frontend/src/components/mapalugares.jsx:110-121 | a place's aggregate count equals the number of reviews the detail view finds for it |
| Ratings.SumAtLeast | frontend/src/components/mapalugares.jsx:115-116 | if every score filed under an id is at least lo, the sum is at least lo times the count |
| Ratings.SumAtMost | frontend/src/components/mapalugares.jsx:115-116 | if every score filed under an id is at most hi, the sum is at most hi times the count |
| Ratings.AverageBounds | frontend/src/components/mapalugares.jsx:119 | scores between lo and hi give an average between lo and hi |
| Ratings.ExampleFiveThreeFour | frontend/src/components/mapalugares.jsx:110-121 | scores 5, 3 and 4 of one place give count 3 and average 4.0 |
| Ratings.UnfiledReviewsIgnored | frontend/src/components/mapalugares.jsx:113-114 | a review without a place reference, or with an empty one, changes no count and no sum |
| Filtering.GetCert | frontend/src/components/mapalugares.jsx:78 | the certification is `certificacion` when set, else `certificadoPor` when set, else "Comunidad", and never empty |
| Filtering.CertClass | frontend/src/components/mapalugares.jsx:310 | the class is "APADEA" exactly when the certification is "APADEA", and "Comunidad" otherwise |
| Filtering.LugaresFiltrados | frontend/src/components/mapalugares.jsx:299-320 | the result is an order-preserving subsequence of the places; a place is in it exactly when it passes the query, type, province, certification, initial and minimum-rating tests; every passing place keeps its multiplicity |
| Filtering.UnsetKeepsAll | frontend/src/components/mapalugares.jsx:299-320 | with every filter off and no negative average, the filtered list is the whole list |
| Filtering.NegativeAverageDroppedWhenUnset | frontend/src/components/mapalugares.jsx:317 | with every filter off, a place whose average is negative is still dropped |
| Filtering.NonNegativeScoresGiveNonNegativeAverages | frontend/src/components/mapalugares.jsx:115-119 | non-negative scores give non-negative averages, which satisfies the premise of UnsetKeepsAll |
| Filtering.FilterTwice | frontend/src/components/mapalugares.jsx:299-320 | filtering the filtered list with the same filters changes nothing |
| Filtering.QueryHitOccurs | frontend/src/components/mapalugares.jsx:302-305 | a place passing a non-empty query has the lower-cased query at some position of its lower-cased name, address or description |
| Filtering.DistinctNonEmpty | frontend/src/components/mapalugares.jsx:295-296 | the menu values are duplicate-free and are exactly the non-empty input values |
| Filtering.Tipos | frontend/src/components/mapalugares.jsx:295 | the type menu is duplicate-free and holds exactly the non-empty types of the places |
| Filtering.Provincias | frontend/src/components/mapalugares.jsx:296 | the province menu is duplicate-free and holds exactly the non-empty provinces of the places |
| Filtering.DistinctNonEmptyOrder | frontend/src/components/mapalugares.jsx:295-296 | the menu lists values in the order of their first appearance among the non-empty values |
| Collections.Filter | frontend/src/components/mapalugares.jsx:300 | `Array.prototype.filter`: an order-preserving subsequence holding exactly the elements that pass the test |
| Collections.FilterMultiplicity | frontend/src/components/mapalugares.jsx:300 | every element that passes the test keeps its multiplicity, and the others are gone |
| Collections.Dedup | frontend/src/components/mapalugares.jsx:295-296 | `Array.from(new Set(xs))`: duplicate-free, with exactly the elements of the input |
| Collections.DedupFirstAppearance | frontend/src/components/mapalugares.jsx:295-296 | the distinct elements appear in the order of their first occurrence |
| Collections.Reverse | frontend/src/components/mapalugares.jsx:620 | `.reverse()`: same length, position k holds the element k places from the end |
| Ordering.Insert | frontend/src/components/mapalugares.jsx:326-328 | inserting adds one element; with InsertPermutes, InsertSorted and InsertStable as its contract |
| Ordering.InsertionSort | frontend/src/components/mapalugares.jsx:326-328 | the sort keeps the length; with SortPermutes, SortSorted and SortStable as its contract |
| Ordering.InsertPermutes | frontend/src/components/mapalugares.jsx:326-328 | inserting an element adds exactly that element to the multiset |
| Ordering.SortPermutes | frontend/src/components/mapalugares.jsx:326-328 | the sort is a permutation of its input |
| Ordering.InsertSorted | frontend/src/components/mapalugares.jsx:326-328 | for a total preorder, inserting into a sorted list keeps it sorted |
| Ordering.SortSorted | frontend/src/components/mapalugares.jsx:326-328 | for a total preorder, the sort's output is sorted |
| Ordering.InsertStable | frontend/src/components/mapalugares.jsx:326-328 | insertion keeps the relative order of the elements tied with any given element |
| Ordering.SortStable | frontend/src/components/mapalugares.jsx:326-328 | the sort is stable: the elements tied with any given element appear in input order |
| Ordering.InsertAt | frontend/src/components/mapalugares.jsx:326-328 | an element goes right after the last element it may follow, provided everything after that point must follow it |
| Ordering.InsertLast | frontend/src/components/mapalugares.jsx:326-328 | one pass of the in-place sort turns the prefix a[..i+1] into the insertion of a[i] into a[..i], and leaves the rest of the array unchanged |
| Ordering.SortInPlace | frontend/src/components/mapalugares.jsx:326-328 | the in-place array sort leaves the stable insertion sort of the array's old contents |
| Ordering.NameOrder | frontend/src/components/mapalugares.jsx:326 | the name comparator is a total preorder on places whenever the collation is one on names |
| Ordering.RatingOrder | frontend/src/components/mapalugares.jsx:328 | the rating comparator (higher average first) is a total preorder |
| Ordering.Ordered | frontend/src/components/mapalugares.jsx:323-331 | the list for a sort key is a permutation of the filtered list, the list itself for "default", and has non-increasing averages for "rating" |
| Ordering.ListaOrdenada | frontend/src/components/mapalugares.jsx:323-331 | the list is the filtered list sorted by the chosen key and is a permutation of it; "default" returns it unchanged; "rating" gives non-increasing averages |
| Ordering.RatingSortStable | frontend/src/components/mapalugares.jsx:328 | sorting by rating keeps places with equal averages in their filtered order |
| Ordering.NameSortSortedAndStable | frontend/src/components/mapalugares.jsx:326 | for a collation that is a total preorder, the name sort is a permutation, orders the names by it and keeps ties in input order |
| Ordering.Sidebar | frontend/src/components/mapalugares.jsx:467 | the side panel shows a prefix of the sorted list, of length min(12, length) |
| PlaceForm.AddTag | frontend/src/components/mapalugares.jsx:555-563 | the trimmed value is appended only when it is non-empty and not yet present; a duplicate-free list stays duplicate-free; the members afterwards are the old ones plus the trimmed value when it is non-empty |
| PlaceForm.RemoveTagAt | frontend/src/components/mapalugares.jsx:544-547 | removing a valid index shortens the list by one, keeps the elements before it and shifts the later ones down by one; an out-of-range index changes nothing |
| PlaceForm.RemoveTagAtKeepsNoDup | frontend/src/components/mapalugares.jsx:544-547 | removing from a duplicate-free list keeps it duplicate-free and removes exactly the tag at that index |
| PlaceForm.RemoveUndoesAdd | frontend/src/components/mapalugares.jsx:544-563 | removing the chip just added restores the previous list |
| PlaceForm.Faltantes | frontend/src/components/mapalugares.jsx:141-144 | the list names "nombre" exactly when the name is empty, "dirección" exactly when the address is empty, and "ubicación en el mapa" exactly when a coordinate is null or 0; the names appear in check order, without repetition |
| PlaceForm.HandleSubmit | frontend/src/components/mapalugares.jsx:140-161 | submitting warns (and sends nothing) exactly when something is missing, listing the missing fields; otherwise the payload carries the form's name, address, coordinates, type, province, description and sensory tags unchanged, and the certification `certificadoPor`, else "Comunidad" |
| PlaceForm.PayloadNamesCertification | frontend/src/components/mapalugares.jsx:160 | a posted payload always carries a non-empty certification |
| PlaceForm.Votar | frontend/src/components/mapalugares.jsx:225 | the list keeps its length; each entry whose id matches the response is replaced by it, and every other entry stays |
| PlaceForm.VotarKeepsIdsAndIsIdempotent | frontend/src/components/mapalugares.jsx:225 | a vote keeps the id at every position, and applying the same response twice equals applying it once |
| PlaceForm.VotarUnknownId | frontend/src/components/mapalugares.jsx:225 | a response whose id is not listed leaves the list unchanged |
| PlaceForm.UltimasResenas | frontend/src/components/mapalugares.jsx:620 | the detail view shows min(3, n) of the place's n reviews, the most recent first |
| PlaceForm.NoOpinionsIffEmpty | frontend/src/components/mapalugares.jsx:620 | the detail view lists no review exactly when no review refers to the place |
| Home.LoadFavs | frontend/src/views/home.jsx:128-130 | the loaded favourites are duplicate-free; a stored array gives exactly its elements; a missing or unparsable entry gives the empty set |
| Home.Toggled | frontend/src/views/home.jsx:133-134 | a toggle flips whether the id is a member, changes no other id's membership, keeps the set duplicate-free, and a deletion keeps the other members in order |
| Home.TrimAll | frontend/src/views/home.jsx:111 | each piece is replaced by its trimmed form, position by position |
| Home.ToggledTwice | frontend/src/views/home.jsx:131-138 | toggling the same id twice restores the set; if the id was absent, it restores the exact sequence |
| Home.PersistedFavsReload | frontend/src/views/home.jsx:128-135 | the favourites written by a toggle load back as the same set, in the same order |
| Home.Favoritos.constructor | frontend/src/views/home.jsx:128-130 | the initial state is the loaded favourites, kept duplicate-free |
| Home.Favoritos.ToggleFav | frontend/src/views/home.jsx:131-138 | the new set is the toggle of the old one and stays duplicate-free; when the write succeeds, storage holds the new set, and otherwise storage is unchanged |
| Home.ParseTags | frontend/src/views/home.jsx:110-112 | an empty tag string gives ["personalizada"]; otherwise the tags are the trimmed comma-separated pieces without the empty ones: an order-preserving subsequence of the trimmed pieces, holding every non-empty piece as often as it occurs, each trimmed and comma-free |
| Home.BlankTagsGiveNone | frontend/src/views/home.jsx:110-112 | the tag string " , " gives no tags at all, not the default |
| Home.ParseJoinedTags | frontend/src/views/home.jsx:110-112 | non-empty, trimmed, comma-free tags joined with commas parse back to the same tags, in order |
| Home.CustomId | frontend/src/views/home.jsx:109 | the id is "custom_" followed by the decimal digits of the clock reading, without a leading zero, which read back as that reading; at reading 0 the id is exactly "custom_0" |
| Home.CustomIdsDiffer | frontend/src/views/home.jsx:109 | cards created at different clock readings get different ids |
| Home.AddTecnica | frontend/src/views/home.jsx:106-125 | with no image nothing changes; otherwise the new card is prepended (length + 1, the old cards follow unchanged), carries the image, the description, the parsed tags, the title (default "Técnica personalizada"), the id "custom_" followed by the clock reading, the fixed step text and the source "archivo local", and the form is reset |
| MisResenas.AllReviews | frontend/src/views/misresenas.jsx:20 | the reviews are the body itself when it is an array, else its `data`, else none |
| MisResenas.Mine | frontend/src/views/misresenas.jsx:21-22 | without a user id the list is empty; with one, it is an order-preserving subsequence of all reviews that holds exactly the user's reviews, each with its multiplicity |
| MisResenas.MineOnlyTheUsers | frontend/src/views/misresenas.jsx:20-22 | a review of the response is listed exactly when it names the signed-in user |
| JsText.TrimStart | frontend/src/components/mapalugares.jsx:558 | strips exactly the leading white space: the result is a suffix, everything before it is white space, and it does not start with white space |
| JsText.TrimEnd | frontend/src/components/mapalugares.jsx:558 | strips exactly the trailing white space: the result is a prefix, everything after it is white space, and it does not end with white space |
| JsText.Trim | frontend/src/components/mapalugares.jsx:558 | `trim` leaves the slice of the string between white-space runs at both ends, and that slice neither starts nor ends with white space |
| JsText.TrimmedIsTrimmed | frontend/src/components/mapalugares.jsx:558 | a trimmed string neither starts nor ends with white space, and trimming again changes nothing |
| JsText.TrimAllSpace | frontend/src/views/home.jsx:111 | a string made only of white space trims to "" |
| JsText.TrimKeepsCharacters | frontend/src/views/home.jsx:111 | trimming introduces no characters |
| JsText.LowerIsFolded | frontend/src/components/mapalugares.jsx:303-304 | lower-casing is idempotent and leaves no upper-case ASCII letter |
| JsText.Lower | frontend/src/components/mapalugares.jsx:303-304 | `toLowerCase` keeps the length, turns each ASCII capital into its small letter and leaves every other character |
| JsText.Upper | frontend/src/components/mapalugares.jsx:314-315 | `toUpperCase` keeps the length, turns each ASCII small letter into its capital and leaves every other character |
| JsText.Contains | frontend/src/components/mapalugares.jsx:304 | `includes`, scanning the start positions; ContainsIffOccurs is its contract |
| JsText.ContainsIffOccurs | frontend/src/components/mapalugares.jsx:304 | `includes` holds exactly when the query occurs at some position |
| JsText.CharAt0 | frontend/src/components/mapalugares.jsx:314 | `charAt(0)` is the first character, or "" for the empty string |
| JsText.Split | frontend/src/views/home.jsx:111 | `split` yields at least one piece, and no piece contains the separator |
| JsText.JoinSplit | frontend/src/views/home.jsx:111 | joining the pieces of a split with the separator gives back the string |
| JsText.SplitJoin | frontend/src/views/home.jsx:111 | splitting the join of separator-free pieces gives back the pieces |
| JsText.Join | frontend/src/views/home.jsx:111 | not a call the source makes: the inverse of the `split` at this line, used by JoinSplit and SplitJoin to pin that split down; the first piece comes first, followed by the separator when there are two or more |
| JsText.SplitNoSeparator | frontend/src/views/home.jsx:111 | a string without the separator splits into itself |
| JsText.SplitAtSeparator | frontend/src/views/home.jsx:111 | splitting at the first separator gives the part before it, then the split of the rest |
| JsText.NatToString | frontend/src/views/home.jsx:109 | the decimal text of a number is a non-empty string of digits with no leading zero; the text of 0 is exactly "0" |
| JsText.DecimalRoundTrip | frontend/src/views/home.jsx:109 | reading the decimal text of a number gives back the number |
| JsText.NatToStringInjective | frontend/src/views/home.jsx:109 | different numbers have different decimal texts |

## Left out

- Network I/O is not modelled. This covers every `fetch` call, response status handling, error
  banners and `setTimeout`. The model starts from the parsed response bodies.
- Local storage is modelled only as the value read back (`Home.Stored`) and the value written.
  No real storage API is modelled.
- Rendering is not modelled: React state hooks and effects, the Leaflet map, markers, popups,
  `setView`, icons, the modals and the navigation menus.
- `URL.createObjectURL` and the chosen file are not modelled. The object URL is the form's
  `imgUrl` string.
- Ordering.NameSortSortedAndStable: `localeCompare` is locale-dependent collation, so it is the
  parameter `nameLe`. Sortedness of the name sort is proved only under the premise that
  `nameLe` is a total preorder.
- Case mapping: `toLowerCase`/`toUpperCase` are modelled for ASCII letters only. Other
  characters are left unchanged, so Unicode case mapping (accented capitals included) is
  not modelled.
- The minimum rating: it is an integer. The `Number(...)` coercion of the
  menu's string value and the `NaN → 0` fallback are not modelled. `toFixed` display
  formatting is not modelled either.
- Populated references with an empty `_id`: `r.lugar?._id || r.lugar` on a populated reference whose `_id` is empty
  yields the object itself in the source. Such a key never equals a place id. The model
  reads it as the empty id, which likewise is never a place id.
- Home.LoadFavs: a stored JSON value that is neither an array nor `null` is treated as
  unparsable, giving the empty set. Examples are a string, whose characters the source
  turns into set members, and a number, which makes `new Set` throw. Elements that are not
  strings are not modelled.
- Averages: JavaScript computes `v.sum / v.count` (`mapalugares.jsx:119`) in double-precision
  floating point, while the model divides exactly over `real`. Rounding is not modelled; for
  realistic scores and counts it changes no filter or sort decision except between averages
  that differ only by rounding.
- UTF-16: JavaScript strings are sequences of UTF-16 code units, so `charAt(0)`
  (`mapalugares.jsx:314`) returns a code unit, while a Dafny `string` holds code points. A name
  starting with a character outside the Basic Multilingual Plane is not modelled; for such a
  name the source's initial is half of a surrogate pair.
- Non-array `data`: a truthy `data` field that is not an array is not modelled.
- PlaceForm.AddTag: the source's duplicate check reads the tag list from the render's
  closure rather than from the `prev` state it updates. Two additions within one render are
  not modelled; the model checks and appends against one list.
- PlaceForm.HandleSubmit: the warning's message text (`faltantes.join(", ")`) is not
  modelled, only the list.
- The review submission (`enviarRating`) and the photo upload are not modelled. Their client
  checks are presence checks ahead of network calls.
- The rest of the repository is not part of this model: the backend controllers and server
  bootstrap, `login.jsx`, `registro.jsx`, `navbar.jsx` and `App.jsx`. They are passthroughs to
  the database, form glue and routing.
