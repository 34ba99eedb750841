/** The "my reviews" view: the review list of the API response, narrowed to the signed-in user's. */
module MisResenas {
  import opened Wrappers
  import opened Entities
  import opened Collections

  /** The parsed body of `GET /api/resenas`: a bare array, or an object whose `data` may hold one. */
  datatype Body = ArrayBody(items: seq<Review>) | ObjectBody(data: Option<seq<Review>>)

  /** `Array.isArray(json) ? json : (json.data || [])`. */
  function AllReviews(json: Body): (all: seq<Review>)
    ensures json.ArrayBody? ==> all == json.items
    ensures json.ObjectBody? && json.data.Some? ==> all == json.data.value
    ensures json.ObjectBody? && json.data.None? ==> all == []
  {
    match json
    case ArrayBody(items) => items
    case ObjectBody(data) => data.GetOr([])
  }

  /** The review was written by `uid` (`(r.usuario?._id || r.usuario) === uid`). */
  function ByUser(uid: string): Review -> bool {
    (r: Review) => r.usuario == Some(uid)
  }

  /**
   * `mine`: with no signed-in user id, nothing; otherwise the user's reviews, in the
   * order of the response, each kept with its multiplicity.
   */
  function Mine(all: seq<Review>, uid: Option<string>): (mine: seq<Review>)
    ensures uid.None? || uid.value == "" ==> mine == []
    ensures uid.Some? && uid.value != "" ==>
      && IsSubsequence(mine, all)
      && (forall r :: r in mine <==> r in all && r.usuario == uid)
      && (forall r: Review :: r.usuario == uid ==> multiset(mine)[r] == multiset(all)[r])
  {
    if uid.Some? && uid.value != "" then
      FilterMultiplicity(all, ByUser(uid.value));
      Filter(all, ByUser(uid.value))
    else []
  }

  /** Every review the view lists names the user, and no review of anyone else is listed. */
  lemma MineOnlyTheUsers(json: Body, uid: string, r: Review)
    requires uid != "" && r in AllReviews(json)
    ensures r in Mine(AllReviews(json), Some(uid)) <==> r.usuario == Some(uid)
  {
  }
}
