/** The listing handlers over an in-memory listing collection keyed by id: create,
    the filtered and paginated search, fetch by id, and the owner-or-admin guarded
    update and delete. */
module ListingController {
  import opened Wrappers
  import opened Text
  import opened Http
  import opened Seqs
  import opened ListingModel
  import Accounts

  type Store = map<Id, Listing>

  const NotFound: string := "Listing not found"
  const CannotUpdate: string := "Unauthorized to update the listing"
  const CannotDelete: string := "Unauthorized to delete the listing"
  /** The key of the delete confirmation, spelled as the handler spells it. */
  const DeletedKey: string := "messgage"
  const Deleted: string := "Listing deleted successfully"
  /** The message of a failed update validation; the exact text of the schema library's
      validation error is not modelled. */
  const ValidationFailed: string := "Validation failed"
  /** The `TypeError` thrown by calling `Math.cell`, which does not exist. */
  const NoCeil: string := "Math.cell is not a function"
  const BadSkip: string := "skip must be non-negative"

  /** The rule shared by update and delete: the caller owns the listing (ids compared as
      strings) or is an admin. */
  predicate MayModify(l: Listing, caller: Accounts.PublicUser)
  {
    l.host == caller.id || caller.role == Accounts.AdminRole
  }

  /** `createListing`: the document is built with the caller as host and sent back with
      201, but it is never saved, so the store does not change and no validator runs. */
  function CreateListing(db: Store, caller: Accounts.PublicUser, body: ListingBody): (r: Step<Store, Listing>)
    ensures r.store == db
    ensures r.reply.status == 201 && r.reply.body.Json?
    ensures r.reply.body.value.host == caller.id
    ensures r.reply.body.value.title.Some? ==> IsTrimmed(r.reply.body.value.title.value)
    ensures r.reply.body == Json(FromBody(body, caller.id))
  {
    Step(db, Reply(201, Json(FromBody(body, caller.id))))
  }

  /** The host a body names is ignored on create. */
  lemma CreateIgnoresBodyHost(db: Store, caller: Accounts.PublicUser, body: ListingBody, claimed: Id)
    ensures CreateListing(db, caller, body.(host := Some(claimed))) == CreateListing(db, caller, body)
  {
  }

  /** The query string of the search; the numbers are already parsed. */
  datatype Query = Query(page: Option<int>, limit: Option<int>, city: Option<string>,
                         country: Option<string>, minPrice: Option<int>, maxPrice: Option<int>,
                         propertyType: Option<string>)

  datatype PriceRange = PriceRange(gte: Option<int>, lte: Option<int>)

  /** The filter document handed to the store. */
  datatype Filter = Filter(city: Option<string>, country: Option<string>,
                           propertyType: Option<string>, price: Option<PriceRange>)

  /** A query-string value the handler tests with `if (v)`: kept only when present and
      not empty. */
  function Truthy(v: Option<string>): (r: Option<string>)
    ensures r.Some? <==> v.Some? && v.value != ""
    ensures r.Some? ==> r == v
  {
    if v.Some? && v.value != "" then v else None
  }

  /** The filter `getListings` builds: a case-insensitive city or country pattern when
      given, an exact property type when given, and a price object only when some bound
      is given, holding exactly the given bounds. */
  function BuildFilter(q: Query): (f: Filter)
    ensures f.city == Truthy(q.city) && f.country == Truthy(q.country)
    ensures f.propertyType == Truthy(q.propertyType)
    ensures f.price.Some? <==> q.minPrice.Some? || q.maxPrice.Some?
    ensures f.price.Some? ==> f.price.value == PriceRange(q.minPrice, q.maxPrice)
  {
    var price :=
      if q.minPrice.Some? || q.maxPrice.Some? then
        Some(PriceRange(if q.minPrice.Some? then q.minPrice else None,
                        if q.maxPrice.Some? then q.maxPrice else None))
      else None;
    Filter(Truthy(q.city), Truthy(q.country), Truthy(q.propertyType), price)
  }

  /** How the store matches a listing against a filter document: a pattern or a bound on
      a missing field never matches. */
  predicate Matches(f: Filter, l: Listing)
  {
    && (f.city.Some? ==> l.address.city.Some? && ContainsIgnoringCase(l.address.city.value, f.city.value))
    && (f.country.Some? ==> l.address.country.Some? && ContainsIgnoringCase(l.address.country.value, f.country.value))
    && (f.propertyType.Some? ==> l.propertyType == f.propertyType)
    && (f.price.Some? ==>
          && l.price.Some?
          && (f.price.value.gte.Some? ==> l.price.value >= f.price.value.gte.value)
          && (f.price.value.lte.Some? ==> l.price.value <= f.price.value.lte.value))
  }

  /** What a search asks for, read directly off the query: each supplied parameter adds
      one independent constraint, and absent or empty ones add none. */
  predicate Wanted(q: Query, l: Listing)
  {
    && (q.city.Some? && q.city.value != "" ==>
          l.address.city.Some? && ContainsIgnoringCase(l.address.city.value, q.city.value))
    && (q.country.Some? && q.country.value != "" ==>
          l.address.country.Some? && ContainsIgnoringCase(l.address.country.value, q.country.value))
    && (q.propertyType.Some? && q.propertyType.value != "" ==> l.propertyType == q.propertyType)
    && (q.minPrice.Some? ==> l.price.Some? && l.price.value >= q.minPrice.value)
    && (q.maxPrice.Some? ==> l.price.Some? && l.price.value <= q.maxPrice.value)
  }

  /** The query as a test on listings. */
  function WantedBy(q: Query): Listing -> bool
  {
    l => Wanted(q, l)
  }

  /** The filter document selects exactly the listings the query asks for. */
  lemma FilterMeansQuery(q: Query, l: Listing)
    ensures Matches(BuildFilter(q), l) <==> Wanted(q, l)
  {
  }

  /** The page number with its default of 1. */
  function PageOf(q: Query): int
  {
    q.page.GetOr(1)
  }

  /** The page size with its default of 10. */
  function LimitOf(q: Query): int
  {
    q.limit.GetOr(10)
  }

  function Abs(n: int): nat
  {
    if n < 0 then -n else n
  }

  /** `.limit(limit).skip((page - 1) * limit)` on a result list: a negative skip is an
      error; otherwise skip that many and take at most `limit` (a limit of 0 takes all,
      a negative one takes its absolute value). */
  function Paginate(items: seq<Listing>, page: int, limit: int): (r: Result<seq<Listing>>)
    ensures r.Err? <==> (page - 1) * limit < 0
    ensures r.Ok? && limit != 0 ==> |r.value| <= Abs(limit)
    ensures r.Ok? ==> forall k :: 0 <= k < |r.value| ==>
      (page - 1) * limit + k < |items| && r.value[k] == items[(page - 1) * limit + k]
    ensures r.Ok? && limit > 0 && (page - 1) * limit + limit <= |items| ==> |r.value| == limit
    ensures r.Ok? && (page - 1) * limit >= |items| ==> r.value == []
    ensures r.Ok? ==>
      var remaining := if (page - 1) * limit < |items| then |items| - (page - 1) * limit else 0;
      |r.value| == if limit == 0 || remaining <= Abs(limit) then remaining else Abs(limit)
  {
    var skip := (page - 1) * limit;
    if skip < 0 then Err(BadSkip)
    else
      var rest := if skip < |items| then items[skip..] else [];
      var take := if limit == 0 then |rest| else Abs(limit);
      Ok(if take < |rest| then rest[..take] else rest)
  }

  /** The page `getListings` computes before it builds its reply: the listings in store
      order that the query asks for, windowed by page and limit. */
  function SearchPage(items: seq<Listing>, q: Query): (r: Result<seq<Listing>>)
    ensures r == Paginate(Seqs.Filter(items, WantedBy(q)), PageOf(q), LimitOf(q))
  {
    var f := BuildFilter(q);
    forall l ensures (l => Matches(f, l))(l) == WantedBy(q)(l) {
      FilterMeansQuery(q, l);
    }
    FilterExtensional(items, l => Matches(f, l), WantedBy(q));
    Paginate(Seqs.Filter(items, l => Matches(f, l)), PageOf(q), LimitOf(q))
  }

  /** Every listing on a page comes from the collection and is one the query asks for,
      and a page holds at most `limit` of them. */
  lemma SearchPageSound(items: seq<Listing>, q: Query)
    ensures SearchPage(items, q).Ok? ==> forall k :: 0 <= k < |SearchPage(items, q).value| ==>
      SearchPage(items, q).value[k] in items && Wanted(q, SearchPage(items, q).value[k])
    ensures SearchPage(items, q).Ok? && LimitOf(q) != 0 ==> |SearchPage(items, q).value| <= Abs(LimitOf(q))
  {
    var r := SearchPage(items, q);
    if r.Ok? {
      forall k | 0 <= k < |r.value| ensures r.value[k] in items && Wanted(q, r.value[k]) {
        FilterMembership(items, WantedBy(q), r.value[k]);
      }
    }
  }

  /** `getListings`: whatever the query, the reply is 500, because after the page is
      computed the handler calls `Math.cell`, which throws (and a negative skip fails
      earlier with 500 too). */
  function GetListings(items: seq<Listing>, q: Query): (r: Reply<seq<Listing>>)
    ensures r.status == 500 && r.body.Error?
  {
    match SearchPage(items, q)
    case Err(e) => Reply(500, Error(e))
    case Ok(_) => Reply(500, Error(NoCeil))
  }

  /** `getListing`: the stored listing, or 404. */
  function GetListing(db: Store, id: Id): (r: Reply<Listing>)
    ensures id in db ==> r == Reply(200, Json(db[id]))
    ensures id !in db ==> r == Reply(404, Error(NotFound))
  {
    if id in db then Reply(200, Json(db[id])) else Reply(404, Error(NotFound))
  }

  /** Create never saves: every fetch by id answers after a create as it did before. */
  lemma GetAfterCreate(db: Store, caller: Accounts.PublicUser, body: ListingBody, id: Id)
    ensures GetListing(CreateListing(db, caller, body).store, id) == GetListing(db, id)
  {
  }

  /** `updateListing`: 404 for a missing id, 403 unless the caller may modify the
      listing, 400 when an updated path fails its validator; otherwise the patched
      listing replaces the stored one. The reply then carries no body, because the
      handler sends the function `updateListing` instead of the updated document. */
  function UpdateListing(db: Store, caller: Accounts.PublicUser, id: Id, body: ListingBody): (r: Step<Store, Listing>)
    ensures id !in db ==> r == Step(db, Reply(404, Error(NotFound)))
    ensures id in db && !MayModify(db[id], caller) ==> r == Step(db, Reply(403, Error(CannotUpdate)))
    ensures r.store != db ==> id in db && MayModify(db[id], caller) && PatchValid(body)
    ensures r.reply.status == 200 <==> id in db && MayModify(db[id], caller) && PatchValid(body)
    ensures r.store.Keys == db.Keys
    ensures r.reply.status == 200 ==> id in db && r.store[id] == ApplyPatch(db[id], body) && r.reply.body == NoBody
    ensures forall k :: k in db && k != id ==> r.store[k] == db[k]
    ensures id in db && MayModify(db[id], caller) && !PatchValid(body) ==>
      r == Step(db, Reply(400, Error(ValidationFailed)))
  {
    if id !in db then Step(db, Reply(404, Error(NotFound)))
    else if !MayModify(db[id], caller) then Step(db, Reply(403, Error(CannotUpdate)))
    else if !PatchValid(body) then Step(db, Reply(400, Error(ValidationFailed)))
    else Step(db[id := ApplyPatch(db[id], body)], Reply(200, NoBody))
  }

  /** An accepted update of a valid listing leaves a valid listing. */
  lemma UpdateKeepsValid(db: Store, caller: Accounts.PublicUser, id: Id, body: ListingBody)
    requires id in db && ValidListing(db[id])
    ensures UpdateListing(db, caller, id, body).reply.status == 200 ==>
      ValidListing(UpdateListing(db, caller, id, body).store[id])
  {
    PatchValidity(db[id], body);
  }

  /** After an accepted update, fetching the listing gives the patched listing, and
      every other listing is fetched as before. */
  lemma GetAfterUpdate(db: Store, caller: Accounts.PublicUser, id: Id, body: ListingBody, other: Id)
    requires UpdateListing(db, caller, id, body).reply.status == 200
    ensures GetListing(UpdateListing(db, caller, id, body).store, id) == Reply(200, Json(ApplyPatch(db[id], body)))
    ensures other != id ==> GetListing(UpdateListing(db, caller, id, body).store, other) == GetListing(db, other)
  {
  }

  /** `deleteListing`: 404 for a missing id, 403 unless the caller may modify the
      listing; otherwise exactly that listing is removed. */
  function DeleteListing(db: Store, caller: Accounts.PublicUser, id: Id): (r: Step<Store, Listing>)
    ensures id !in db ==> r == Step(db, Reply(404, Error(NotFound)))
    ensures id in db && !MayModify(db[id], caller) ==> r == Step(db, Reply(403, Error(CannotDelete)))
    ensures r.store != db <==> id in db && MayModify(db[id], caller)
    ensures r.store != db ==> r.store.Keys == db.Keys - {id} && r.reply == Reply(200, Message(DeletedKey, Deleted))
    ensures forall k :: k in db && k != id ==> k in r.store && r.store[k] == db[k]
  {
    if id !in db then Step(db, Reply(404, Error(NotFound)))
    else if !MayModify(db[id], caller) then Step(db, Reply(403, Error(CannotDelete)))
    else Step(db - {id}, Reply(200, Message(DeletedKey, Deleted)))
  }

  /** After an accepted delete, fetching the listing gives 404, and every other listing
      is fetched as before; a refused delete changes no fetch. */
  lemma GetAfterDelete(db: Store, caller: Accounts.PublicUser, id: Id, other: Id)
    ensures DeleteListing(db, caller, id).reply.status == 200 ==>
      GetListing(DeleteListing(db, caller, id).store, id) == Reply(404, Error(NotFound))
    ensures other != id ==> GetListing(DeleteListing(db, caller, id).store, other) == GetListing(db, other)
    ensures DeleteListing(db, caller, id).reply.status != 200 ==>
      GetListing(DeleteListing(db, caller, id).store, other) == GetListing(db, other)
  {
  }

  /** Update and delete apply one authorization rule: whenever one of them refuses a
      caller with 403, so does the other, and an admin is never refused. */
  lemma SameGuard(db: Store, caller: Accounts.PublicUser, id: Id, body: ListingBody)
    ensures UpdateListing(db, caller, id, body).reply.status == 403 <==>
            DeleteListing(db, caller, id).reply.status == 403
    ensures caller.role == Accounts.AdminRole ==> DeleteListing(db, caller, id).reply.status != 403
  {
  }
}
