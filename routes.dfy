/**
 * The routes of the food-ordering server over its two collections, `foodlist`
 * (listings) and `purchasefoodlist` (purchase records): the middleware chain
 * each route runs, the store call it makes and the response it sends.
 */
module Routes {
  import opened Wrappers
  import opened Documents
  import opened Collections
  import opened Auth

  /** What a handler answers. `Unhandled` is a rejected handler promise: the handler itself writes no response. */
  datatype Response =
    | Error(status: nat, key: string, text: string)
    | Docs(entries: seq<Entry>)
    | Doc(entry: Entry)
    | Inserted(insertedId: ObjectId)
    | Update(result: UpdateResult)
    | Deleted(deletedCount: nat)
    | Unhandled

  const UnauthorizedAccess: Response := Error(401, "message", "Unauthorized Acess")
  const ForbiddenAccess: Response := Error(403, "message", "Forbidden Access")
  const InvalidIdFormat: Response := Error(400, "error", "Invalid ID format")
  const FoodNotFound: Response := Error(404, "error", "Food not found")
  const InternalServerError: Response := Error(500, "error", "Internal server error")

  /** How many listings `GET /addfood` returns at most. */
  const TopLimit: nat := 6

  /** `ObjectId.isValid` and `new ObjectId`, outside the model: the ObjectId a path id denotes, if valid. */
  type IdParser = string -> Option<ObjectId>

  /** The response a middleware chain sends when it stops a request. */
  function HaltResponse(status: nat): Response
  {
    if status == Unauthorized then UnauthorizedAccess else ForbiddenAccess
  }

  /**
   * `GET /getfood/:id`: 400 for an id that fails validation (no lookup is
   * made), 500 when the lookup throws, 404 when no listing has that id, and
   * otherwise the listing as stored.
   */
  function GetFoodResponse(id: string, parse: IdParser, listings: Collection, storeFault: bool): (r: Response)
    ensures parse(id).None? ==> r == InvalidIdFormat
    ensures parse(id).Some? && storeFault ==> r == InternalServerError
    ensures parse(id).Some? && !storeFault && parse(id).value !in listings.docs ==> r == FoodNotFound
    ensures parse(id).Some? && !storeFault && parse(id).value in listings.docs ==>
      r == Doc(Entry(parse(id).value, listings.docs[parse(id).value]))
    ensures r.Error? ==> r.status in {400, 404, 500}
  {
    match parse(id)
    case None => InvalidIdFormat
    case Some(oid) =>
      if storeFault then InternalServerError
      else match FindOne(listings, oid)
        case None => FoodNotFound
        case Some(d) => Doc(Entry(oid, d))
  }

  /** A malformed id is answered with 400 whatever the store holds or does: the store is never asked. */
  lemma InvalidIdNeverReachesStore(id: string, parse: IdParser, c1: Collection, c2: Collection, f1: bool, f2: bool)
    requires parse(id).None?
    ensures GetFoodResponse(id, parse, c1, f1) == GetFoodResponse(id, parse, c2, f2) == InvalidIdFormat
  {
  }

  /** A listing inserted under an id is returned unchanged by a lookup of that id. */
  lemma InsertThenGetFood(c: Collection, oid: ObjectId, body: Document, id: string, parse: IdParser)
    requires WellFormed(c) && oid !in c.docs && parse(id) == Some(oid)
    ensures GetFoodResponse(id, parse, InsertOne(c, oid, body).value, false) == Doc(Entry(oid, body))
  {
  }

  /** The document an update of `id` starts from: the stored one, or an empty one for an upsert. */
  function Current(c: Collection, id: ObjectId): (d: Document)
    ensures id in c.docs ==> d == c.docs[id]
    ensures id !in c.docs ==> d == map[]
  {
    if id in c.docs then c.docs[id] else map[]
  }

  /** The server: its two collections, reached through the one client opened at start-up. */
  class Server {
    var foods: Collection
    var purchases: Collection

    ghost predicate Valid()
      reads this
    {
      WellFormed(foods) && WellFormed(purchases)
    }

    /** A server over the listings and purchase records the store already holds. */
    constructor (listings: Collection, purchaseRecords: Collection)
      requires WellFormed(listings) && WellFormed(purchaseRecords)
      ensures Valid()
      ensures foods == listings && purchases == purchaseRecords
    {
      foods := listings;
      purchases := purchaseRecords;
    }

    /** `POST /addfood`: inserts the body as a new listing under the driver-generated id. */
    method AddFood(body: Document, newId: ObjectId) returns (r: Response)
      requires Valid()
      modifies this
      ensures Valid() && purchases == old(purchases)
      ensures newId in old(foods.docs) ==> r == Unhandled && foods == old(foods)
      ensures newId !in old(foods.docs) ==>
        r == Inserted(newId) &&
        foods.docs == old(foods.docs)[newId := body] && foods.order == old(foods.order) + [newId]
    {
      match InsertOne(foods, newId, body)
      case Failure(_) =>
        r := Unhandled;
      case Success(c) =>
        foods := c;
        r := Inserted(newId);
    }

    /** `POST /purchasefood`: inserts the body as a new purchase record. */
    method AddPurchase(body: Document, newId: ObjectId) returns (r: Response)
      requires Valid()
      modifies this
      ensures Valid() && foods == old(foods)
      ensures newId in old(purchases.docs) ==> r == Unhandled && purchases == old(purchases)
      ensures newId !in old(purchases.docs) ==>
        r == Inserted(newId) &&
        purchases.docs == old(purchases.docs)[newId := body] &&
        purchases.order == old(purchases.order) + [newId]
    {
      match InsertOne(purchases, newId, body)
      case Failure(_) =>
        r := Unhandled;
      case Success(c) =>
        purchases := c;
        r := Inserted(newId);
    }

    /** `GET /purchasefood`: every purchase record once, unscoped. */
    method GetPurchases() returns (r: Response)
      requires Valid()
      ensures r.Docs? && IdsDistinct(r.entries) && |r.entries| == |purchases.order|
      ensures forall e :: e in r.entries <==> Stored(purchases, e)
    {
      r := Docs(FindAll(purchases));
    }

    /**
     * `GET /purchasefood/:email` behind `verifyAcessToken, emailVerification`:
     * 401, then 403, then exactly the purchase records whose `email` is the
     * path email.
     */
    method GetPurchasesByEmail(header: Option<string>, email: string, verify: Verifier) returns (r: Response)
      requires Valid()
      ensures VerifyAccessToken(header, verify).Unauthenticated? ==> r == UnauthorizedAccess
      ensures (VerifyAccessToken(header, verify).Authenticated? &&
               VerifyAccessToken(header, verify).decoded.email != Some(email)) ==>
        r == ForbiddenAccess
      ensures (VerifyAccessToken(header, verify).Authenticated? &&
               VerifyAccessToken(header, verify).decoded.email == Some(email)) ==>
        r.Docs? && IdsDistinct(r.entries) &&
        forall e :: e in r.entries <==> Stored(purchases, e) && Matches(e.doc, PurchaserField, Str(email))
    {
      match OwnerScopedGate(header, email, verify)
      case Halt(status) =>
        r := HaltResponse(status);
      case Proceed(_) =>
        r := Docs(FindWhere(purchases, PurchaserField, Str(email)));
    }

    /** `GET /getfood/:id` on the current listings. */
    method GetFood(id: string, parse: IdParser, storeFault: bool) returns (r: Response)
      requires Valid()
      ensures r == GetFoodResponse(id, parse, foods, storeFault)
    {
      // The handler only reads, so its status choice is the function's.
      r := GetFoodResponse(id, parse, foods, storeFault);
    }

    /**
     * `PATCH /update/purchasecount/:id`, open to anyone: adds the signed
     * `newvalue` to the listing's `purchaseFoodCount` (creating the listing
     * with only that field when the id is unknown); a malformed id or a
     * non-numeric value or counter rejects the handler with nothing changed.
     */
    method UpdatePurchaseCount(id: string, newvalue: Value, parse: IdParser) returns (r: Response)
      requires Valid()
      modifies this
      ensures Valid() && purchases == old(purchases)
      ensures r.Update? || r == Unhandled
      ensures r == Unhandled <==>
        parse(id).None? || !newvalue.Num? ||
        (CounterField in Current(old(foods), parse(id).value) &&
         !Current(old(foods), parse(id).value)[CounterField].Num?)
      ensures r == Unhandled ==> foods == old(foods)
      ensures r.Update? ==>
        var oid := parse(id).value;
        var before := Current(old(foods), oid);
        foods.docs == old(foods.docs)[oid := before[CounterField := Num(CounterOf(before, CounterField) + newvalue.n)]] &&
        (oid in old(foods.docs) ==> foods.order == old(foods.order) && r.result.matched == 1 && r.result.upsertedId == None) &&
        (oid in old(foods.docs) ==> r.result.modified == (if foods.docs[oid] == old(foods.docs)[oid] then 0 else 1)) &&
        (oid in old(foods.docs) ==> r.result.modified == (if newvalue.n != 0 || CounterField !in before then 1 else 0)) &&
        (oid !in old(foods.docs) ==> foods.order == old(foods.order) + [oid] && r.result == UpdateResult(0, 0, Some(oid)))
    {
      match parse(id)
      case None =>
        r := Unhandled;
      case Some(oid) =>
        match UpdateInc(foods, oid, CounterField, newvalue)
        case Failure(_) =>
          r := Unhandled;
        case Success(u) =>
          ghost var before := Current(foods, oid);
          ghost var after := before[CounterField := Num(CounterOf(before, CounterField) + newvalue.n)];
          if oid in foods.docs {
            assert u.coll.docs[oid] == after;
          } else {
            assert map[CounterField := newvalue] == after;
          }
          assert u.coll.docs == foods.docs[oid := after];
          foods := u.coll;
          r := Update(u.result);
    }

    /**
     * `PUT /update/myfood/:id` behind `verifyAcessToken` only (no owner
     * check): merges the body into the listing, creating the listing from the
     * body when the id is unknown; 401 comes before the id is looked at.
     */
    method UpdateMyFood(header: Option<string>, id: string, body: Document, verify: Verifier, parse: IdParser)
      returns (r: Response)
      requires Valid()
      modifies this
      ensures Valid() && purchases == old(purchases)
      ensures VerifyAccessToken(header, verify).Unauthenticated? ==> r == UnauthorizedAccess && foods == old(foods)
      ensures VerifyAccessToken(header, verify).Authenticated? && parse(id).None? ==> r == Unhandled && foods == old(foods)
      ensures VerifyAccessToken(header, verify).Authenticated? && parse(id).Some? ==>
        var oid := parse(id).value;
        r.Update? &&
        foods.docs == old(foods.docs)[oid := SetFields(Current(old(foods), oid), body)] &&
        (oid in old(foods.docs) ==> foods.order == old(foods.order) && r.result.matched == 1 && r.result.upsertedId == None) &&
        (oid in old(foods.docs) ==> r.result.modified == (if foods.docs[oid] == old(foods.docs)[oid] then 0 else 1)) &&
        (oid !in old(foods.docs) ==> foods.order == old(foods.order) + [oid] && r.result == UpdateResult(0, 0, Some(oid)))
    {
      match AuthenticatedGate(header, verify)
      case Halt(status) =>
        r := HaltResponse(status);
      case Proceed(_) =>
        match parse(id)
        case None =>
          r := Unhandled;
        case Some(oid) =>
          var u := UpdateSet(foods, oid, body);
          SetFieldsOnEmpty(body);
          foods := u.coll;
          r := Update(u.result);
    }

    /**
     * `GET /addfood`: at most six listings, each once, all of them when there
     * are fewer, in the order of the sort on `purchaseFoodCount` descending,
     * and no listing left out sorts before one returned.
     */
    method GetTopFoods() returns (r: Response)
      requires Valid()
      ensures r.Docs? && |r.entries| <= TopLimit
      ensures IdsDistinct(r.entries)
      ensures forall e :: e in r.entries ==> Stored(foods, e)
      ensures |r.entries| < TopLimit ==> forall id :: id in foods.docs ==> Entry(id, foods.docs[id]) in r.entries
      ensures SortedByCount(r.entries)
      ensures forall id, i ::
        (id in foods.docs && Entry(id, foods.docs[id]) !in r.entries && 0 <= i < |r.entries|) ==>
          Ranks(r.entries[i], Entry(id, foods.docs[id]))
      ensures CountsNonIncreasing(r.entries)
      ensures forall id, i ::
        (id in foods.docs && Entry(id, foods.docs[id]) !in r.entries && 0 <= i < |r.entries| &&
         Count(r.entries[i]).Some? && Count(Entry(id, foods.docs[id])).Some?) ==>
          Count(r.entries[i]).value >= Count(Entry(id, foods.docs[id])).value
    {
      r := Docs(FindTopByCount(foods, TopLimit));
    }

    /** `GET /addfood/all-food`: every listing once. */
    method GetAllFoods() returns (r: Response)
      requires Valid()
      ensures r.Docs? && IdsDistinct(r.entries) && |r.entries| == |foods.order|
      ensures forall e :: e in r.entries <==> Stored(foods, e)
    {
      r := Docs(FindAll(foods));
    }

    /**
     * `GET /addfood/all-food/:email` behind `verifyAcessToken, emailVerification`:
     * 401, then 403, then exactly the listings whose `userEmail` is the path email.
     */
    method GetFoodsByEmail(header: Option<string>, email: string, verify: Verifier) returns (r: Response)
      requires Valid()
      ensures VerifyAccessToken(header, verify).Unauthenticated? ==> r == UnauthorizedAccess
      ensures (VerifyAccessToken(header, verify).Authenticated? &&
               VerifyAccessToken(header, verify).decoded.email != Some(email)) ==>
        r == ForbiddenAccess
      ensures (VerifyAccessToken(header, verify).Authenticated? &&
               VerifyAccessToken(header, verify).decoded.email == Some(email)) ==>
        r.Docs? && IdsDistinct(r.entries) &&
        forall e :: e in r.entries <==> Stored(foods, e) && Matches(e.doc, ListingOwnerField, Str(email))
    {
      match OwnerScopedGate(header, email, verify)
      case Halt(status) =>
        r := HaltResponse(status);
      case Proceed(_) =>
        r := Docs(FindWhere(foods, ListingOwnerField, Str(email)));
    }

    /**
     * `DELETE /deleteOrder/:id`, open to anyone: removes the purchase record
     * with that id if there is one; listings are untouched; a malformed id
     * rejects the handler.
     */
    method DeleteOrder(id: string, parse: IdParser) returns (r: Response)
      requires Valid()
      modifies this
      ensures Valid() && foods == old(foods)
      ensures parse(id).None? ==> r == Unhandled && purchases == old(purchases)
      ensures parse(id).Some? ==>
        var oid := parse(id).value;
        purchases.docs == old(purchases.docs) - {oid} &&
        IsSubsequence(purchases.order, old(purchases.order)) &&
        r == Deleted(if oid in old(purchases.docs) then 1 else 0) &&
        (oid !in old(purchases.docs) ==> purchases == old(purchases))
    {
      match parse(id)
      case None =>
        r := Unhandled;
      case Some(oid) =>
        var removed := DeleteOne(purchases, oid);
        purchases := removed.coll;
        r := Deleted(removed.deletedCount);
    }
  }

  /**
   * A listing created by a@x.com is among the listings its owner reads back,
   * and another signed-in user asking for a@x.com's listings gets 403.
   */
  method OwnerScopedScenario(s: Server, newId: ObjectId, verify: Verifier)
    returns (created: Response, mine: Response, theirs: Response)
    requires s.Valid() && newId !in s.foods.docs
    requires verify("tokenA") == Verified(DecodedToken("uidA", Some("a@x.com")))
    requires verify("tokenB") == Verified(DecodedToken("uidB", Some("b@x.com")))
    modifies s
    ensures created == Inserted(newId)
    ensures mine.Docs? && Entry(newId, map["name" := Str("Pasta"), "userEmail" := Str("a@x.com")]) in mine.entries
    ensures theirs == ForbiddenAccess
  {
    var pasta := map["name" := Str("Pasta"), ListingOwnerField := Str("a@x.com")];
    created := s.AddFood(pasta, newId);
    BearerTokenRoundTrip("tokenA", "");
    BearerTokenRoundTrip("tokenB", "");
    mine := s.GetFoodsByEmail(Some(BearerPrefix + "tokenA"), "a@x.com", verify);
    assert Stored(s.foods, Entry(newId, pasta));
    theirs := s.GetFoodsByEmail(Some(BearerPrefix + "tokenB"), "a@x.com", verify);
  }

  /** A listing added through `POST /addfood` is returned unchanged by `GET /getfood/:id`. */
  method AddThenGetScenario(s: Server, body: Document, newId: ObjectId, id: string, parse: IdParser)
    returns (created: Response, fetched: Response)
    requires s.Valid() && newId !in s.foods.docs && parse(id) == Some(newId)
    modifies s
    ensures created == Inserted(newId)
    ensures fetched == Doc(Entry(newId, body))
  {
    created := s.AddFood(body, newId);
    fetched := s.GetFood(id, parse, false);
  }

  /** `newvalue: -1` on a counter at 0 is not refused: the counter becomes -1. */
  method NegativeCounterScenario(s: Server, id: string, parse: IdParser) returns (r: Response)
    requires s.Valid() && parse(id).Some?
    requires parse(id).value in s.foods.docs
    requires CounterField in s.foods.docs[parse(id).value]
    requires s.foods.docs[parse(id).value][CounterField] == Num(0)
    modifies s
    ensures r.Update?
    ensures parse(id).value in s.foods.docs && CounterField in s.foods.docs[parse(id).value]
    ensures s.foods.docs[parse(id).value][CounterField] == Num(-1)
  {
    r := s.UpdatePurchaseCount(id, Num(-1), parse);
  }
}
