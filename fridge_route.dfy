/** The fridge collection endpoint: listing the caller's items, and adding an item
    after an ordered chain of checks on the request body. */
module FridgeRoute {
  import opened Wrappers
  import opened Text
  import opened Decimal
  import opened Store
  import opened Http
  import AiService

  /** A JSON value as it arrives in a request body; `Composite` is an object or an
      array. JSON cannot carry NaN, so every number here is a real. */
  datatype Json = Undefined | Null | Bool(b: bool) | Number(n: real) | Str(s: string) | Composite

  /** The fields the endpoint destructures from the body (Undefined when absent). */
  datatype FridgeBody = FridgeBody(name: Json, quantity: Json, unit: Json, category: Json)

  const AuthRequired: string := "Authentication required"
  const FetchFailed: string := "Failed to fetch fridge items. " + "Please try again."
  const AddFailed: string := "Failed to add fridge item. " + "Please try again."
  const MissingFields: string := "Missing required fields: name, quantity, " + "unit, and category are required"
  const QuantityInvalid: string := "Quantity must be a positive number"
  const CategoryInvalid: string := "Category must be either " + "'essential' or 'fresh'"
  const NotAuthenticatedKeyword: string := "not authenticated"

  /** JavaScript truthiness of a JSON value. */
  predicate Truthy(v: Json) {
    !(v.Undefined? || v.Null? || v == Bool(false) || v == Number(0.0) || v == Str(""))
  }

  /** `parseFloat` of a JSON value: a number reads as itself, a string as the decimal
      it spells, anything else as NaN (None). */
  function ParseFloat(v: Json): Option<real> {
    match v
    case Number(n) => Some(n)
    case Str(s) => ParseDecimal(s)
    case _ => None
  }

  function CategoryName(c: Category): string {
    match c
    case Essential => "essential"
    case Fresh => "fresh"
  }

  /** The category a string names, when it names one. */
  function CategoryOf(v: Json): (r: Option<Category>)
    ensures r.Some? <==> v == Str("essential") || v == Str("fresh")
    ensures r.Some? ==> v == Str(CategoryName(r.value))
  {
    if v == Str("essential") then Some(Essential)
    else if v == Str("fresh") then Some(Fresh)
    else None
  }

  /** The presence check: a falsy name, unit or category, or an absent quantity. */
  predicate Missing(body: FridgeBody) {
    !Truthy(body.name) || body.quantity.Undefined? || !Truthy(body.unit) || !Truthy(body.category)
  }

  predicate QuantityOk(body: FridgeBody) {
    ParseFloat(body.quantity).Some? && ParseFloat(body.quantity).value > 0.0
  }

  predicate CategoryOk(body: FridgeBody) {
    CategoryOf(body.category).Some?
  }

  /** What the add endpoint does with a body, before the store is involved. */
  datatype PostStep =
    | Reject(response: Response)    // answered without calling the store
    | Add(data: FridgeItemData)     // the store is asked to add this item
    | AddRefused                    // the store is called but refuses the record: the unit is not text

  /** The ordered checks of the add endpoint: presence, then quantity, then
      category; the first failing check answers 400. A name that is not text fails
      when it is trimmed, which answers 500. */
  function ValidatePost(body: FridgeBody): (r: PostStep)
    ensures Missing(body) ==> r == Reject(Response(400, ErrorBody(MissingFields)))
    ensures !Missing(body) && !QuantityOk(body) ==> r == Reject(Response(400, ErrorBody(QuantityInvalid)))
    ensures !Missing(body) && QuantityOk(body) && !CategoryOk(body) ==>
      r == Reject(Response(400, ErrorBody(CategoryInvalid)))
    ensures r.Reject? && r.response.status == 400 <==> Missing(body) || !QuantityOk(body) || !CategoryOk(body)
    ensures r.Reject? && r.response.status != 400 ==> r.response == Response(500, ErrorBody(AddFailed))
    ensures r.Add? ==>
      && body.name.Str? && r.data.name == Trim(body.name.s)
      && ParseFloat(body.quantity) == Some(r.data.quantity) && r.data.quantity > 0.0
      && body.unit == Str(r.data.unit) && r.data.unit != ""
      && body.category == Str(CategoryName(r.data.category))
  {
    if Missing(body) then
      Reject(Response(400, ErrorBody(MissingFields)))
    else if !QuantityOk(body) then
      Reject(Response(400, ErrorBody(QuantityInvalid)))
    else if !CategoryOk(body) then
      Reject(Response(400, ErrorBody(CategoryInvalid)))
    else if !body.name.Str? then
      Reject(Response(500, ErrorBody(AddFailed)))
    else if !body.unit.Str? then
      AddRefused
    else
      Add(FridgeItemData(Trim(body.name.s), ParseFloat(body.quantity).value, body.unit.s,
                         CategoryOf(body.category).value))
  }

  /** A zero quantity is present: it passes the presence check and is refused by the
      quantity check. */
  lemma ZeroQuantityIsNotMissing(name: string, unit: string, category: string)
    requires name != "" && unit != "" && category != ""
    ensures ValidatePost(FridgeBody(Str(name), Number(0.0), Str(unit), Str(category)))
      == Reject(Response(400, ErrorBody(QuantityInvalid)))
  {
  }

  /** A name of white space only passes the presence check and is stored empty. */
  lemma BlankNameIsStoredEmpty(quantity: nat, unit: string)
    requires quantity > 0 && unit != ""
    ensures ValidatePost(FridgeBody(Str(" "), Number(quantity as real), Str(unit), Str("fresh")))
      == Add(FridgeItemData("", quantity as real, unit, Fresh))
  {
    assert Trim(" ") == "" by {
      assert AllSpace(" ");
    }
  }

  /** A positive whole quantity sent as text is accepted with its value. */
  lemma TextQuantityAccepted(name: string, n: nat, unit: string)
    requires IsTrimmed(name) && name != "" && unit != "" && n > 0
    ensures ValidatePost(FridgeBody(Str(name), Str(NatToDecimal(n)), Str(unit), Str("essential")))
      == Add(FridgeItemData(name, n as real, unit, Essential))
  {
    NatRoundTrip(n);
  }

  /** The reply to a failure thrown by the store: 401 when its message mentions that
      the caller is not authenticated, otherwise 500 with the endpoint's message. */
  function ErrorResponse(e: AiService.Thrown, fallback: string): (r: Response)
    ensures r.status == 401 <==> e.ErrorValue? && Contains(e.message, NotAuthenticatedKeyword)
    ensures r.status == 401 ==> r.body == ErrorBody(AuthRequired)
    ensures r.status != 401 ==> r == Response(500, ErrorBody(fallback))
  {
    if e.ErrorValue? && Contains(e.message, NotAuthenticatedKeyword) then
      Response(401, ErrorBody(AuthRequired))
    else
      Response(500, ErrorBody(fallback))
  }

  lemma MentionsNotAuthenticated(m: string)
    requires m == Store.NotAuthenticated
    ensures Contains(m, NotAuthenticatedKeyword)
  {
    assert m[5..5 + |NotAuthenticatedKeyword|] == NotAuthenticatedKeyword;
    MatchesAtSlice(m, NotAuthenticatedKeyword, 5);
    ContainsMeans(m, NotAuthenticatedKeyword);
  }

  /** The store's "no signed-in user" failure maps to 401. */
  lemma StoreErrorStatuses(fallback: string)
    ensures ErrorResponse(AiService.ErrorValue(Store.NotAuthenticated), fallback) == Response(401, ErrorBody(AuthRequired))
  {
    MentionsNotAuthenticated(Store.NotAuthenticated);
  }

  /** GET: the caller's items, newest first, or 401 when there is no current user. */
  method Get(db: Database, auth: Option<Principal>) returns (resp: Response)
    requires db.Valid()
    ensures db.CurrentUser(auth).None? ==> resp == Response(401, ErrorBody(AuthRequired))
    ensures db.CurrentUser(auth).Some? ==>
      resp.status == 200 && resp.body.ItemsBody?
      && IsListing(db.items, db.CurrentUser(auth).value.id, resp.body.items)
  {
    var items := db.GetFridgeItems(auth);
    if items.Failure? {
      StoreErrorStatuses(FetchFailed);
      return ErrorResponse(AiService.ErrorValue(items.error), FetchFailed);
    }
    resp := Response(200, ItemsBody(items.value));
  }

  /** POST: validate the body, then add the item for the caller. Nothing is stored
      when the reply is 400. */
  method Post(db: Database, auth: Option<Principal>, body: FridgeBody, now: int) returns (resp: Response)
    requires db.Valid()
    modifies db
    ensures db.Valid()
    ensures ValidatePost(body).Reject? ==>
      resp == ValidatePost(body).response && db.items == old(db.items) && db.users == old(db.users)
    ensures resp.status == 400 <==> Missing(body) || !QuantityOk(body) || !CategoryOk(body)
    ensures !ValidatePost(body).Reject? && SignedIn(auth).None? ==>
      resp == Response(401, ErrorBody(AuthRequired)) && db.items == old(db.items) && db.users == old(db.users)
    ensures !ValidatePost(body).Reject? && SignedIn(auth).Some? && auth.value.clerkId in old(db.users) ==>
      db.users == old(db.users)
    ensures !ValidatePost(body).Reject? && SignedIn(auth).Some? && auth.value.clerkId !in old(db.users) ==>
      db.users == old(db.users)[auth.value.clerkId :=
                                  User(old(db.nextUserId), auth.value.clerkId, StoredEmail(auth.value.email))]
    ensures ValidatePost(body).AddRefused? ==> db.items == old(db.items)
    ensures ValidatePost(body).AddRefused? && SignedIn(auth).Some? ==> resp == Response(500, ErrorBody(AddFailed))
    ensures ValidatePost(body).Add? && SignedIn(auth).Some? ==>
      var data := ValidatePost(body).data;
      && auth.value.clerkId in db.users
      && resp == Response(201, ItemBody(FridgeItem(old(db.nextItemId), db.users[auth.value.clerkId].id,
                                                 data.name, data.quantity, data.unit, data.category, now, now)))
      && db.items == old(db.items)[old(db.nextItemId) := resp.body.item]
  {
    StoreErrorStatuses(AddFailed);
    var step := ValidatePost(body);
    match step {
      case Reject(response) =>
        return response;
      case AddRefused =>
        var user := db.GetOrCreateUser(auth);
        if user.Failure? {
          return ErrorResponse(AiService.ErrorValue(user.error), AddFailed);
        }
        return Response(500, ErrorBody(AddFailed));
      case Add(data) =>
        var item := db.AddFridgeItem(auth, data, now);
        if item.Failure? {
          return ErrorResponse(AiService.ErrorValue(item.error), AddFailed);
        }
        return Response(201, ItemBody(item.value));
    }
  }
}
