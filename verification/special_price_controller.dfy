/**
 * The special-price request handlers, as functions from the request fields
 * and the current collections to the responses sent and the collection after.
 *
 * A thrown error reaches the global error handler, which replies 500 with
 * the error's message (no error here carries its own status).
 */
module SpecialPriceController {
  import opened Models
  import ProductRepository
  import Repo = SpecialPriceRepository
  import Service = SpecialPriceService

  /** A JSON request-body value. Numbers are integers. */
  datatype Value = Undefined | Null | Bool(b: bool) | Num(n: int) | Str(s: string) | Compound

  /** JavaScript truthiness (`!v` is false). */
  predicate Truthy(v: Value) {
    match v
    case Undefined => false
    case Null => false
    case Bool(b) => b
    case Num(n) => TruthyNumber(n)
    case Str(s) => s != ""
    case Compound => true
  }

  /** `typeof v === "number" && v > 0`. */
  predicate PositiveNumber(v: Value) {
    v.Num? && v.n > 0
  }

  /** The `data` of a response envelope. */
  datatype Data = NoData | Document(doc: Saved)

  datatype Response = Response(status: int, message: string, data: Data)

  /**
   * A handled request: the collection afterwards and every response the
   * handler tried to send, in order. The client receives the first.
   */
  datatype Handled = Handled(store: Store, sent: seq<Response>)

  function BadRequest(message: string): Response { Response(400, message, NoData) }
  function NotFound(message: string): Response { Response(404, message, NoData) }
  function Success(data: Data, message: string): Response { Response(200, message, data) }
  function Created(data: Data, message: string): Response { Response(201, message, data) }
  function ServerError(fault: Fault): Response { Response(500, fault.Message(), NoData) }

  function Last(sent: seq<Response>): Response
    requires |sent| > 0
  {
    sent[|sent| - 1]
  }

  const InvalidIdFormat := "productId, Invalid ID format"
  const CreateFieldsRequired := "name, email, productId, specialPrice are required"
  const PriceMustBePositive := "Special price must be a positive number"
  const CreatedMessage := "Special price created successfully"
  const AddFieldsRequired := "id, product ID and special price are required"
  const ProductMissing := "Product not found"
  const ProfileMissing := "User ID, No special price was found for the ID entered"
  const UpdatedMessage := "Special price updated successfully"
  const UpdateFieldsRequired := "productId and specialPrice are required"
  const UpdateIdRequired := "User ID is required from the parameter"
  const ValidPriceRequired := "Valid special price is required"
  const SpecialPriceMissing := "Special price not found"
  const DeleteIdRequired := "id are required"
  const DeletedMessage := "Special price deleted successfully"
  const DeleteFieldsRequired := "id, productId are required"

  predicate CreateFieldsPresent(name: string, email: string, productId: string, specialPrice: Value) {
    name != "" && email != "" && productId != "" && Truthy(specialPrice)
  }

  /**
   * POST /api/special-prices. A malformed productId sends a 400 but the
   * handler carries on, so a second response is attempted after it.
   */
  function CreateSpecialPrice(catalog: seq<Product>, store: Store, newId: Id, name: string, email: string,
                              productId: string, specialPrice: Value): (h: Handled)
    requires newId !in store && IsCanonical(newId)
    ensures 1 <= |h.sent| <= 2
    ensures |h.sent| == 2 <==> !ValidObjectId(productId)
    ensures !ValidObjectId(productId) ==> h.sent[0] == BadRequest(InvalidIdFormat)
    ensures !CreateFieldsPresent(name, email, productId, specialPrice) ==>
              Last(h.sent) == BadRequest(CreateFieldsRequired) && h.store == store
    ensures CreateFieldsPresent(name, email, productId, specialPrice) && !PositiveNumber(specialPrice) ==>
              Last(h.sent) == BadRequest(PriceMustBePositive) && h.store == store
    ensures CreateFieldsPresent(name, email, productId, specialPrice) && PositiveNumber(specialPrice)
            && ProductRepository.FindProduct(catalog, productId).None? ==>
              Last(h.sent) == Response(500, "Product not found", NoData) && h.store == store
    ensures h.store != store <==>
              CreateFieldsPresent(name, email, productId, specialPrice) && PositiveNumber(specialPrice)
              && ProductRepository.FindProduct(catalog, productId).Some?
    ensures h.store != store ==>
              && h.store == store[newId := Profile(name, email, [Entry(Canonical(productId), specialPrice.n)])]
              && Last(h.sent) == Created(Document(Saved(newId, h.store[newId])), CreatedMessage)
  {
    var first := if ValidObjectId(productId) then [] else [BadRequest(InvalidIdFormat)];
    if !CreateFieldsPresent(name, email, productId, specialPrice) then
      Handled(store, first + [BadRequest(CreateFieldsRequired)])
    else if !PositiveNumber(specialPrice) then
      Handled(store, first + [BadRequest(PriceMustBePositive)])
    else
      var o := Service.CreateSpecialPrice(catalog, store, newId, name, email, productId, specialPrice.n);
      match o.result
      case Err(fault) => Handled(o.store, first + [ServerError(fault)])
      case Ok(saved) => Handled(o.store, first + [Created(Document(saved), CreatedMessage)])
  }

  /**
   * With a catalog of well-formed ids, a malformed productId never creates a
   * profile: the client gets the 400, and the later lookup finds nothing.
   */
  lemma MalformedProductIdCreatesNothing(catalog: seq<Product>, store: Store, newId: Id, name: string,
                                         email: string, productId: string, specialPrice: Value)
    requires newId !in store && IsCanonical(newId)
    requires forall i :: 0 <= i < |catalog| ==> ValidObjectId(catalog[i].id)
    requires !ValidObjectId(productId)
    ensures var h := CreateSpecialPrice(catalog, store, newId, name, email, productId, specialPrice);
            h.store == store && h.sent[0].status == 400 && Last(h.sent).status != 201
  {
  }

  /** A zero price is falsy and is refused by the required-fields check, before the sign check. */
  lemma ZeroPriceIsMissing(catalog: seq<Product>, store: Store, newId: Id, name: string,
                           email: string, productId: string)
    requires newId !in store && IsCanonical(newId)
    ensures var h := CreateSpecialPrice(catalog, store, newId, name, email, productId, Num(0));
            Last(h.sent) == BadRequest(CreateFieldsRequired) && h.store == store
  {
  }

  predicate AddFieldsValid(id: string, productId: string, specialPrice: Value) {
    id != "" && productId != "" && Truthy(specialPrice) && PositiveNumber(specialPrice)
  }

  /**
   * PUT /api/special-prices/add-special-price. A missing product is reported
   * (404) before a missing profile (400); the upsert runs only when both exist.
   */
  function AddSpecialPrice(catalog: seq<Product>, store: Store, id: string, productId: string,
                           specialPrice: Value): (h: Handled)
    ensures |h.sent| == 1
    ensures id == "" || productId == "" || !Truthy(specialPrice) ==>
              h.sent[0] == BadRequest(AddFieldsRequired)
    ensures id != "" && productId != "" && Truthy(specialPrice) && !PositiveNumber(specialPrice) ==>
              h.sent[0] == BadRequest(PriceMustBePositive)
    ensures AddFieldsValid(id, productId, specialPrice) && ProductRepository.FindProduct(catalog, productId).None? ==>
              h.sent[0] == NotFound(ProductMissing)
    ensures AddFieldsValid(id, productId, specialPrice) && ProductRepository.FindProduct(catalog, productId).Some?
            && Canonical(id) !in store ==>
              h.sent[0] == BadRequest(ProfileMissing)
    ensures h.sent[0].status == 200 <==>
              AddFieldsValid(id, productId, specialPrice) && ProductRepository.FindProduct(catalog, productId).Some?
              && Canonical(id) in store
    ensures h.sent[0].status in {200, 400, 404}
    ensures h.sent[0].status != 200 ==> h.store == store
    ensures h.sent[0].status == 200 ==>
              var o := Repo.AddProductToSpecialPrice(store, id, productId, specialPrice.n);
              h.store == o.store && h.sent[0] == Success(Document(o.result.value), UpdatedMessage)
  {
    if id == "" || productId == "" || !Truthy(specialPrice) then
      Handled(store, [BadRequest(AddFieldsRequired)])
    else if !PositiveNumber(specialPrice) then
      Handled(store, [BadRequest(PriceMustBePositive)])
    else
      var profile := Service.GetSpecialPricesById(store, id);
      var product := ProductRepository.FindProduct(catalog, productId);
      if product.None? then
        Handled(store, [NotFound(ProductMissing)])
      else if profile.None? then
        Handled(store, [BadRequest(ProfileMissing)])
      else
        var o := Service.AddProductToSpecialPrice(store, id, productId, specialPrice.n);
        match o.result
        case Ok(saved) => Handled(o.store, [Success(Document(saved), UpdatedMessage)])
        case Err(fault) => Handled(o.store, [ServerError(fault)])
  }

  predicate UpdateFieldsValid(id: string, productId: string, specialPrice: Value) {
    productId != "" && Truthy(specialPrice) && id != "" && PositiveNumber(specialPrice)
  }

  /**
   * PUT /api/special-prices/:id. The body fields are checked before the id
   * parameter, then the price; a null update result is a 404.
   */
  function UpdateSpecialPrice(store: Store, id: string, productId: string, specialPrice: Value): (h: Handled)
    ensures |h.sent| == 1
    ensures productId == "" || !Truthy(specialPrice) ==> h.sent[0] == BadRequest(UpdateFieldsRequired)
    ensures productId != "" && Truthy(specialPrice) && id == "" ==> h.sent[0] == BadRequest(UpdateIdRequired)
    ensures productId != "" && Truthy(specialPrice) && id != "" && !PositiveNumber(specialPrice) ==>
              h.sent[0] == BadRequest(ValidPriceRequired)
    ensures h.sent[0].status == 404 <==>
              UpdateFieldsValid(id, productId, specialPrice)
              && !(Canonical(id) in store && HasEntry(store[Canonical(id)].products, Canonical(productId)))
    ensures h.sent[0].status == 200 <==>
              UpdateFieldsValid(id, productId, specialPrice)
              && Canonical(id) in store && HasEntry(store[Canonical(id)].products, Canonical(productId))
    ensures h.sent[0].status == 404 ==> h.sent[0] == NotFound(SpecialPriceMissing)
    ensures h.sent[0].status != 200 ==> h.store == store
    ensures h.sent[0].status == 200 ==>
              var o := Repo.UpdateSpecialPrice(store, id, productId, specialPrice.n);
              h.store == o.store && h.sent[0] == Success(Document(o.result.value), UpdatedMessage)
  {
    if productId == "" || !Truthy(specialPrice) then
      Handled(store, [BadRequest(UpdateFieldsRequired)])
    else if id == "" then
      Handled(store, [BadRequest(UpdateIdRequired)])
    else if !Truthy(specialPrice) || !PositiveNumber(specialPrice) then
      Handled(store, [BadRequest(ValidPriceRequired)])
    else
      var o := Service.UpdateSpecialPrice(store, id, productId, specialPrice.n);
      match o.result
      case None => Handled(o.store, [NotFound(SpecialPriceMissing)])
      case Some(saved) => Handled(o.store, [Success(Document(saved), UpdatedMessage)])
  }

  /** DELETE /api/special-prices/:id: 400 without an id, 404 when nothing was deleted, else null data. */
  function DeleteSpecialPriceById(store: Store, id: string): (h: Handled)
    ensures |h.sent| == 1
    ensures id == "" ==> h.sent[0] == BadRequest(DeleteIdRequired) && h.store == store
    ensures h.sent[0].status == 404 <==> id != "" && Canonical(id) !in store
    ensures h.sent[0].status == 200 <==> id != "" && Canonical(id) in store
    ensures h.sent[0].status == 200 ==> h.sent[0] == Success(NoData, DeletedMessage)
    ensures id != "" ==> Canonical(id) !in h.store
    ensures id != "" ==> h.store.Keys == store.Keys - {Canonical(id)}
    ensures forall other :: other in h.store ==> other in store && h.store[other] == store[other]
    ensures h.sent[0].status == 404 ==> h.sent[0] == NotFound(SpecialPriceMissing) && h.store == store
    ensures id != "" ==> h.store == Repo.DeleteSpecialPrice(store, id).store
  {
    if id == "" then Handled(store, [BadRequest(DeleteIdRequired)])
    else
      var o := Service.DeleteSpecialPriceById(store, id);
      if o.result.None? then Handled(o.store, [NotFound(SpecialPriceMissing)])
      else Handled(o.store, [Success(NoData, DeletedMessage)])
  }

  /**
   * DELETE /api/special-prices/delete-product-special-price/:id. A missing
   * profile makes the repository throw, so the reply is a 500; the handler's
   * own 404 branch is never taken, as the result is always a document.
   */
  function DeleteSpecialPriceByIdProduct(store: Store, id: string, productId: string): (h: Handled)
    ensures |h.sent| == 1
    ensures id == "" || productId == "" ==> h.sent[0] == BadRequest(DeleteFieldsRequired) && h.store == store
    ensures h.sent[0].status != 404
    ensures h.sent[0].status == 500 <==> id != "" && productId != "" && Canonical(id) !in store
    ensures h.sent[0].status == 500 ==> h.sent[0].message == "Special Price not found" && h.store == store
    ensures h.sent[0].status == 200 <==> id != "" && productId != "" && Canonical(id) in store
    ensures h.sent[0].status == 200 ==>
              && h.sent[0] == Success(NoData, DeletedMessage)
              && h.store == Repo.DeleteSpecialPriceByIdProduct(store, id, productId).store
  {
    if id == "" || productId == "" then Handled(store, [BadRequest(DeleteFieldsRequired)])
    else
      var o := Service.DeleteSpecialPriceByIdProduct(store, id, productId);
      match o.result
      case Err(fault) => Handled(o.store, [ServerError(fault)])
      case Ok(_) => Handled(o.store, [Success(NoData, DeletedMessage)])
  }
}
