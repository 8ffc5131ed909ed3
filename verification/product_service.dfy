/**
 * The product service: merges a user's special prices into the catalog
 * listing, and the single-product read.
 */
module ProductService {
  import opened Models
  import ProductRepository
  import SpecialPriceRepository

  /**
   * A product as the service hands it out: the product (whose `price` may be
   * the special one) and the two fields the merge may add; `None` means the
   * field is not present on the object at all.
   */
  datatype View = View(product: Product, originalPrice: Option<int>, hasSpecialPrice: Option<bool>)

  /** Reference lookup: the price of the LAST entry for the product, found by scanning from the end. */
  function LastOverride(entries: seq<Entry>, productId: Id): (r: Option<int>)
    ensures r.None? <==> !HasEntry(entries, productId)
    ensures r.Some? ==> exists i :: 0 <= i < |entries| && entries[i] == Entry(productId, r.value)
  {
    if |entries| == 0 then None
    else
      var last := entries[|entries| - 1];
      var init := entries[..|entries| - 1];
      assert forall i :: 0 <= i < |init| ==> init[i] == entries[i];
      if last.productId == productId then Some(last.specialPrice)
      else LastOverride(init, productId)
  }

  /** The special price a user actually gets for a product: the last override, when truthy. */
  function SpecialPriceOf(entries: seq<Entry>, productId: Id): Option<int> {
    match LastOverride(entries, productId)
    case Some(v) => if TruthyNumber(v) then Some(v) else None
    case None => None
  }

  /**
   * The lookup `Map` filled by `forEach` + `set` in list order, so a
   * later entry for the same product overwrites an earlier one.
   */
  function BuildLookup(entries: seq<Entry>): (m: map<Id, int>)
    ensures forall pid :: pid in m <==> HasEntry(entries, pid)
    ensures forall pid :: pid in m ==> LastOverride(entries, pid) == Some(m[pid])
  {
    if |entries| == 0 then map[]
    else
      var last := entries[|entries| - 1];
      var init := entries[..|entries| - 1];
      assert forall i :: 0 <= i < |init| ==> init[i] == entries[i];
      BuildLookup(init)[last.productId := last.specialPrice]
  }

  /** The per-product step of the merge. */
  function ApplyOverride(product: Product, lookup: map<Id, int>): View {
    if product.id in lookup && TruthyNumber(lookup[product.id]) then
      View(product.(price := lookup[product.id]), Some(product.price), Some(true))
    else
      View(product, None, Some(false))
  }

  /** `products.map(...)`: one view per product, in the same order. */
  function ApplyOverrides(products: seq<Product>, lookup: map<Id, int>): (r: seq<View>)
    ensures |r| == |products|
    ensures forall i :: 0 <= i < |r| ==> r[i] == ApplyOverride(products[i], lookup)
  {
    if |products| == 0 then []
    else [ApplyOverride(products[0], lookup)] + ApplyOverrides(products[1..], lookup)
  }

  /**
   * `getAllProducts`: without a user the catalog as it is; with one, every
   * product flagged, and repriced where the user has a truthy override.
   */
  function GetAllProducts(catalog: seq<Product>, store: Store, userId: string): (r: seq<View>)
    ensures |r| == |catalog|
    ensures userId == "" ==> forall i :: 0 <= i < |r| ==> r[i] == View(catalog[i], None, None)
    ensures userId != "" ==> forall i :: 0 <= i < |r| ==>
      var granted := SpecialPriceOf(SpecialPriceRepository.GetSpecialPricesByIdGroup(store, userId), catalog[i].id);
      && r[i].hasSpecialPrice == Some(granted.Some?)
      && (granted.Some? ==> r[i].product == catalog[i].(price := granted.value)
                            && r[i].originalPrice == Some(catalog[i].price))
      && (granted.None? ==> r[i].product == catalog[i] && r[i].originalPrice == None)
  {
    if userId == "" then
      seq(|catalog|, i requires 0 <= i < |catalog| => View(catalog[i], None, None))
    else
      var specialPrices := SpecialPriceRepository.GetSpecialPricesByIdGroup(store, userId);
      ApplyOverrides(catalog, BuildLookup(specialPrices))
  }

  /** When the same product appears twice in the override list, the later price is the one used. */
  lemma {:induction false} LaterDuplicateWins(entries: seq<Entry>, j: int)
    requires 0 <= j < |entries|
    requires forall k :: j < k < |entries| ==> entries[k].productId != entries[j].productId
    ensures LastOverride(entries, entries[j].productId) == Some(entries[j].specialPrice)
    ensures BuildLookup(entries)[entries[j].productId] == entries[j].specialPrice
    decreases |entries|
  {
    var init := entries[..|entries| - 1];
    if j < |entries| - 1 {
      assert init[j] == entries[j];
      LaterDuplicateWins(init, j);
    }
  }

  /** A zero override is falsy: the product keeps its price and reports no special price. */
  lemma ZeroOverrideIsNoOverride(catalog: seq<Product>, store: Store, userId: string, i: int)
    requires userId != "" && 0 <= i < |catalog|
    requires LastOverride(SpecialPriceRepository.GetSpecialPricesByIdGroup(store, userId), catalog[i].id) == Some(0)
    ensures GetAllProducts(catalog, store, userId)[i] == View(catalog[i], None, Some(false))
  {
  }

  /** A user id with no profile reads as an empty override list: nothing is repriced. */
  lemma UnknownUserGetsNoSpecialPrices(catalog: seq<Product>, store: Store, userId: string)
    requires userId != "" && Canonical(userId) !in store
    ensures forall i :: 0 <= i < |catalog| ==>
      GetAllProducts(catalog, store, userId)[i] == View(catalog[i], None, Some(false))
  {
  }

  /**
   * `getProductById`: the product as it is when absent or without a user;
   * otherwise flagged `hasSpecialPrice = false` without consulting overrides.
   */
  function GetProductById(catalog: seq<Product>, id: string, userId: string): (r: Option<View>)
    ensures r.None? <==> ProductRepository.FindProduct(catalog, id).None?
    ensures r.Some? ==> r.value.product == ProductRepository.FindProduct(catalog, id).value
                        && r.value.product.id == Canonical(id)
                        && r.value.originalPrice == None
    ensures r.Some? ==> (r.value.hasSpecialPrice.None? <==> userId == "")
    ensures r.Some? && userId != "" ==> r.value.hasSpecialPrice == Some(false)
  {
    match ProductRepository.FindProduct(catalog, id)
    case None => None
    case Some(p) => if userId == "" then Some(View(p, None, None)) else Some(View(p, None, Some(false)))
  }

  /**
   * The two read paths disagree: a product the listing reprices for a user is
   * reported by the single-product read as having no special price.
   */
  lemma ListingAndSingleReadDisagree(catalog: seq<Product>, store: Store, userId: string, i: int)
    requires userId != "" && 0 <= i < |catalog| && IsCanonical(catalog[i].id)
    requires SpecialPriceOf(SpecialPriceRepository.GetSpecialPricesByIdGroup(store, userId), catalog[i].id).Some?
    ensures GetAllProducts(catalog, store, userId)[i].hasSpecialPrice == Some(true)
    ensures GetProductById(catalog, catalog[i].id, userId).Some?
    ensures GetProductById(catalog, catalog[i].id, userId).value.hasSpecialPrice == Some(false)
  {
  }
}
