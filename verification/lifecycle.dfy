/**
 * A profile's life across sequences of repository mutations: the
 * at-most-one-entry-per-product and non-empty-array invariants hold after
 * any sequence, and a worked create / add / update / remove scenario.
 */
module Lifecycle {
  import opened Models
  import Repo = SpecialPriceRepository

  /** The mutations a profile can undergo after it exists. */
  datatype Op =
    | Add(id: string, productId: string, specialPrice: int)
    | Update(id: string, productId: string, specialPrice: int)
    | Remove(id: string, productId: string)
    | Delete(id: string)

  function Step(store: Store, op: Op): (after: Store)
    ensures WellFormed(store) ==> WellFormed(after)
  {
    match op
    case Add(id, productId, specialPrice) => Repo.AddProductToSpecialPrice(store, id, productId, specialPrice).store
    case Update(id, productId, specialPrice) => Repo.UpdateSpecialPrice(store, id, productId, specialPrice).store
    case Remove(id, productId) => Repo.DeleteSpecialPriceByIdProduct(store, id, productId).store
    case Delete(id) => Repo.DeleteSpecialPrice(store, id).store
  }

  /** The collection after the operations, applied in order. */
  function Run(store: Store, ops: seq<Op>): (after: Store)
    ensures WellFormed(store) ==> WellFormed(after)
    ensures after.Keys <= store.Keys
  {
    if |ops| == 0 then store
    else Run(Step(store, ops[0]), ops[1..])
  }

  /** An object id as the driver prints it. */
  predicate PrintedObjectId(s: string) {
    ValidObjectId(s) && IsCanonical(s)
  }

  /*
   * A worked scenario, step by step: create a profile for Ana with one
   * price, add a second product, change the first price, then remove both.
   * The ids are any distinct object ids in printed form.
   */

  lemma AnaCreateThenAdd(store: Store, anaId: Id, p1: Id, p2: Id)
    requires PrintedObjectId(anaId) && PrintedObjectId(p1) && PrintedObjectId(p2) && p1 != p2
    requires anaId !in store
    ensures var created := Repo.CreateSpecialPrice(store, anaId, "Ana", "ana@x.com", p1, 50).store;
            && Repo.GetSpecialPricesByIdGroup(created, anaId) == [Entry(p1, 50)]
            && Repo.GetSpecialPricesByIdGroup(Repo.AddProductToSpecialPrice(created, anaId, p2, 30).store, anaId)
               == [Entry(p1, 50), Entry(p2, 30)]
  {
    CanonicalIsCanonical(anaId);
    CanonicalIsCanonical(p1);
    CanonicalIsCanonical(p2);
    assert !HasEntry([Entry(p1, 50)], p2);
  }

  lemma AnaUpdate(store: Store, anaId: Id, p1: Id, p2: Id)
    requires PrintedObjectId(anaId) && PrintedObjectId(p1) && PrintedObjectId(p2) && p1 != p2
    requires anaId in store && store[anaId].products == [Entry(p1, 50), Entry(p2, 30)]
    ensures Repo.GetSpecialPricesByIdGroup(Repo.UpdateSpecialPrice(store, anaId, p1, 45).store, anaId)
            == [Entry(p1, 45), Entry(p2, 30)]
  {
    CanonicalIsCanonical(anaId);
    CanonicalIsCanonical(p1);
  }

  lemma AnaRemoveBoth(store: Store, anaId: Id, p1: Id, p2: Id)
    requires PrintedObjectId(anaId) && PrintedObjectId(p1) && PrintedObjectId(p2) && p1 != p2
    requires anaId in store && store[anaId].products == [Entry(p1, 45), Entry(p2, 30)]
    ensures var removed1 := Repo.DeleteSpecialPriceByIdProduct(store, anaId, p1).store;
            && Repo.GetSpecialPricesByIdGroup(removed1, anaId) == [Entry(p2, 30)]
            && Repo.GetSpecialPricesById(Repo.DeleteSpecialPriceByIdProduct(removed1, anaId, p2).store, anaId) == None
  {
    CanonicalIsCanonical(anaId);
    CanonicalIsCanonical(p1);
    CanonicalIsCanonical(p2);
    Repo.RemoveProductSingle(store[anaId].products, p1, 0);
  }
}
