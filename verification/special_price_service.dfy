/**
 * The special-price service: the product-existence guard on create, and
 * delegations to the repository.
 */
module SpecialPriceService {
  import opened Models
  import ProductRepository
  import Repo = SpecialPriceRepository

  /**
   * `createSpecialPrice`: throws "Product not found" when the product does
   * not exist; otherwise creates the profile. No check for an existing
   * profile with the same email is made.
   */
  function CreateSpecialPrice(catalog: seq<Product>, store: Store, newId: Id, name: string, email: string,
                              productId: string, specialPrice: int): (o: Outcome<Result<Saved>>)
    requires newId !in store && IsCanonical(newId)
    ensures o.result.Err? <==> ProductRepository.FindProduct(catalog, productId).None?
    ensures o.result.Err? ==> o.result.fault == ProductNotFound && o.store == store
    ensures o.result.Ok? ==>
      var created := Repo.CreateSpecialPrice(store, newId, name, email, productId, specialPrice);
      o.store == created.store && o.result.value == created.result
  {
    if ProductRepository.FindProduct(catalog, productId).None? then
      Outcome(store, Err(ProductNotFound))
    else
      var created := Repo.CreateSpecialPrice(store, newId, name, email, productId, specialPrice);
      Outcome(created.store, Ok(created.result))
  }

  /** Creating for an email that already has a profile succeeds and leaves two profiles with that email. */
  lemma CreateIgnoresExistingEmail(catalog: seq<Product>, store: Store, newId: Id, existing: Id,
                                   name: string, productId: string, specialPrice: int)
    requires newId !in store && IsCanonical(newId) && existing in store
    requires ProductRepository.FindProduct(catalog, productId).Some?
    ensures var o := CreateSpecialPrice(catalog, store, newId, name, store[existing].email, productId, specialPrice);
            && o.result.Ok?
            && existing in o.store && newId in o.store && existing != newId
            && o.store[existing].email == o.store[newId].email
  {
  }

  /** `getSpecialPricesById`: delegates to the repository. */
  function GetSpecialPricesById(store: Store, id: string): (r: Option<Saved>)
    ensures r == Repo.GetSpecialPricesById(store, id)
  {
    Repo.GetSpecialPricesById(store, id)
  }

  /** `addProductToSpecialPrice`: delegates to the repository with the same arguments. */
  function AddProductToSpecialPrice(store: Store, id: string, productId: string,
                                    specialPrice: int): (o: Outcome<Result<Saved>>)
    ensures o == Repo.AddProductToSpecialPrice(store, id, productId, specialPrice)
  {
    Repo.AddProductToSpecialPrice(store, id, productId, specialPrice)
  }

  /** `updateSpecialPrice`: delegates to the repository with the same arguments. */
  function UpdateSpecialPrice(store: Store, id: string, productId: string,
                              specialPrice: int): (o: Outcome<Option<Saved>>)
    ensures o == Repo.UpdateSpecialPrice(store, id, productId, specialPrice)
  {
    Repo.UpdateSpecialPrice(store, id, productId, specialPrice)
  }

  /** `deleteSpecialPriceById`: delegates to the repository's `deleteSpecialPrice`. */
  function DeleteSpecialPriceById(store: Store, id: string): (o: Outcome<Option<Repo.DeleteResult>>)
    ensures o == Repo.DeleteSpecialPrice(store, id)
  {
    Repo.DeleteSpecialPrice(store, id)
  }

  /** `deleteSpecialPriceByIdProduct`: delegates to the repository with the same arguments. */
  function DeleteSpecialPriceByIdProduct(store: Store, id: string, productId: string): (o: Outcome<Result<Saved>>)
    ensures o == Repo.DeleteSpecialPriceByIdProduct(store, id, productId)
  {
    Repo.DeleteSpecialPriceByIdProduct(store, id, productId)
  }
}
