/**
 * Entities of the special-price backend: catalog products, the per-user
 * special-price profiles and the document collection that holds them.
 */
module Models {

  /** Object ids, compared through their string form. */
  type Id = string

  datatype Option<+T> = None | Some(value: T)

  /** A catalog product. Timestamps are opaque clock readings. */
  datatype Product = Product(
    id: Id,
    name: string,
    price: int,
    category: string,
    brand: string,
    description: string,
    sku: string,
    stock: int,
    tags: seq<string>,
    createdAt: int,
    updatedAt: int)

  /** One `{productId, specialPrice}` element of a profile's `products` array. */
  datatype Entry = Entry(productId: Id, specialPrice: int)

  /** A special-price profile document; its `_id` is the key it is stored under. */
  datatype Profile = Profile(name: string, email: string, products: seq<Entry>)

  /** A profile document as the driver hands it back, with its `_id`. */
  datatype Saved = Saved(id: Id, profile: Profile)

  /** The special-price collection: profile `_id` to profile document. */
  type Store = map<Id, Profile>

  /** Errors thrown by the repository and service layers. */
  datatype Fault = NoProfileForUser | SpecialPriceNotFound | ProductNotFound
  {
    function Message(): string {
      match this
      case NoProfileForUser => "No special price found for this user. Create one first."
      case SpecialPriceNotFound => "Special Price not found"
      case ProductNotFound => "Product not found"
    }
  }

  /** A value or the error an operation throws. */
  datatype Result<+T> = Ok(value: T) | Err(fault: Fault)

  /** What a store operation leaves behind: the collection after the call and the call's result. */
  datatype Outcome<+T> = Outcome(store: Store, result: T)

  /** JavaScript truthiness of a number; prices are integers, so there is no NaN. */
  predicate TruthyNumber(n: int) {
    n != 0
  }

  /** Upper-case hex digits map to lower case; everything else is kept. */
  function LowerHex(c: char): char {
    if 'A' <= c <= 'F' then (c as int + 32) as char else c
  }

  /**
   * The string form of the object id a string casts to: the driver accepts
   * hex digits in either case and always prints them in lower case.
   */
  function Canonical(s: string): (r: Id)
    ensures |r| == |s|
    ensures forall i :: 0 <= i < |s| ==> r[i] == LowerHex(s[i])
  {
    seq(|s|, i requires 0 <= i < |s| => LowerHex(s[i]))
  }

  predicate IsHexDigit(c: char) {
    '0' <= c <= '9' || 'a' <= c <= 'f' || 'A' <= c <= 'F'
  }

  /** The object-id string format: 24 hex digits, either case. */
  predicate ValidObjectId(s: string) {
    |s| == 24 && forall i :: 0 <= i < |s| ==> IsHexDigit(s[i])
  }

  /** The printed form of an object id: no upper-case hex digit. */
  predicate IsCanonical(s: string) {
    forall i :: 0 <= i < |s| ==> !('A' <= s[i] <= 'F')
  }

  lemma CanonicalIsCanonical(s: string)
    ensures IsCanonical(Canonical(s))
    ensures IsCanonical(s) <==> Canonical(s) == s
  {
  }

  predicate HasEntry(entries: seq<Entry>, productId: Id) {
    exists i :: 0 <= i < |entries| && entries[i].productId == productId
  }

  /** The invariant the repository keeps procedurally: at most one entry per productId. */
  predicate UniqueProductIds(entries: seq<Entry>) {
    forall i, j :: 0 <= i < j < |entries| ==> entries[i].productId != entries[j].productId
  }

  /** Stored entries carry printed object ids. */
  predicate CanonicalEntries(entries: seq<Entry>) {
    forall i :: 0 <= i < |entries| ==> IsCanonical(entries[i].productId)
  }

  /**
   * The collection as the driver keeps it: every profile is stored under a
   * printed object id, holds a non-empty `products` array whose productIds
   * are printed object ids, and has no repeated productId.
   */
  predicate WellFormed(store: Store) {
    forall id :: id in store ==>
      && IsCanonical(id)
      && |store[id].products| > 0
      && UniqueProductIds(store[id].products)
      && CanonicalEntries(store[id].products)
  }

  /** `Array.prototype.findIndex` on the productId: the first matching position, or -1. */
  function IndexOf(entries: seq<Entry>, productId: Id): (k: int)
    ensures -1 <= k < |entries|
    ensures k == -1 <==> !HasEntry(entries, productId)
    ensures 0 <= k ==> entries[k].productId == productId
    ensures 0 <= k ==> forall i :: 0 <= i < k ==> entries[i].productId != productId
  {
    if |entries| == 0 then -1
    else if entries[0].productId == productId then 0
    else
      var k := IndexOf(entries[1..], productId);
      if k == -1 then
        assert forall i :: 1 <= i < |entries| ==> entries[i] == entries[1..][i - 1];
        -1
      else k + 1
  }
}
