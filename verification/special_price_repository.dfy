/**
 * The special-price repository: create, read, and the embedded-array
 * mutations on a user's profile, as pure functions over the collection.
 *
 * Every query id goes through the driver's object-id cast, so lookups
 * compare `Canonical` forms. The single exception is the `findIndex` of
 * addProductToSpecialPrice, modelled as written by `UpsertAsWritten`.
 */
module SpecialPriceRepository {
  import opened Models

  /** What `deleteOne` reports when it removed something. */
  datatype DeleteResult = DeleteResult(deletedCount: nat)

  /** `createSpecialPrice`: a new profile whose `products` array holds exactly the given entry. */
  function CreateSpecialPrice(store: Store, newId: Id, name: string, email: string,
                              productId: string, specialPrice: int): (o: Outcome<Saved>)
    requires newId !in store && IsCanonical(newId)
    ensures o.result.id == newId
    ensures o.result.profile.name == name && o.result.profile.email == email
    ensures o.result.profile.products == [Entry(Canonical(productId), specialPrice)]
    ensures o.store.Keys == store.Keys + {newId}
    ensures o.store[newId] == o.result.profile
    ensures forall id :: id in store ==> o.store[id] == store[id]
    ensures WellFormed(store) ==> WellFormed(o.store)
    ensures GetSpecialPricesById(o.store, newId) == Some(o.result)
  {
    CanonicalIsCanonical(newId);
    CanonicalIsCanonical(productId);
    var p := Profile(name, email, [Entry(Canonical(productId), specialPrice)]);
    Outcome(store[newId := p], Saved(newId, p))
  }

  /**
   * The array step of `addProductToSpecialPrice`, with the lookup comparing
   * the cast form of the productId: replace the price of the first entry
   * for the product in place, or append a new entry at the end.
   */
  function Upsert(entries: seq<Entry>, productId: string, specialPrice: int): (r: seq<Entry>)
    ensures HasEntry(entries, Canonical(productId)) ==>
      var k := IndexOf(entries, Canonical(productId));
      && |r| == |entries|
      && r[k] == Entry(Canonical(productId), specialPrice)
      && forall i :: 0 <= i < |r| && i != k ==> r[i] == entries[i]
    ensures !HasEntry(entries, Canonical(productId)) ==>
      && |r| == |entries| + 1
      && r[..|entries|] == entries
      && r[|entries|] == Entry(Canonical(productId), specialPrice)
    ensures HasEntry(r, Canonical(productId))
    ensures UniqueProductIds(entries) ==> UniqueProductIds(r)
    ensures CanonicalEntries(entries) ==> CanonicalEntries(r)
  {
    CanonicalIsCanonical(productId);
    var key := Canonical(productId);
    var k := IndexOf(entries, key);
    if k >= 0 then entries[k := entries[k].(specialPrice := specialPrice)]
    else entries + [Entry(key, specialPrice)]
  }

  /**
   * The same step as the source writes it: `findIndex` compares the stored
   * id's printed (lower-case) form with the raw request string, while the
   * appended entry stores the cast form.
   */
  function UpsertAsWritten(entries: seq<Entry>, productId: string, specialPrice: int): (r: seq<Entry>)
    ensures HasEntry(entries, productId) ==>
      var k := IndexOf(entries, productId);
      && |r| == |entries|
      && r[k] == entries[k].(specialPrice := specialPrice)
      && forall i :: 0 <= i < |r| && i != k ==> r[i] == entries[i]
    ensures !HasEntry(entries, productId) ==>
      && |r| == |entries| + 1
      && r[..|entries|] == entries
      && r[|entries|] == Entry(Canonical(productId), specialPrice)
  {
    var k := IndexOf(entries, productId);
    if k >= 0 then entries[k := entries[k].(specialPrice := specialPrice)]
    else entries + [Entry(Canonical(productId), specialPrice)]
  }

  /** For a request id already in printed form, the as-written step and the corrected one agree. */
  lemma UpsertAsWrittenAgreesOnCanonicalIds(entries: seq<Entry>, productId: string, specialPrice: int)
    requires IsCanonical(productId)
    ensures UpsertAsWritten(entries, productId, specialPrice) == Upsert(entries, productId, specialPrice)
  {
  }

  /**
   * As written, a request id that spells an existing product's hex digits in
   * upper case misses the stored entry and appends a second entry for the
   * same product: the at-most-one-entry invariant breaks.
   */
  lemma UpsertAsWrittenDuplicatesOnUpperCase(entries: seq<Entry>, productId: string, specialPrice: int)
    requires CanonicalEntries(entries) && UniqueProductIds(entries)
    requires HasEntry(entries, Canonical(productId))
    requires !IsCanonical(productId)
    ensures |UpsertAsWritten(entries, productId, specialPrice)| == |entries| + 1
    ensures !UniqueProductIds(UpsertAsWritten(entries, productId, specialPrice))
  {
  }

  /**
   * `addProductToSpecialPrice`: throws when the profile does not exist;
   * otherwise updates or appends the entry and saves the whole profile.
   */
  function AddProductToSpecialPrice(store: Store, id: string, productId: string,
                                    specialPrice: int): (o: Outcome<Result<Saved>>)
    ensures o.result.Err? <==> Canonical(id) !in store
    ensures o.result.Err? ==> o.result.fault == NoProfileForUser && o.store == store
    ensures o.result.Ok? ==>
      var key := Canonical(id);
      && o.result.value.id == key
      && o.result.value.profile.name == store[key].name
      && o.result.value.profile.email == store[key].email
      && o.result.value.profile.products == Upsert(store[key].products, productId, specialPrice)
      && o.store.Keys == store.Keys
      && o.store[key] == o.result.value.profile
      && forall other :: other in store && other != key ==> o.store[other] == store[other]
    ensures WellFormed(store) ==> WellFormed(o.store)
  {
    var key := Canonical(id);
    if key !in store then Outcome(store, Err(NoProfileForUser))
    else
      var p := store[key].(products := Upsert(store[key].products, productId, specialPrice));
      Outcome(store[key := p], Ok(Saved(key, p)))
  }

  /**
   * `addProductToSpecialPrice` exactly as written, on top of `UpsertAsWritten`.
   */
  function AddProductToSpecialPriceAsWritten(store: Store, id: string, productId: string,
                                             specialPrice: int): (o: Outcome<Result<Saved>>)
    ensures o.result.Err? <==> Canonical(id) !in store
    ensures o.result.Err? ==> o.result.fault == NoProfileForUser && o.store == store
    ensures o.result.Ok? ==>
      var key := Canonical(id);
      && o.result.value == Saved(key, store[key].(products := UpsertAsWritten(store[key].products, productId, specialPrice)))
      && o.store == store[key := o.result.value.profile]
  {
    var key := Canonical(id);
    if key !in store then Outcome(store, Err(NoProfileForUser))
    else
      var p := store[key].(products := UpsertAsWritten(store[key].products, productId, specialPrice));
      Outcome(store[key := p], Ok(Saved(key, p)))
  }

  /** For a request productId in printed form, the add as written is the corrected add. */
  lemma AddAsWrittenAgreesOnCanonicalIds(store: Store, id: string, productId: string, specialPrice: int)
    requires IsCanonical(productId)
    ensures AddProductToSpecialPriceAsWritten(store, id, productId, specialPrice)
         == AddProductToSpecialPrice(store, id, productId, specialPrice)
  {
    if Canonical(id) in store {
      UpsertAsWrittenAgreesOnCanonicalIds(store[Canonical(id)].products, productId, specialPrice);
    }
  }

  /** As written, a request id that is not in printed form never matches a stored entry, so it always appends. */
  lemma UpsertAsWrittenAppendsUnprinted(entries: seq<Entry>, productId: string, specialPrice: int)
    requires CanonicalEntries(entries) && !IsCanonical(productId)
    ensures var r := UpsertAsWritten(entries, productId, specialPrice);
            |r| == |entries| + 1 && r[..|entries|] == entries && CanonicalEntries(r)
  {
    assert !HasEntry(entries, productId) by {
      forall i | 0 <= i < |entries|
        ensures entries[i].productId != productId
      {
        assert IsCanonical(entries[i].productId);
      }
    }
    CanonicalIsCanonical(productId);
  }

  /**
   * On a well-formed collection, an upper-case spelling of a product the
   * profile already holds breaks the invariant, and repeating the same add
   * appends yet another entry instead of changing nothing.
   */
  lemma AddAsWrittenDuplicatesStoredProduct(store: Store, id: string, productId: string, specialPrice: int)
    requires WellFormed(store) && Canonical(id) in store
    requires HasEntry(store[Canonical(id)].products, Canonical(productId))
    requires !IsCanonical(productId)
    ensures var once := AddProductToSpecialPriceAsWritten(store, id, productId, specialPrice);
            var twice := AddProductToSpecialPriceAsWritten(once.store, id, productId, specialPrice);
            && !WellFormed(once.store)
            && |once.store[Canonical(id)].products| == |store[Canonical(id)].products| + 1
            && |twice.store[Canonical(id)].products| == |store[Canonical(id)].products| + 2
  {
    var key := Canonical(id);
    var entries := store[key].products;
    UpsertAsWrittenDuplicatesOnUpperCase(entries, productId, specialPrice);
    UpsertAsWrittenAppendsUnprinted(entries, productId, specialPrice);
    UpsertAsWrittenAppendsUnprinted(UpsertAsWritten(entries, productId, specialPrice), productId, specialPrice);
  }

  /** Applying the upsert a second time with the same arguments changes nothing. */
  lemma UpsertIdempotent(entries: seq<Entry>, productId: string, specialPrice: int)
    ensures Upsert(Upsert(entries, productId, specialPrice), productId, specialPrice)
         == Upsert(entries, productId, specialPrice)
  {
  }

  lemma AddProductToSpecialPriceIdempotent(store: Store, id: string, productId: string, specialPrice: int)
    ensures var once := AddProductToSpecialPrice(store, id, productId, specialPrice);
            AddProductToSpecialPrice(once.store, id, productId, specialPrice) == once
  {
    var once := AddProductToSpecialPrice(store, id, productId, specialPrice);
    if Canonical(id) in store {
      UpsertIdempotent(store[Canonical(id)].products, productId, specialPrice);
      assert once.store[Canonical(id) := once.result.value.profile] == once.store;
    }
  }

  /** `getSpecialPricesByIdGroup`: the profile's `{productId, specialPrice}` pairs in order, or `[]`. */
  function GetSpecialPricesByIdGroup(store: Store, id: string): (r: seq<Entry>)
    ensures Canonical(id) !in store ==> r == []
    ensures Canonical(id) in store ==> r == store[Canonical(id)].products
  {
    var key := Canonical(id);
    if key in store then store[key].products else []
  }

  /** `getSpecialPricesById`: the whole profile document, or null. */
  function GetSpecialPricesById(store: Store, id: string): (r: Option<Saved>)
    ensures r.Some? <==> Canonical(id) in store
    ensures r.Some? ==> r.value.id == Canonical(id) && r.value.profile == store[Canonical(id)]
  {
    var key := Canonical(id);
    if key in store then Some(Saved(key, store[key])) else None
  }

  /**
   * `updateSpecialPrice`: a conditional update matching the profile id and an
   * element with the productId; the positional operator sets the first
   * matching element's price. No match: null, and nothing changes.
   */
  function UpdateSpecialPrice(store: Store, id: string, productId: string,
                              specialPrice: int): (o: Outcome<Option<Saved>>)
    ensures o.result.Some? <==>
      Canonical(id) in store && HasEntry(store[Canonical(id)].products, Canonical(productId))
    ensures o.result.None? ==> o.store == store
    ensures o.result.Some? ==>
      var key := Canonical(id);
      var before := store[key].products;
      var after := o.result.value.profile.products;
      var k := IndexOf(before, Canonical(productId));
      && o.result.value.id == key
      && o.result.value.profile.name == store[key].name
      && o.result.value.profile.email == store[key].email
      && |after| == |before|
      && after[k] == Entry(Canonical(productId), specialPrice)
      && (forall i :: 0 <= i < |after| && i != k ==> after[i] == before[i])
      && o.store.Keys == store.Keys
      && o.store[key] == o.result.value.profile
      && forall other :: other in store && other != key ==> o.store[other] == store[other]
    ensures WellFormed(store) ==> WellFormed(o.store)
  {
    var key := Canonical(id);
    var pid := Canonical(productId);
    if key in store && HasEntry(store[key].products, pid) then
      var k := IndexOf(store[key].products, pid);
      var p := store[key].(products := store[key].products[k := store[key].products[k].(specialPrice := specialPrice)]);
      Outcome(store[key := p], Some(Saved(key, p)))
    else
      Outcome(store, None)
  }

  /** `deleteSpecialPrice`: removes the whole profile; null when nothing was deleted. */
  function DeleteSpecialPrice(store: Store, id: string): (o: Outcome<Option<DeleteResult>>)
    ensures o.result.Some? <==> Canonical(id) in store
    ensures o.result.Some? ==> o.result.value.deletedCount == 1
    ensures o.store.Keys == store.Keys - {Canonical(id)}
    ensures forall other :: other in o.store ==> o.store[other] == store[other]
    ensures WellFormed(store) ==> WellFormed(o.store)
  {
    var key := Canonical(id);
    if key in store then Outcome(store - {key}, Some(DeleteResult(1)))
    else Outcome(store, None)
  }

  /** The `$pull` of every element whose productId matches, keeping the rest in order. */
  function RemoveProduct(entries: seq<Entry>, productId: Id): (r: seq<Entry>)
    ensures |r| <= |entries|
    ensures !HasEntry(r, productId)
    ensures |r| == 0 <==> forall i :: 0 <= i < |entries| ==> entries[i].productId == productId
  {
    if |entries| == 0 then []
    else if entries[0].productId == productId then RemoveProduct(entries[1..], productId)
    else [entries[0]] + RemoveProduct(entries[1..], productId)
  }

  /** The pull keeps exactly the entries for other products. */
  lemma {:induction false} RemoveProductMembers(entries: seq<Entry>, productId: Id)
    ensures forall e :: e in RemoveProduct(entries, productId) <==> e in entries && e.productId != productId
    decreases |entries|
  {
    if |entries| > 0 {
      RemoveProductMembers(entries[1..], productId);
      assert entries == [entries[0]] + entries[1..];
    }
  }

  /** The pull keeps at most one entry per productId. */
  lemma {:induction false} RemoveProductKeepsUnique(entries: seq<Entry>, productId: Id)
    ensures UniqueProductIds(entries) ==> UniqueProductIds(RemoveProduct(entries, productId))
    decreases |entries|
  {
    if |entries| > 0 && UniqueProductIds(entries) {
      var tail := entries[1..];
      RemoveProductKeepsUnique(tail, productId);
      RemoveProductMembers(tail, productId);
      var rest := RemoveProduct(tail, productId);
      forall e | e in rest
        ensures e.productId != entries[0].productId
      {
        var j :| 0 <= j < |tail| && tail[j] == e;
        assert entries[j + 1] == e;
      }
    }
  }

  /** The pull keeps entries only, so stored ids stay in printed form. */
  lemma RemoveProductKeepsCanonical(entries: seq<Entry>, productId: Id)
    ensures CanonicalEntries(entries) ==> CanonicalEntries(RemoveProduct(entries, productId))
  {
    var r := RemoveProduct(entries, productId);
    if CanonicalEntries(entries) {
      RemoveProductMembers(entries, productId);
      forall i | 0 <= i < |r|
        ensures IsCanonical(r[i].productId)
      {
        assert r[i] in entries;
      }
    }
  }

  /** The pull works element by element, so it distributes over concatenation. */
  lemma {:induction false} RemoveProductAppend(a: seq<Entry>, b: seq<Entry>, productId: Id)
    ensures RemoveProduct(a + b, productId) == RemoveProduct(a, productId) + RemoveProduct(b, productId)
    decreases |a|
  {
    if |a| == 0 {
      assert a + b == b;
    } else {
      assert (a + b)[1..] == a[1..] + b;
      RemoveProductAppend(a[1..], b, productId);
    }
  }

  /** Pulling a product that is not in the array leaves it as it was. */
  lemma {:induction false} RemoveProductAbsent(entries: seq<Entry>, productId: Id)
    requires !HasEntry(entries, productId)
    ensures RemoveProduct(entries, productId) == entries
    decreases |entries|
  {
    if |entries| > 0 {
      var tail := entries[1..];
      assert entries[0].productId != productId;
      assert !HasEntry(tail, productId) by {
        forall i | 0 <= i < |tail|
          ensures tail[i].productId != productId
        {
          assert tail[i] == entries[i + 1];
        }
      }
      RemoveProductAbsent(tail, productId);
      assert RemoveProduct(entries, productId) == [entries[0]] + RemoveProduct(tail, productId);
      assert entries == [entries[0]] + tail;
    }
  }

  /** Under the invariant, the pull removes exactly the one matching entry and closes the gap. */
  lemma RemoveProductSingle(entries: seq<Entry>, productId: Id, k: int)
    requires UniqueProductIds(entries)
    requires 0 <= k < |entries| && entries[k].productId == productId
    ensures RemoveProduct(entries, productId) == entries[..k] + entries[k + 1..]
  {
    var pre, post := entries[..k], entries[k + 1..];
    assert entries == pre + ([entries[k]] + post);
    RemoveProductAppend(pre, [entries[k]] + post, productId);
    RemoveProductAppend([entries[k]], post, productId);
    assert !HasEntry(pre, productId) by {
      forall i | 0 <= i < |pre|
        ensures pre[i].productId != productId
      {
        assert pre[i] == entries[i];
      }
    }
    assert !HasEntry(post, productId) by {
      forall i | 0 <= i < |post|
        ensures post[i].productId != productId
      {
        assert post[i] == entries[k + 1 + i];
      }
    }
    RemoveProductAbsent(pre, productId);
    RemoveProductAbsent(post, productId);
    assert RemoveProduct([entries[k]], productId) == [] by {
      assert [entries[k]][1..] == [];
    }
  }

  /**
   * `deleteSpecialPriceByIdProduct`: pulls every entry for the product,
   * throws when the profile does not exist, deletes the profile when its
   * array is left empty, and returns the pulled document either way.
   */
  function DeleteSpecialPriceByIdProduct(store: Store, id: string, productId: string): (o: Outcome<Result<Saved>>)
    ensures o.result.Err? <==> Canonical(id) !in store
    ensures o.result.Err? ==> o.result.fault == SpecialPriceNotFound && o.store == store
    ensures o.result.Ok? ==>
      var key := Canonical(id);
      var pulled := o.result.value.profile;
      && o.result.value.id == key
      && pulled == store[key].(products := RemoveProduct(store[key].products, Canonical(productId)))
      && (key in o.store <==> |pulled.products| > 0)
      && (key in o.store ==> o.store[key] == pulled)
      && o.store.Keys - {key} == store.Keys - {key}
      && forall other :: other in store && other != key ==> other in o.store && o.store[other] == store[other]
    ensures WellFormed(store) ==> WellFormed(o.store)
  {
    var key := Canonical(id);
    if key !in store then Outcome(store, Err(SpecialPriceNotFound))
    else
      RemoveProductKeepsUnique(store[key].products, Canonical(productId));
      RemoveProductKeepsCanonical(store[key].products, Canonical(productId));
      var p := store[key].(products := RemoveProduct(store[key].products, Canonical(productId)));
      var after := if |p.products| == 0 then store - {key} else store[key := p];
      Outcome(after, Ok(Saved(key, p)))
  }

  /** Removing the last entry deletes the profile: both read shapes then report absence. */
  lemma RemovingLastEntryDeletesProfile(store: Store, id: string, productId: string)
    requires Canonical(id) in store
    requires forall i :: 0 <= i < |store[Canonical(id)].products| ==>
               store[Canonical(id)].products[i].productId == Canonical(productId)
    ensures var o := DeleteSpecialPriceByIdProduct(store, id, productId);
            && o.result.Ok?
            && GetSpecialPricesById(o.store, id) == None
            && GetSpecialPricesByIdGroup(o.store, id) == []
  {
  }
}
