/**
 * Read access to the product catalog. The catalog is the `find()` result:
 * the products in the collection's natural order.
 */
module ProductRepository {
  import opened Models

  /**
   * `findById`: the query id is cast to an object id, so it matches a
   * product whose id is its canonical form.
   */
  function FindProduct(catalog: seq<Product>, id: string): (r: Option<Product>)
    ensures r.None? <==> forall i :: 0 <= i < |catalog| ==> catalog[i].id != Canonical(id)
    ensures r.Some? ==> r.value in catalog && r.value.id == Canonical(id)
  {
    if |catalog| == 0 then None
    else if catalog[0].id == Canonical(id) then Some(catalog[0])
    else
      var r := FindProduct(catalog[1..], id);
      assert forall i :: 1 <= i < |catalog| ==> catalog[i] == catalog[1..][i - 1];
      r
  }
}
