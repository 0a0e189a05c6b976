/**
 * `app/api/store/stock-toggle/route.js`: a seller flips the `inStock` flag
 * of one of their own products.
 */
module StockToggle {
  import opened Wrappers
  import opened Tables
  import opened Requests
  import opened Query

  datatype ToggleReply =
    | MissingProductId
    | Unauthorized
    | ProductNotFound
    | StockUpdated
    | Failed(fault: Fault)

  /** The product `productId` exists and belongs to store `storeId`. */
  predicate Owns(products: seq<Product>, storeId: StoreId, productId: ProductId) {
    exists i :: 0 <= i < |products| && products[i].id == productId && products[i].storeId == storeId
  }

  /** `update({where: {id}, data: {inStock}})`: set the flag of the row with that id. */
  function SetInStock(products: seq<Product>, id: ProductId, inStock: bool): (r: seq<Product>)
    ensures |r| == |products|
    ensures forall i :: 0 <= i < |products| && products[i].id != id ==> r[i] == products[i]
    ensures forall i :: 0 <= i < |products| && products[i].id == id ==> r[i] == products[i].(inStock := inStock)
  {
    seq(|products|, i requires 0 <= i < |products| =>
      if products[i].id == id then products[i].(inStock := inStock) else products[i])
  }

  /**
   * `POST`: the product id is checked before the seller gate; the lookup is
   * scoped to both the product id and the caller's store, so another store's
   * product is "not found"; the update writes the negation of the flag read.
   */
  method ToggleStock(db: Database, authSeller: SellerGate, userId: UserId, productId: Option<ProductId>)
    returns (r: ToggleReply)
    requires db.Valid()
    modifies db
    ensures db.Valid()
    ensures db.stores == old(db.stores) && db.users == old(db.users)
    ensures db.orders == old(db.orders) && db.ratings == old(db.ratings)
    ensures !Present(productId) ==> r == MissingProductId
    ensures Present(productId) && authSeller(userId).None? ==> r == Unauthorized
    ensures Present(productId) && authSeller(userId).Some? ==>
      && (r == StockUpdated <==> Owns(old(db.products), authSeller(userId).value, productId.value))
      && (r != StockUpdated ==> r == ProductNotFound)
    ensures r != StockUpdated ==> db.products == old(db.products)
    ensures r == StockUpdated ==>
      && Present(productId)
      && |db.products| == |old(db.products)|
      && forall i :: 0 <= i < |db.products| ==>
           db.products[i] == if old(db.products)[i].id == productId.value
                             then old(db.products)[i].(inStock := !old(db.products)[i].inStock)
                             else old(db.products)[i]
  {
    if !Present(productId) {
      return MissingProductId;
    }
    var id := productId.value;
    var storeId := authSeller(userId);
    if storeId.None? {
      return Unauthorized;
    }
    var found := FindFirst(db.products, (p: Product) => p.id == id && p.storeId == storeId.value);
    if found.None? {
      return ProductNotFound;
    }
    var product := db.products[found.value];
    db.products := SetInStock(db.products, id, !product.inStock);
    r := StockUpdated;
  }

  /** Toggling the same product twice puts every product back as it was. */
  method ToggleTwice(db: Database, authSeller: SellerGate, userId: UserId, productId: Option<ProductId>)
    returns (first: ToggleReply, second: ToggleReply)
    requires db.Valid()
    modifies db
    ensures db.Valid()
    ensures db.stores == old(db.stores) && db.users == old(db.users)
    ensures db.orders == old(db.orders) && db.ratings == old(db.ratings)
    ensures first == StockUpdated ==> second == StockUpdated && db.products == old(db.products)
  {
    first := ToggleStock(db, authSeller, userId, productId);
    second := ToggleStock(db, authSeller, userId, productId);
  }

  /**
   * `POST` as the source has it: `authSeller` is called without being
   * imported, so every request that carries a product id throws.
   */
  function ToggleStockAsWritten(productId: Option<ProductId>): (r: ToggleReply)
    ensures r != StockUpdated
    ensures r == MissingProductId <==> !Present(productId)
    ensures Present(productId) ==> r.Failed?
  {
    if !Present(productId) then MissingProductId else Failed(ReferenceError("authSeller"))
  }
}
