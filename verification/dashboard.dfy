/**
 * `app/api/store/dashboard/route.js`: the seller's dashboard, computed
 * afresh from the orders, products and ratings tables without writing.
 */
module StoreDashboard {
  import opened Wrappers
  import opened Tables
  import opened Requests
  import opened Query

  /** Earnings are in whole currency units; order totals are in hundredths. */
  datatype DashboardData = DashboardData(
    ratings: seq<Rating>,
    totalOrders: nat,
    totalEarnings: int,
    totalProducts: nat)

  datatype DashboardReply = Dashboard(data: DashboardData) | Failed(fault: Fault)

  /**
   * `findMany({where: {storeId}})` with whatever the gate returned. The model
   * takes the gate's "no store" to be a value no row carries (`null`), so
   * then nothing matches.
   */
  function StoreOrders(orders: seq<Order>, storeId: Option<StoreId>): seq<Order> {
    FindMany(orders, (o: Order) => Some(o.storeId) == storeId)
  }

  function StoreProducts(products: seq<Product>, storeId: Option<StoreId>): seq<Product> {
    FindMany(products, (p: Product) => Some(p.storeId) == storeId)
  }

  /** The store `storeId` has a product with id `productId`. */
  predicate SellsProduct(products: seq<Product>, storeId: Option<StoreId>, productId: ProductId) {
    exists p :: p in products && Some(p.storeId) == storeId && p.id == productId
  }

  /** `products.map(product => product.id)`. */
  function Ids(products: seq<Product>): (ids: seq<ProductId>)
    ensures forall id :: id in ids <==> exists p :: p in products && p.id == id
  {
    if products == [] then [] else [products[0].id] + Ids(products[1..])
  }

  /** `orders.reduce((acc, order) => acc + order.total, 0)`, added left to right. */
  function SumTotals(orders: seq<Order>): int {
    if orders == [] then 0 else SumTotals(orders[..|orders| - 1]) + orders[|orders| - 1].total
  }

  /** `Math.round` of an amount given in hundredths: to the nearest unit, halves upward. */
  function RoundToUnit(hundredths: int): (r: int)
    ensures 100 * r - 50 <= hundredths < 100 * r + 50
  {
    (hundredths + 50) / 100
  }

  /** `GET`: the dashboard of the store the gate returns; there is no unauthorized branch. */
  function GetDashboard(orders: seq<Order>, products: seq<Product>, ratings: seq<Rating>,
                        authSeller: SellerGate, userId: UserId): (d: DashboardData)
    ensures d.totalOrders == |set i | 0 <= i < |orders| && Some(orders[i].storeId) == authSeller(userId)|
    ensures d.totalProducts == |set i | 0 <= i < |products| && Some(products[i].storeId) == authSeller(userId)|
    ensures forall r :: multiset(d.ratings)[r] ==
                        if SellsProduct(products, authSeller(userId), r.productId) then multiset(ratings)[r] else 0
    ensures var sum := SumTotals(StoreOrders(orders, authSeller(userId)));
      100 * d.totalEarnings - 50 <= sum < 100 * d.totalEarnings + 50
  {
    var storeId := authSeller(userId);
    var storeOrders := StoreOrders(orders, storeId);
    var storeProducts := StoreProducts(products, storeId);
    var ids := Ids(storeProducts);
    var storeRatings := FindMany(ratings, (r: Rating) => r.productId in ids);
    CountMatching(orders, storeId);
    CountMatchingProducts(products, storeId);
    DashboardData(storeRatings, |storeOrders|, RoundToUnit(SumTotals(storeOrders)), |storeProducts|)
  }

  lemma CountMatching(orders: seq<Order>, storeId: Option<StoreId>)
    ensures |StoreOrders(orders, storeId)| == |set i | 0 <= i < |orders| && Some(orders[i].storeId) == storeId|
  {
    var where := (o: Order) => Some(o.storeId) == storeId;
    FindManySize(orders, where);
    assert Matching(orders, where) == set i | 0 <= i < |orders| && Some(orders[i].storeId) == storeId;
  }

  lemma CountMatchingProducts(products: seq<Product>, storeId: Option<StoreId>)
    ensures |StoreProducts(products, storeId)| ==
            |set i | 0 <= i < |products| && Some(products[i].storeId) == storeId|
  {
    var where := (p: Product) => Some(p.storeId) == storeId;
    FindManySize(products, where);
    assert Matching(products, where) == set i | 0 <= i < |products| && Some(products[i].storeId) == storeId;
  }

  /** Taking the order at position `k` out of the sum subtracts exactly its total. */
  lemma {:induction false} SumTotalsWithout(orders: seq<Order>, k: nat)
    requires k < |orders|
    ensures SumTotals(orders) == SumTotals(orders[..k] + orders[k + 1..]) + orders[k].total
  {
    var n := |orders| - 1;
    var rest := orders[..k] + orders[k + 1..];
    if k < n {
      SumTotalsWithout(orders[..n], k);
      assert rest[..|rest| - 1] == orders[..n][..k] + orders[..n][k + 1..];
      assert rest[|rest| - 1] == orders[n];
    } else {
      assert rest == orders[..n];
    }
  }

  /** The sum of the totals does not depend on the order in which the orders are listed. */
  lemma {:induction false} SumTotalsPermutation(orders: seq<Order>, others: seq<Order>)
    requires multiset(orders) == multiset(others)
    ensures SumTotals(orders) == SumTotals(others)
  {
    if orders == [] {
      assert |others| == |multiset(others)| == 0;
    } else {
      var n := |orders| - 1;
      var last := orders[n];
      assert orders == orders[..n] + [last];
      assert last in multiset(others);
      var k :| 0 <= k < |others| && others[k] == last;
      var rest := others[..k] + others[k + 1..];
      assert others == others[..k] + [last] + others[k + 1..];
      assert multiset(orders[..n]) == multiset(orders) - multiset{last};
      assert multiset(others) == multiset(others[..k]) + multiset{last} + multiset(others[k + 1..]);
      assert multiset(rest) == multiset(others[..k]) + multiset(others[k + 1..]);
      assert multiset(rest) == multiset(others) - multiset{last};
      SumTotalsPermutation(orders[..n], rest);
      SumTotalsWithout(others, k);
    }
  }

  /**
   * Two listings of the same orders give the same order count and the same
   * earnings.
   */
  lemma DashboardIgnoresOrderListing(orders: seq<Order>, others: seq<Order>, products: seq<Product>,
                                     ratings: seq<Rating>, authSeller: SellerGate, userId: UserId)
    requires multiset(orders) == multiset(others)
    ensures var d, e := GetDashboard(orders, products, ratings, authSeller, userId),
                        GetDashboard(others, products, ratings, authSeller, userId);
      d.totalOrders == e.totalOrders && d.totalEarnings == e.totalEarnings
  {
    var storeId := authSeller(userId);
    var where := (o: Order) => Some(o.storeId) == storeId;
    FindManyPermutation(orders, others, where);
    var mine, theirs := StoreOrders(orders, storeId), StoreOrders(others, storeId);
    assert |mine| == |multiset(mine)| == |multiset(theirs)| == |theirs|;
    SumTotalsPermutation(mine, theirs);
  }

  /** A caller the gate knows no store for gets an empty dashboard. */
  lemma NoStoreEmptyDashboard(orders: seq<Order>, products: seq<Product>, ratings: seq<Rating>,
                              authSeller: SellerGate, userId: UserId)
    requires authSeller(userId).None?
    ensures GetDashboard(orders, products, ratings, authSeller, userId) == DashboardData([], 0, 0, 0)
  {
  }

  /**
   * `GET` as the source has it: `prisma` is used without being imported, so
   * every request throws before any data is read.
   */
  function GetDashboardAsWritten(orders: seq<Order>, products: seq<Product>, ratings: seq<Rating>,
                                 authSeller: SellerGate, userId: UserId): (r: DashboardReply)
    ensures !r.Dashboard?
  {
    Failed(ReferenceError("prisma"))
  }
}
