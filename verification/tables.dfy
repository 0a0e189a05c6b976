/**
 * The rows of the marketplace database that the seller routes touch, and the
 * database itself: one table per entity, each held in table order.
 */
module Tables {
  import opened Wrappers
  import Text

  type UserId = string
  type StoreId = string
  type ProductId = string
  type Url = string

  /** Approval state of a store; only an administrator moves it past `Pending`. */
  datatype StoreStatus = Pending | Approved | Rejected

  /** The status the schema gives a newly created store. */
  const InitialStatus: StoreStatus := Pending

  /** The stock flag the schema gives a newly created product. */
  const InitialInStock: bool := true

  datatype Store = Store(
    id: StoreId,
    userId: UserId,
    name: string,
    username: string,
    description: string,
    email: string,
    contact: string,
    address: string,
    logo: Url,
    status: StoreStatus)

  /** A user row; `store` is the link to the store the user owns. */
  datatype User = User(id: UserId, store: Option<StoreId>)

  /** Prices are whole numbers of the currency's minor unit. */
  datatype Product = Product(
    id: ProductId,
    storeId: StoreId,
    name: string,
    description: string,
    mrp: int,
    price: int,
    category: string,
    images: seq<Url>,
    inStock: bool)

  /** `total` is in the currency's minor unit (hundredths). */
  datatype Order = Order(id: string, storeId: StoreId, total: int)

  datatype Rating = Rating(id: string, productId: ProductId, userId: UserId)

  /** No two stores share an id, an owner or a stored username. */
  ghost predicate StoresUnique(stores: seq<Store>) {
    forall i, j :: 0 <= i < j < |stores| ==>
      && stores[i].id != stores[j].id
      && stores[i].userId != stores[j].userId
      && stores[i].username != stores[j].username
  }

  /** Every stored username is already lower-case. */
  ghost predicate UsernamesLowerCase(stores: seq<Store>) {
    forall i :: 0 <= i < |stores| ==> Text.IsLowerCase(stores[i].username)
  }

  ghost predicate ProductIdsDistinct(products: seq<Product>) {
    forall i, j :: 0 <= i < j < |products| ==> products[i].id != products[j].id
  }

  /** The database the route handlers share. */
  class Database {
    var stores: seq<Store>
    var users: map<UserId, User>
    var products: seq<Product>
    var orders: seq<Order>
    var ratings: seq<Rating>

    /** What the store and product handlers maintain between requests. */
    ghost predicate Valid()
      reads this
    {
      StoresUnique(stores) && UsernamesLowerCase(stores) && ProductIdsDistinct(products)
    }

    /** A database whose users, orders and ratings come from elsewhere, with no stores or products yet. */
    constructor (users: map<UserId, User>, orders: seq<Order>, ratings: seq<Rating>)
      ensures Valid()
      ensures this.stores == [] && this.products == []
      ensures this.users == users && this.orders == orders && this.ratings == ratings
    {
      this.stores := [];
      this.users := users;
      this.products := [];
      this.orders := orders;
      this.ratings := ratings;
    }
  }
}
