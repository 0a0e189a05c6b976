/**
 * `app/api/store/product/route.js`: a seller adds a product (`POST`) and
 * lists the products of their store (`GET`).
 */
module StoreProduct {
  import opened Wrappers
  import opened Tables
  import opened Requests
  import opened Query

  /**
   * The product form. `mrp` and `price` are `Number(...)` of the submitted
   * text: `None` stands for `NaN`, and a missing field arrives as `Some(0)`.
   */
  datatype ProductForm = ProductForm(
    name: Option<string>,
    description: Option<string>,
    mrp: Option<int>,
    price: Option<int>,
    category: Option<string>,
    images: seq<Image>)

  /** JavaScript truthiness of a number: `NaN` and 0 are false, negative numbers true. */
  predicate Truthy(n: Option<int>) {
    n.Some? && n.value != 0
  }

  predicate Complete(form: ProductForm) {
    && Present(form.name)
    && Present(form.description)
    && Truthy(form.mrp)
    && Truthy(form.price)
    && Present(form.category)
    && |form.images| >= 1
  }

  datatype AddReply =
    | Unauthorized
    | MissingProductInfo
    | ProductAdded
    | Failed(fault: Fault)

  datatype ListReply = ListUnauthorized | Listed(products: seq<Product>)

  /**
   * Upload every image into the products folder, keeping their order; the
   * whole batch fails when one upload fails.
   */
  function UploadAll(images: seq<Image>, upload: Uploader): (r: Option<seq<Url>>)
    ensures r.Some? <==> forall i :: 0 <= i < |images| ==> upload(images[i], ProductsFolder).Some?
    ensures r.Some? ==> |r.value| == |images|
    ensures r.Some? ==> forall i :: 0 <= i < |images| ==> r.value[i] == upload(images[i], ProductsFolder).value
  {
    if images == [] then Some([])
    else match upload(images[0], ProductsFolder)
      case None => None
      case Some(url) =>
        match UploadAll(images[1..], upload)
        case None => None
        case Some(rest) => Some([url] + rest)
  }

  /** The outcome of the checks that run before anything is written. */
  datatype Admission = Refused(reply: AddReply) | Admitted(storeId: StoreId, urls: seq<Url>)

  /** The guards of `POST`, in source order: the seller gate, the form, then the uploads. */
  function Admit(gate: Option<StoreId>, form: ProductForm, upload: Uploader): (a: Admission)
    ensures a == Refused(Unauthorized) <==> gate.None?
    ensures a == Refused(MissingProductInfo) <==> gate.Some? && !Complete(form)
    ensures a == Refused(Failed(UploadFailed)) <==>
      gate.Some? && Complete(form) &&
      exists i :: 0 <= i < |form.images| && upload(form.images[i], ProductsFolder).None?
    ensures a.Admitted? <==>
      gate.Some? && Complete(form) &&
      forall i :: 0 <= i < |form.images| ==> upload(form.images[i], ProductsFolder).Some?
    ensures a.Admitted? ==> gate == Some(a.storeId)
    ensures a.Admitted? ==> |a.urls| == |form.images|
    ensures a.Admitted? ==>
      forall i :: 0 <= i < |form.images| ==> a.urls[i] == upload(form.images[i], ProductsFolder).value
  {
    if gate.None? then Refused(Unauthorized)
    else if !Complete(form) then Refused(MissingProductInfo)
    else match UploadAll(form.images, upload)
      case None => Refused(Failed(UploadFailed))
      case Some(urls) => Admitted(gate.value, urls)
  }

  /** The row `POST` inserts, scoped to the seller's store. */
  function NewProduct(id: ProductId, storeId: StoreId, form: ProductForm, urls: seq<Url>): Product
    requires Complete(form)
  {
    Product(id, storeId, form.name.value, form.description.value, form.mrp.value, form.price.value,
            form.category.value, urls, InitialInStock)
  }

  predicate ProductIdInUse(products: seq<Product>, id: ProductId) {
    exists i :: 0 <= i < |products| && products[i].id == id
  }

  /**
   * `POST`: add a product to the caller's store. `newProductId` is the id the
   * database assigns; if it is already taken the insert fails.
   */
  method AddProduct(db: Database, authSeller: SellerGate, userId: UserId, form: ProductForm,
                    upload: Uploader, newProductId: ProductId)
    returns (r: AddReply)
    requires db.Valid()
    modifies db
    ensures db.Valid()
    ensures db.stores == old(db.stores) && db.users == old(db.users)
    ensures db.orders == old(db.orders) && db.ratings == old(db.ratings)
    ensures var a := Admit(authSeller(userId), form, upload);
      if a.Refused? then
        r == a.reply && db.products == old(db.products)
      else if ProductIdInUse(old(db.products), newProductId) then
        r == Failed(UniqueViolation) && db.products == old(db.products)
      else
        r == ProductAdded && db.products == old(db.products) + [NewProduct(newProductId, a.storeId, form, a.urls)]
  {
    var admission := Admit(authSeller(userId), form, upload);
    if admission.Refused? {
      return admission.reply;
    }
    if FindFirst(db.products, (p: Product) => p.id == newProductId).Some? {
      return Failed(UniqueViolation);
    }
    db.products := db.products + [NewProduct(newProductId, admission.storeId, form, admission.urls)];
    r := ProductAdded;
  }

  /** `GET`: the products of the caller's store. */
  function ListProducts(products: seq<Product>, authSeller: SellerGate, userId: UserId): (r: ListReply)
    ensures r == ListUnauthorized <==> authSeller(userId).None?
    ensures r.Listed? ==> forall p :: p in r.products <==> p in products && p.storeId == authSeller(userId).value
    ensures r.Listed? ==> forall p ::
      multiset(r.products)[p] == if p.storeId == authSeller(userId).value then multiset(products)[p] else 0
  {
    match authSeller(userId)
    case None => ListUnauthorized
    case Some(storeId) => Listed(FindMany(products, (p: Product) => p.storeId == storeId))
  }

  /** A product just added by a seller is in that seller's listing. */
  lemma AddedProductIsListed(products: seq<Product>, authSeller: SellerGate, userId: UserId,
                             form: ProductForm, upload: Uploader, id: ProductId)
    requires Admit(authSeller(userId), form, upload).Admitted?
    ensures var a := Admit(authSeller(userId), form, upload);
      var added := NewProduct(id, a.storeId, form, a.urls);
      var listing := ListProducts(products + [added], authSeller, userId);
      listing.Listed? && added in listing.products
  {
  }
}
