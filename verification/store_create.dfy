/**
 * `app/api/store/create/route.js`: a user applies for a store (`POST`) and
 * asks for the status of their application (`GET`).
 */
module StoreCreate {
  import opened Wrappers
  import opened Tables
  import opened Requests
  import opened Query
  import Text

  /** The application form. */
  datatype StoreForm = StoreForm(
    name: Option<string>,
    username: Option<string>,
    description: Option<string>,
    email: Option<string>,
    contact: Option<string>,
    address: Option<string>,
    image: Option<Image>)

  /** Every field is filled in; any uploaded file counts as an image. */
  predicate Complete(form: StoreForm) {
    && Present(form.name)
    && Present(form.username)
    && Present(form.description)
    && Present(form.email)
    && Present(form.contact)
    && Present(form.address)
    && form.image.Some?
  }

  datatype ApplyReply =
    | MissingStoreInfo
    | CurrentStatus(status: StoreStatus)  // the user already has a store
    | UsernameTaken
    | Applied                             // "applied, waiting for approval"
    | Failed(fault: Fault)

  datatype StatusReply = Status(status: StoreStatus) | NotRegistered

  predicate HasStore(stores: seq<Store>, userId: UserId) {
    exists i :: 0 <= i < |stores| && stores[i].userId == userId
  }

  predicate UsernameInUse(stores: seq<Store>, username: string) {
    exists i :: 0 <= i < |stores| && stores[i].username == username
  }

  predicate StoreIdInUse(stores: seq<Store>, id: StoreId) {
    exists i :: 0 <= i < |stores| && stores[i].id == id
  }

  /** The outcome of the checks that run before anything is written. */
  datatype Admission = Refused(reply: ApplyReply) | Admitted(logo: Url)

  /**
   * The guards of `POST`, in source order: required fields, an existing store
   * of the caller, the lower-cased username, then the logo upload.
   */
  function Admit(stores: seq<Store>, userId: UserId, form: StoreForm, upload: Uploader): (a: Admission)
    ensures a == Refused(MissingStoreInfo) <==> !Complete(form)
    ensures a.Refused? && a.reply.CurrentStatus? <==> Complete(form) && HasStore(stores, userId)
    ensures a.Refused? && a.reply.CurrentStatus? ==>
      exists i :: 0 <= i < |stores| && stores[i].userId == userId && stores[i].status == a.reply.status
    ensures a == Refused(UsernameTaken) <==>
      Complete(form) && !HasStore(stores, userId) && UsernameInUse(stores, Text.Lower(form.username.value))
    ensures a == Refused(Failed(UploadFailed)) <==>
      Complete(form) && !HasStore(stores, userId) && !UsernameInUse(stores, Text.Lower(form.username.value)) &&
      upload(form.image.value, LogosFolder).None?
    ensures a.Admitted? <==>
      Complete(form) && !HasStore(stores, userId) && !UsernameInUse(stores, Text.Lower(form.username.value)) &&
      upload(form.image.value, LogosFolder).Some?
    ensures a.Admitted? ==> a.logo == upload(form.image.value, LogosFolder).value
  {
    if !Complete(form) then Refused(MissingStoreInfo)
    else match FindFirst(stores, (s: Store) => s.userId == userId)
      case Some(i) => Refused(CurrentStatus(stores[i].status))
      case None =>
        var username := Text.Lower(form.username.value);
        if FindFirst(stores, (s: Store) => s.username == username).Some? then Refused(UsernameTaken)
        else match upload(form.image.value, LogosFolder)
          case None => Refused(Failed(UploadFailed))
          case Some(url) => Admitted(url)
  }

  /** The row `POST` inserts: the username lower-cased, the status the schema default. */
  function NewStore(id: StoreId, userId: UserId, form: StoreForm, logo: Url): Store
    requires Complete(form)
  {
    Store(id, userId, form.name.value, Text.Lower(form.username.value), form.description.value,
          form.email.value, form.contact.value, form.address.value, logo, InitialStatus)
  }

  /**
   * `POST`: apply for a store. After the guards it inserts the store row and
   * then links the user row to it. These are two writes; with no foreign key
   * from a store's owner to the users table, a missing user row leaves the
   * store inserted but unlinked. `newStoreId` is the id the database assigns;
   * if it is already taken the insert fails.
   */
  method ApplyForStore(db: Database, userId: UserId, form: StoreForm, upload: Uploader, newStoreId: StoreId)
    returns (r: ApplyReply)
    requires db.Valid()
    modifies db
    ensures db.Valid()
    ensures db.products == old(db.products) && db.orders == old(db.orders) && db.ratings == old(db.ratings)
    ensures var a := Admit(old(db.stores), userId, form, upload);
      if a.Refused? then
        r == a.reply && db.stores == old(db.stores) && db.users == old(db.users)
      else if StoreIdInUse(old(db.stores), newStoreId) then
        r == Failed(UniqueViolation) && db.stores == old(db.stores) && db.users == old(db.users)
      else
        && db.stores == old(db.stores) + [NewStore(newStoreId, userId, form, a.logo)]
        && if userId in old(db.users) then
             r == Applied && db.users == old(db.users)[userId := old(db.users)[userId].(store := Some(newStoreId))]
           else
             r == Failed(RecordNotFound) && db.users == old(db.users)
    ensures r == Applied ==> HasStore(db.stores, userId) && |db.stores| == |old(db.stores)| + 1
  {
    var admission := Admit(db.stores, userId, form, upload);
    if admission.Refused? {
      return admission.reply;
    }
    if FindFirst(db.stores, (s: Store) => s.id == newStoreId).Some? {
      return Failed(UniqueViolation);
    }
    var store := NewStore(newStoreId, userId, form, admission.logo);
    db.stores := db.stores + [store];
    assert db.stores[|db.stores| - 1].userId == userId;
    if userId !in db.users {
      return Failed(RecordNotFound);
    }
    db.users := db.users[userId := db.users[userId].(store := Some(newStoreId))];
    r := Applied;
  }

  /**
   * `POST` as the source has it: the insert names a variable `userID` that is
   * never declared, so it throws before writing, and the catch-all answers.
   */
  function ApplyForStoreAsWritten(stores: seq<Store>, userId: UserId, form: StoreForm, upload: Uploader): (r: ApplyReply)
    ensures r != Applied
    ensures r == Failed(ReferenceError("userID")) <==> Admit(stores, userId, form, upload).Admitted?
  {
    match Admit(stores, userId, form, upload)
    case Refused(reply) => reply
    case Admitted(_) => Failed(ReferenceError("userID"))
  }

  /** A first complete application with a free username never gets a store as written. */
  lemma FirstApplicationFailsAsWritten(userId: UserId, form: StoreForm, logo: Url)
    requires Complete(form)
    ensures var upload := (i: Image, f: Folder) => Some(logo);
      Admit([], userId, form, upload) == Admitted(logo) &&
      ApplyForStoreAsWritten([], userId, form, upload) == Failed(ReferenceError("userID"))
  {
  }

  /** `GET`: the status of the caller's store, or "not registered". */
  function GetStatus(stores: seq<Store>, userId: UserId): (r: StatusReply)
    ensures r == NotRegistered <==> !HasStore(stores, userId)
    ensures r.Status? ==>
      exists i :: 0 <= i < |stores| && stores[i].userId == userId && stores[i].status == r.status
  {
    match FindFirst(stores, (s: Store) => s.userId == userId)
    case Some(i) => Status(stores[i].status)
    case None => NotRegistered
  }

  /**
   * Once an application has been admitted and its store inserted, applying
   * again, with any complete form, answers with the new store's status.
   */
  lemma ReapplyReturnsStatus(stores: seq<Store>, userId: UserId, form: StoreForm, upload: Uploader,
                             id: StoreId, again: StoreForm, uploadAgain: Uploader)
    requires Admit(stores, userId, form, upload).Admitted?
    requires Complete(again)
    ensures var stores' := stores + [NewStore(id, userId, form, Admit(stores, userId, form, upload).logo)];
      Admit(stores', userId, again, uploadAgain) == Refused(CurrentStatus(InitialStatus)) &&
      GetStatus(stores', userId) == Status(InitialStatus)
  {
    var stores' := stores + [NewStore(id, userId, form, Admit(stores, userId, form, upload).logo)];
    assert HasStore(stores', userId) by {
      assert stores'[|stores|].userId == userId;
    }
  }

  /** In a valid store table no two usernames are equal once lower-cased. */
  lemma UsernamesDistinctIgnoringCase(stores: seq<Store>)
    requires StoresUnique(stores) && UsernamesLowerCase(stores)
    ensures forall i, j :: 0 <= i < j < |stores| ==>
      Text.Lower(stores[i].username) != Text.Lower(stores[j].username)
  {
  }

  /** Applying twice in a row: the second application only reports the status. */
  method ApplyTwice(db: Database, userId: UserId, form: StoreForm, upload: Uploader, id: StoreId, otherId: StoreId)
    returns (first: ApplyReply, second: ApplyReply)
    requires db.Valid()
    modifies db
    ensures db.Valid()
    ensures db.products == old(db.products) && db.orders == old(db.orders) && db.ratings == old(db.ratings)
    ensures first == Applied ==>
      && second == CurrentStatus(InitialStatus)
      && Admit(old(db.stores), userId, form, upload).Admitted?
      && db.stores == old(db.stores) + [NewStore(id, userId, form, Admit(old(db.stores), userId, form, upload).logo)]
      && userId in old(db.users)
      && db.users == old(db.users)[userId := old(db.users)[userId].(store := Some(id))]
  {
    first := ApplyForStore(db, userId, form, upload, id);
    second := ApplyForStore(db, userId, form, upload, otherId);
    if first == Applied {
      ReapplyReturnsStatus(old(db.stores), userId, form, upload, id, form, upload);
    }
  }
}
