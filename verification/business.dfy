/**
 * The seller-account handlers of `server/src/controllers/business.controller.ts`:
 * create, read, update, soft-delete, and the admin status change. Each is a
 * transition over the whole store that returns the reply and the new store;
 * the delete handler's transaction is one atomic step whose aborts leave the
 * store as it was. Unexpected exceptions (the `catch` blocks) are not modelled
 * beyond the one validation failure the inputs can provoke.
 */
module BusinessController {
  import opened Wrappers
  import opened Js
  import opened Users
  import opened Shop
  import opened Http
  import Collections

  /** The messages of the replies. */
  const MissingDetailsMessage := "Essential business details are missing."
  const TaxIdRegisteredMessage := "Tax ID already registered."
  const AlreadyOwnerMessage := "You already own a business account."
  const CreatedMessage := "Business created and undergoing review."
  const NoAccountMessage := "No business account found for this user."
  const TaxIdInUseMessage := "Tax ID already in use."
  const UpdatedMessage := "Business updated successfully."
  const NoLiveAccountMessage := "No business account found for this user or already deleted."
  const ActiveOrdersMessage := "Cannot delete business with active orders. Please fulfill or cancel them first."
  const DeletedMessage := "Business deleted successfully. Products have been unpublished."

  /** The request body fields the create and update handlers read. */
  datatype BusinessForm = BusinessForm(
    businessName: Field, legalEntityName: Field, taxId: Field,
    street: Field, city: Field, state: Field, zipCode: Field, country: Field,
    accountHolderName: Field, accountNumber: Field, routingNumber: Field, bankName: Field)

  function FormAddress(f: BusinessForm): Address {
    Address(f.street, f.city, f.state, f.zipCode, f.country)
  }

  function FormBank(f: BusinessForm): BankDetails {
    BankDetails(f.accountHolderName, f.accountNumber, f.routingNumber, f.bankName)
  }

  /** The role change of an owner who opens a business. */
  function ToSeller(u: User): (r: User)
    ensures r.role == Seller && r.(role := u.role) == u
  {
    u.(role := Seller)
  }

  /** The role change of an owner whose business is deleted. */
  function ToShopper(u: User): (r: User)
    ensures r.role == Shopper && r.(role := u.role) == u
  {
    u.(role := Shopper)
  }

  /** Only the seller record and the role of its owner differ between two stores. */
  predicate SameOutsideBusinesses(a: Db, b: Db) {
    a.products == b.products && a.orders == b.orders && a.reviews == b.reviews
  }

  // ---------------------------------------------------------------------------
  // createBusiness
  // ---------------------------------------------------------------------------

  /** A business that blocks a new one: owned by the caller already, or holding the same tax id. */
  predicate Blocks(b: Business, caller: UserId, taxId: string) {
    b.owner == caller || b.taxId == taxId
  }

  /**
   * `createBusiness`: the three required fields must be truthy; the first
   * business owned by the caller or holding the tax id (deleted or not)
   * refuses the request; the `trim` setter of `businessName` followed by its
   * `required` validator turns a blank name into a 500; otherwise the business
   * is appended, under review, and its owner becomes a seller.
   */
  function CreateBusiness(db: Db, caller: UserId, form: BusinessForm): (out: Outcome<Db>)
    ensures out.reply.status in {201, 400, 500}
    ensures out.reply.status == 201 <==>
      && Truthy(form.businessName) && Truthy(form.legalEntityName) && Truthy(form.taxId)
      && (forall k :: 0 <= k < |db.businesses| ==> !Blocks(db.businesses[k], caller, form.taxId.value))
      && Trim(form.businessName.value) != ""
    ensures out.reply.status != 201 ==> out.state == db
    ensures out.reply.status == 201 ==>
      && out.state.businesses == db.businesses + [Business(caller, Trim(form.businessName.value),
                                                           form.legalEntityName.value, form.taxId.value,
                                                           FormAddress(form), FormBank(form), UnderReview, false)]
      && out.state.users == UpdateUser(db.users, caller, ToSeller)
      && SameOutsideBusinesses(out.state, db)
  {
    if !Truthy(form.businessName) || !Truthy(form.legalEntityName) || !Truthy(form.taxId) then
      Outcome(Reply(400, MissingDetailsMessage), db)
    else
      var taxId := form.taxId.value;
      match Collections.FirstWhere(db.businesses, (b: Business) => Blocks(b, caller, taxId))
      case Some(e) =>
        var message := if db.businesses[e].taxId == taxId then TaxIdRegisteredMessage
                       else AlreadyOwnerMessage;
        Outcome(Reply(400, message), db)
      case None =>
        var name := Trim(form.businessName.value);
        if name == "" then
          Outcome(Reply(500, "Internal Server Error"), db)
        else
          var business := Business(caller, name, form.legalEntityName.value, taxId,
                                   FormAddress(form), FormBank(form), UnderReview, false);
          var users := UpdateUser(db.users, caller, ToSeller);
          Outcome(Reply(201, CreatedMessage),
                  db.(businesses := db.businesses + [business], users := users))
  }

  /**
   * Which message a refused create carries: "Tax ID already registered."
   * exactly when the first blocking business holds the requested tax id.
   */
  lemma CreateConflictMessage(db: Db, caller: UserId, form: BusinessForm, e: nat)
    requires Truthy(form.businessName) && Truthy(form.legalEntityName) && Truthy(form.taxId)
    requires e < |db.businesses| && Blocks(db.businesses[e], caller, form.taxId.value)
    requires forall k :: 0 <= k < e ==> !Blocks(db.businesses[k], caller, form.taxId.value)
    ensures CreateBusiness(db, caller, form).reply.status == 400
    ensures (CreateBusiness(db, caller, form).reply.message == TaxIdRegisteredMessage)
              <==> (db.businesses[e].taxId == form.taxId.value)
  {
    var taxId := form.taxId.value;
    var found := Collections.FirstWhere(db.businesses, (b: Business) => Blocks(b, caller, taxId));
    assert found == Some(e);
  }

  /** No owner holds two businesses and no tax id is registered twice. */
  ghost predicate OneBusinessPerOwnerAndTaxId(businesses: seq<Business>) {
    forall i, j :: 0 <= i < j < |businesses| ==>
      businesses[i].owner != businesses[j].owner && businesses[i].taxId != businesses[j].taxId
  }

  /** The "one owner = one business" rule: creating keeps owners and tax ids unique. */
  lemma CreateKeepsOwnersAndTaxIdsUnique(db: Db, caller: UserId, form: BusinessForm)
    requires OneBusinessPerOwnerAndTaxId(db.businesses)
    ensures OneBusinessPerOwnerAndTaxId(CreateBusiness(db, caller, form).state.businesses)
  {
    var out := CreateBusiness(db, caller, form);
    if out.reply.status == 201 {
      var bs := out.state.businesses;
      var n := |db.businesses|;
      forall i, j | 0 <= i < j < |bs|
        ensures bs[i].owner != bs[j].owner && bs[i].taxId != bs[j].taxId
      {
        if j == n {
          assert bs[i] == db.businesses[i] && !Blocks(db.businesses[i], caller, form.taxId.value);
        } else {
          assert bs[i] == db.businesses[i] && bs[j] == db.businesses[j];
        }
      }
    }
  }

  /** Soft-deleted businesses still block: an owner whose business was deleted can never create another. */
  lemma DeletedOwnerCannotCreate(db: Db, caller: UserId, form: BusinessForm, b: BusinessId)
    requires b < |db.businesses| && db.businesses[b].owner == caller && db.businesses[b].isDeleted
    ensures CreateBusiness(db, caller, form).reply.status != 201
  {
  }

  // ---------------------------------------------------------------------------
  // getBusiness
  // ---------------------------------------------------------------------------

  /** `getBusiness`: the caller's business unless it is missing or soft-deleted. */
  function GetBusiness(db: Db, caller: UserId): (out: (Reply, Option<Business>))
    ensures out.0.status in {200, 404}
    ensures out.0.status == 200 <==> out.1.Some?
    ensures out.1.Some? ==> out.1.value.owner == caller && !out.1.value.isDeleted
    ensures out.1.Some? ==> exists k :: 0 <= k < |db.businesses| && db.businesses[k] == out.1.value
    ensures out.1.Some? ==> FindOwned(db.businesses, caller).Some?
                            && out.1.value == db.businesses[FindOwned(db.businesses, caller).value]
    ensures out.1.None? ==> forall k :: 0 <= k < |db.businesses| && db.businesses[k].owner == caller ==>
              (exists i :: 0 <= i <= k && db.businesses[i].owner == caller && db.businesses[i].isDeleted)
  {
    match LiveBusiness(db.businesses, caller)
    case None => (Reply(404, NoAccountMessage), None)
    case Some(b) => (Reply(200, ""), Some(db.businesses[b]))
  }

  // ---------------------------------------------------------------------------
  // updateBusiness
  // ---------------------------------------------------------------------------

  function MergeAddress(a: Address, f: BusinessForm): Address {
    Address(Merge(a.street, f.street), Merge(a.city, f.city), Merge(a.state, f.state),
            Merge(a.zipCode, f.zipCode), Merge(a.country, f.country))
  }

  function MergeBank(b: BankDetails, f: BusinessForm): BankDetails {
    BankDetails(Merge(b.accountHolderName, f.accountHolderName), Merge(b.accountNumber, f.accountNumber),
                Merge(b.routingNumber, f.routingNumber), Merge(b.bankName, f.bankName))
  }

  /** The tax id a request switches to, if it is truthy and differs from the stored one. */
  predicate ChangesTaxId(current: Business, form: BusinessForm) {
    Truthy(form.taxId) && form.taxId.value != current.taxId
  }

  function TaxIdTaken(businesses: seq<Business>, taxId: string): (taken: bool)
    ensures taken <==> exists k :: 0 <= k < |businesses| && businesses[k].taxId == taxId
  {
    Collections.FirstWhere(businesses, (b: Business) => b.taxId == taxId).Some?
  }

  /** The caller's business after the `$set` of `updateBusiness`. */
  function Updated(current: Business, form: BusinessForm): Business {
    current.(businessName := if Truthy(form.businessName) then Trim(form.businessName.value) else current.businessName,
             legalEntityName := SetIfTruthy(current.legalEntityName, form.legalEntityName),
             taxId := SetIfTruthy(current.taxId, form.taxId),
             businessAddress := MergeAddress(current.businessAddress, form),
             bankDetails := MergeBank(current.bankDetails, form))
  }

  /**
   * What a successful update does to the stored business: owner, status and
   * deletion flag stay; a truthy name is stored trimmed; every other field,
   * nested ones included, takes the request's value exactly when it is truthy.
   */
  predicate Written(before: Business, after: Business, form: BusinessForm) {
    && after.owner == before.owner && after.status == before.status && after.isDeleted == before.isDeleted
    && (Truthy(form.businessName) ==> after.businessName == Trim(form.businessName.value))
    && (!Truthy(form.businessName) ==> after.businessName == before.businessName)
    && Overwrites(Some(before.legalEntityName), Some(after.legalEntityName), form.legalEntityName)
    && Overwrites(Some(before.taxId), Some(after.taxId), form.taxId)
    && Overwrites(before.businessAddress.street, after.businessAddress.street, form.street)
    && Overwrites(before.businessAddress.city, after.businessAddress.city, form.city)
    && Overwrites(before.businessAddress.state, after.businessAddress.state, form.state)
    && Overwrites(before.businessAddress.zipCode, after.businessAddress.zipCode, form.zipCode)
    && Overwrites(before.businessAddress.country, after.businessAddress.country, form.country)
    && Overwrites(before.bankDetails.accountHolderName, after.bankDetails.accountHolderName, form.accountHolderName)
    && Overwrites(before.bankDetails.accountNumber, after.bankDetails.accountNumber, form.accountNumber)
    && Overwrites(before.bankDetails.routingNumber, after.bankDetails.routingNumber, form.routingNumber)
    && Overwrites(before.bankDetails.bankName, after.bankDetails.bankName, form.bankName)
  }

  /** The store after the caller's business `b` takes the update: nothing but that business changes. */
  function ApplyUpdate(db: Db, b: BusinessId, form: BusinessForm): (r: Db)
    requires b < |db.businesses|
    ensures |r.businesses| == |db.businesses|
    ensures forall k :: 0 <= k < |db.businesses| && k != b ==> r.businesses[k] == db.businesses[k]
    ensures r.(businesses := db.businesses) == db
    ensures Written(db.businesses[b], r.businesses[b], form)
  {
    db.(businesses := db.businesses[b := Updated(db.businesses[b], form)])
  }

  /**
   * `updateBusiness`: 404 unless the caller has a live business; 400 with
   * nothing changed when the request switches to a tax id some business
   * already holds; otherwise only truthy fields are written and the address
   * and bank sub-fields not supplied keep their values. With validators on,
   * a name that trims to nothing fails the `required` check (500).
   */
  function UpdateBusiness(db: Db, caller: UserId, form: BusinessForm): (out: Outcome<Db>)
    ensures out.reply.status in {200, 400, 404, 500}
    ensures out.reply.status == 404 <==> LiveBusiness(db.businesses, caller).None?
    ensures out.reply.status == 400 <==>
      && LiveBusiness(db.businesses, caller).Some?
      && ChangesTaxId(db.businesses[LiveBusiness(db.businesses, caller).value], form)
      && TaxIdTaken(db.businesses, form.taxId.value)
    ensures out.reply.status == 500 <==>
      && LiveBusiness(db.businesses, caller).Some? && out.reply.status != 400
      && Truthy(form.businessName) && Trim(form.businessName.value) == ""
    ensures out.reply.status != 200 ==> out.state == db
    ensures out.reply.status == 200 ==> out.state == ApplyUpdate(db, LiveBusiness(db.businesses, caller).value, form)
  {
    match LiveBusiness(db.businesses, caller)
    case None => Outcome(Reply(404, "Business not found."), db)
    case Some(b) =>
      var current := db.businesses[b];
      if ChangesTaxId(current, form) && TaxIdTaken(db.businesses, form.taxId.value) then
        Outcome(Reply(400, TaxIdInUseMessage), db)
      else if Truthy(form.businessName) && Trim(form.businessName.value) == "" then
        Outcome(Reply(500, "Internal Server Error"), db)
      else
        Outcome(Reply(200, UpdatedMessage), ApplyUpdate(db, b, form))
  }

  /** Sending the same update twice leaves the store as sending it once. */
  lemma UpdateIdempotent(db: Db, caller: UserId, form: BusinessForm)
    requires UpdateBusiness(db, caller, form).reply.status == 200
    ensures var once := UpdateBusiness(db, caller, form).state;
      UpdateBusiness(once, caller, form).state == once
  {
    var b := LiveBusiness(db.businesses, caller).value;
    var current := db.businesses[b];
    var u := Updated(current, form);
    var once := db.(businesses := db.businesses[b := u]);
    assert UpdateBusiness(db, caller, form).state == once;
    SameOwnersSameLive(db.businesses, once.businesses, caller);
    UpdatedIdempotent(current, form);
  }

  /** Two stores whose businesses have the same owners and deletion flags agree on everyone's live business. */
  lemma SameOwnersSameLive(a: seq<Business>, b: seq<Business>, owner: UserId)
    requires |a| == |b|
    requires forall k :: 0 <= k < |a| ==> a[k].owner == b[k].owner && a[k].isDeleted == b[k].isDeleted
    ensures LiveBusiness(a, owner) == LiveBusiness(b, owner)
  {
    if FindOwned(a, owner).Some? {
      assert FindOwned(b, owner).Some?;
    }
    if FindOwned(b, owner).Some? {
      assert FindOwned(a, owner).Some?;
    }
  }

  /** Applying the same request to an already updated business changes nothing. */
  lemma UpdatedIdempotent(current: Business, form: BusinessForm)
    ensures Updated(Updated(current, form), form) == Updated(current, form)
  {
    if Truthy(form.businessName) {
      TrimIdempotent(form.businessName.value);
    }
  }

  const EmptyForm := BusinessForm(None, None, None, None, None, None, None, None, None, None, None, None)

  /** A request that supplies no field leaves the store as it was, whatever the reply. */
  lemma EmptyUpdateChangesNothing(db: Db, caller: UserId)
    ensures UpdateBusiness(db, caller, EmptyForm).state == db
  {
    if LiveBusiness(db.businesses, caller).Some? {
      var b := LiveBusiness(db.businesses, caller).value;
      assert Updated(db.businesses[b], EmptyForm) == db.businesses[b];
      assert db.businesses[b := db.businesses[b]] == db.businesses;
    }
  }

  /** `trim` is idempotent. */
  lemma TrimIdempotent(s: string)
    ensures Trim(Trim(s)) == Trim(s)
  {
    var t := Trim(s);
    if t != [] {
      assert !IsSpace(t[0]) && !IsSpace(t[|t| - 1]);
      assert TrimStart(t) == t;
      assert TrimEnd(t) == t;
    }
  }

  // ---------------------------------------------------------------------------
  // deleteBusiness
  // ---------------------------------------------------------------------------

  /** The order statuses that keep a seller from leaving. */
  const BlockingStatuses: set<string> := {"processing", "shipped"}

  /** Some order with a line item of the seller is still being processed or shipped. */
  predicate HasActiveOrder(orders: seq<Order>, seller: BusinessId) {
    exists i, j :: 0 <= i < |orders| && 0 <= j < |orders[i].items| &&
      orders[i].items[j].seller == seller && orders[i].orderStatus in BlockingStatuses
  }

  /** `updateMany({ seller }, { isPublished: false, isDeleted: true })`. */
  function Withdraw(products: seq<Product>, seller: BusinessId): (r: seq<Product>)
    ensures |r| == |products|
    ensures forall k :: 0 <= k < |r| && products[k].seller == seller ==>
      r[k] == products[k].(isPublished := false, isDeleted := true)
    ensures forall k :: 0 <= k < |r| && products[k].seller != seller ==> r[k] == products[k]
  {
    seq(|products|, k requires 0 <= k < |products| =>
      if products[k].seller == seller then products[k].(isPublished := false, isDeleted := true) else products[k])
  }

  /** The store after business `b` of `owner` is retired: the one atomic step of the transaction. */
  function Retire(db: Db, b: BusinessId, owner: UserId): (r: Db)
    requires b < |db.businesses|
    ensures r.businesses == db.businesses[b := db.businesses[b].(isDeleted := true)]
    ensures r.products == Withdraw(db.products, b)
    ensures r.users == UpdateUser(db.users, owner, ToShopper)
    ensures r.orders == db.orders && r.reviews == db.reviews
  {
    Db(UpdateUser(db.users, owner, ToShopper), db.businesses[b := db.businesses[b].(isDeleted := true)], Withdraw(db.products, b),
       db.orders, db.reviews)
  }

  /**
   * `deleteBusiness`: 404 unless the caller has a live business; 400 with
   * the store unchanged while an order holding one of its line items is
   * processing or shipped; otherwise, in one step, the business is marked
   * deleted, all its products are unpublished and deleted, and the owner is
   * demoted to a plain user. Orders and reviews are kept.
   */
  function DeleteBusiness(db: Db, caller: UserId): (out: Outcome<Db>)
    ensures out.reply.status in {200, 400, 404}
    ensures out.reply.status == 404 <==> LiveBusiness(db.businesses, caller).None?
    ensures out.reply.status == 400 <==>
      LiveBusiness(db.businesses, caller).Some? && HasActiveOrder(db.orders, LiveBusiness(db.businesses, caller).value)
    ensures out.reply.status != 200 ==> out.state == db
    ensures out.reply.status == 200 ==> out.state == Retire(db, LiveBusiness(db.businesses, caller).value, caller)
  {
    match LiveBusiness(db.businesses, caller)
    case None =>
      Outcome(Reply(404, NoLiveAccountMessage), db)
    case Some(b) =>
      if HasActiveOrder(db.orders, b) then
        Outcome(Reply(400, ActiveOrdersMessage), db)
      else
        Outcome(Reply(200, DeletedMessage), Retire(db, b, caller))
  }

  /** After a successful delete the caller has no live business, so a second delete is a 404 that changes nothing. */
  lemma DeleteTwice(db: Db, caller: UserId)
    requires DeleteBusiness(db, caller).reply.status == 200
    ensures var once := DeleteBusiness(db, caller).state;
      && LiveBusiness(once.businesses, caller).None?
      && DeleteBusiness(once, caller) == Outcome(Reply(404, NoLiveAccountMessage), once)
  {
    var b := LiveBusiness(db.businesses, caller).value;
    var once := DeleteBusiness(db, caller).state;
    assert forall k :: 0 <= k < |once.businesses| ==> once.businesses[k].owner == db.businesses[k].owner;
    assert FindOwned(once.businesses, caller) == Some(b);
  }

  /** After a successful delete no product of the seller is published. */
  lemma DeleteUnpublishesEverything(db: Db, caller: UserId, k: nat)
    requires DeleteBusiness(db, caller).reply.status == 200
    requires k < |db.products| && db.products[k].seller == LiveBusiness(db.businesses, caller).value
    ensures !DeleteBusiness(db, caller).state.products[k].isPublished
    ensures DeleteBusiness(db, caller).state.products[k].isDeleted
  {
  }

  // ---------------------------------------------------------------------------
  // toggleBusinessStatus
  // ---------------------------------------------------------------------------

  /** The statuses the admin route accepts. */
  function ParseStatus(s: Field): (r: Option<BusinessStatus>)
    ensures r.Some? <==> s.Some? && s.value in {"active", "suspended", "under_review"}
    ensures r == Some(Active) <==> s == Some("active")
    ensures r == Some(Suspended) <==> s == Some("suspended")
    ensures r == Some(UnderReview) <==> s == Some("under_review")
  {
    if s == Some("active") then Some(Active)
    else if s == Some("suspended") then Some(Suspended)
    else if s == Some("under_review") then Some(UnderReview)
    else None
  }

  /**
   * `toggleBusinessStatus` as written: a status outside the whitelist is a
   * 400; otherwise `findByIdAndUpdate` writes the status first, and only then
   * is a soft-deleted business answered with 404, its status already changed.
   */
  function ToggleBusinessStatus(db: Db, id: BusinessId, status: Field): (out: Outcome<Db>)
    ensures out.reply.status in {200, 400, 404}
    ensures out.reply.status == 400 <==> ParseStatus(status).None?
    ensures ParseStatus(status).Some? && id >= |db.businesses| ==> out.reply.status == 404 && out.state == db
    ensures out.reply.status == 200 <==> ParseStatus(status).Some? && id < |db.businesses| && !db.businesses[id].isDeleted
    ensures ParseStatus(status).None? ==> out.state == db
    ensures ParseStatus(status).Some? && id < |db.businesses| ==>
      out.state == db.(businesses := db.businesses[id := db.businesses[id].(status := ParseStatus(status).value)])
  {
    match ParseStatus(status)
    case None => Outcome(Reply(400, "Invalid status type."), db)
    case Some(s) =>
      if id >= |db.businesses| then Outcome(Reply(404, "Business not found."), db)
      else
        var updated := db.(businesses := db.businesses[id := db.businesses[id].(status := s)]);
        if db.businesses[id].isDeleted then Outcome(Reply(404, "Business not found."), updated)
        else Outcome(Reply(200, "Business status updated to " + status.value), updated)
  }

  /** A soft-deleted business, reported as not found, has its status changed all the same. */
  lemma NotFoundYetChanged()
    ensures
      var b := Business(0, "Shop", "Shop Ltd", "T1", NoAddress, BankDetails(None, None, None, None), UnderReview, true);
      var db := Db([], [b], [], [], []);
      var out := ToggleBusinessStatus(db, 0, Some("active"));
      out.reply.status == 404 && out.state.businesses[0].status == Active && out.state != db
  {
  }

  /** The status change as its 404 reply implies it: a soft-deleted business is left alone. */
  function ToggleBusinessStatusChecked(db: Db, id: BusinessId, status: Field): (out: Outcome<Db>)
    ensures out.reply.status in {200, 400, 404}
    ensures out.reply.status != 200 ==> out.state == db
    ensures out.reply.status == 200 <==> ParseStatus(status).Some? && id < |db.businesses| && !db.businesses[id].isDeleted
    ensures out.reply.status == 200 ==>
      out.state == db.(businesses := db.businesses[id := db.businesses[id].(status := ParseStatus(status).value)])
  {
    match ParseStatus(status)
    case None => Outcome(Reply(400, "Invalid status type."), db)
    case Some(s) =>
      if id >= |db.businesses| || db.businesses[id].isDeleted then Outcome(Reply(404, "Business not found."), db)
      else Outcome(Reply(200, "Business status updated to " + status.value),
                   db.(businesses := db.businesses[id := db.businesses[id].(status := s)]))
  }

  /** The two versions differ only in what a 404 leaves behind. */
  lemma CheckedAgreesExceptOnDeleted(db: Db, id: BusinessId, status: Field)
    ensures ToggleBusinessStatusChecked(db, id, status).reply == ToggleBusinessStatus(db, id, status).reply
    ensures !(id < |db.businesses| && db.businesses[id].isDeleted) ==>
      ToggleBusinessStatusChecked(db, id, status) == ToggleBusinessStatus(db, id, status)
  {
  }
}
