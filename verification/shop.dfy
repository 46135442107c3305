/**
 * The documents the seller handlers read and write: businesses
 * (`server/src/models/business.model.ts`), products (`product.model.ts`),
 * orders (`order.model.ts`) and reviews, held with the users in one store.
 * Every collection is a sequence whose positions are the document ids, so a
 * query's natural order is the sequence order.
 */
module Shop {
  import opened Wrappers
  import opened Js
  import opened Users
  import Collections

  type BusinessId = nat
  type ProductId = nat
  type OrderId = nat

  datatype BusinessStatus = Active | Suspended | UnderReview

  datatype BankDetails = BankDetails(accountHolderName: Field, accountNumber: Field, routingNumber: Field, bankName: Field)

  /**
   * A business account. The schema declares no `isDeleted` path; the handlers
   * read and write one all the same, and the model follows the handlers.
   */
  datatype Business = Business(owner: UserId, businessName: string, legalEntityName: string, taxId: string,
                               businessAddress: Address, bankDetails: BankDetails,
                               status: BusinessStatus, isDeleted: bool)

  datatype Product = Product(seller: BusinessId, name: string, price: int, images: seq<string>,
                             stock: int, isPublished: bool, isDeleted: bool, createdAt: int)

  /** `product.isInStock()`. */
  predicate IsInStock(p: Product) {
    p.stock > 0
  }

  /**
   * A line item with the fields the dashboard pipeline reads. The pipeline
   * reads `items.price` where the schema stores `priceAtPurchase`, so for a
   * document written through the schema `price` is absent.
   */
  datatype LineItem = LineItem(product: ProductId, seller: BusinessId, price: Option<int>)

  /**
   * An order. The pipeline reads a top-level `paymentStatus`, while the schema
   * stores the payment status under `paymentInfo.status`; for a document
   * written through the schema `paymentStatus` is absent. `orderStatus` is a
   * string because the pipeline compares it with "pending", which the
   * schema's status enum does not contain.
   */
  datatype Order = Order(user: UserId, items: seq<LineItem>, paymentStatus: Option<string>,
                         orderStatus: string, createdAt: int)

  datatype Review = Review(product: ProductId, user: UserId, rating: int)

  datatype Db = Db(users: seq<User>, businesses: seq<Business>, products: seq<Product>,
                   orders: seq<Order>, reviews: seq<Review>)

  /** The order statuses the schema admits. */
  const SchemaOrderStatuses: set<string> := {"processing", "confirmed", "shipped", "delivered", "cancelled", "returned"}

  /** `Business.findOne({ owner })`: the first business of the owner, soft-deleted or not. */
  function FindOwned(businesses: seq<Business>, owner: UserId): (r: Option<BusinessId>)
    ensures r.Some? ==> r.value < |businesses| && businesses[r.value].owner == owner
    ensures r.Some? ==> forall k :: 0 <= k < r.value ==> businesses[k].owner != owner
    ensures r.None? <==> forall k :: 0 <= k < |businesses| ==> businesses[k].owner != owner
  {
    Collections.FirstWhere(businesses, (b: Business) => b.owner == owner)
  }

  /** The usable business of an owner: the first one found, unless it is soft-deleted. */
  function LiveBusiness(businesses: seq<Business>, owner: UserId): (r: Option<BusinessId>)
    ensures r.Some? ==> r.value < |businesses| && businesses[r.value].owner == owner && !businesses[r.value].isDeleted
    ensures r.None? <==> FindOwned(businesses, owner).None? || businesses[FindOwned(businesses, owner).value].isDeleted
    ensures r.Some? ==> r == FindOwned(businesses, owner)
  {
    match FindOwned(businesses, owner)
    case None => None
    case Some(b) => if businesses[b].isDeleted then None else Some(b)
  }
}
