/**
 * The public storefront of `getPublicBusinessProfile`: an active business's
 * profile and one page of its published products, newest first, with the
 * pagination block the client pages through.
 */
module PublicProfile {
  import opened Wrappers
  import opened Js
  import opened Users
  import opened Shop
  import opened Http
  import Collections

  const DefaultPage := 1
  /** The standard grid size. */
  const DefaultLimit := 12

  /**
   * `parseInt(x) || d`: an unparsable value (`NaN`, here `None`) and a zero
   * both fall back to the default; every other number, negative included, is kept.
   */
  function OrDefault(parsed: Option<int>, default: int): (r: int)
    ensures default != 0 ==> r != 0
    ensures r == default || parsed == Some(r)
    ensures parsed.Some? && parsed.value != 0 ==> r == parsed.value
  {
    if parsed.Some? && parsed.value != 0 then parsed.value else default
  }

  /** The profile fields that leave the server: bank details and tax id are deselected. */
  datatype PublicBusiness = PublicBusiness(owner: UserId, businessName: string, legalEntityName: string,
                                           businessAddress: Address, status: BusinessStatus)

  datatype Pagination = Pagination(totalProducts: nat, currentPage: int, totalPages: int, hasNextPage: bool)

  datatype Storefront = Storefront(profile: PublicBusiness, products: seq<Product>, pagination: Pagination)

  function Profile(b: Business): (p: PublicBusiness)
    ensures p.owner == b.owner && p.businessName == b.businessName && p.status == b.status
  {
    PublicBusiness(b.owner, b.businessName, b.legalEntityName, b.businessAddress, b.status)
  }

  /** `{ seller: id, isPublished: true }`; the soft-delete flag is not part of the filter. */
  predicate OnSale(p: Product, seller: BusinessId) {
    p.seller == seller && p.isPublished
  }

  function Sells(seller: BusinessId): Product -> bool {
    (p: Product) => OnSale(p, seller)
  }

  function Catalogue(products: seq<Product>, seller: BusinessId): (r: seq<Product>)
    ensures forall k :: 0 <= k < |r| ==> OnSale(r[k], seller) && r[k] in products
    ensures forall k :: 0 <= k < |products| && OnSale(products[k], seller) ==> products[k] in r
    ensures |r| == Collections.Count(products, Sells(seller))
  {
    Collections.FilterLength(products, Sells(seller));
    Collections.Filter(products, Sells(seller))
  }

  function CreatedAt(p: Product): int {
    p.createdAt
  }

  /** `.sort("-createdAt")` over the catalogue: newest first, ties in no promised order. */
  function Newest(products: seq<Product>, seller: BusinessId): (r: seq<Product>)
    ensures Collections.NonIncreasing(r, CreatedAt)
    ensures multiset(r) == multiset(Catalogue(products, seller))
    ensures |r| == |Catalogue(products, seller)|
  {
    Collections.SortDescending(Catalogue(products, seller), CreatedAt)
  }

  /** `Business.findOne({ _id: id, status: 'active', isDeleted: false })` finds the business. */
  predicate OnDisplay(businesses: seq<Business>, id: BusinessId) {
    id < |businesses| && businesses[id].status == Active && !businesses[id].isDeleted
  }

  /** `(page - 1) * limit`: how many products the earlier pages hold. */
  function Offset(page: int, limit: int): (skip: int)
    ensures page >= 1 && limit >= 0 ==> skip >= 0
  {
    (page - 1) * limit
  }

  /** How many of `total` documents a cursor returns after skipping `skip` and keeping at most `n`. */
  function PageSize(total: nat, skip: nat, n: nat): (r: nat)
    ensures r <= n
    ensures r == 0 || skip + r <= total
    ensures skip < total ==> r == n || skip + r == total
    ensures skip >= total ==> r == 0
  {
    if skip >= total then 0 else if total - skip <= n then total - skip else n
  }

  /** `.skip(skip).limit(n)` on a cursor, for a skip MongoDB accepts and a positive limit. */
  function Window<T>(xs: seq<T>, skip: nat, n: nat): (r: seq<T>)
    ensures |r| == PageSize(|xs|, skip, n)
    ensures forall k :: 0 <= k < |r| ==> skip + k < |xs| && r[k] == xs[skip + k]
  {
    if skip >= |xs| then [] else Collections.Take(xs[skip..], n)
  }

  /** The storefront of a business on display, for a skip MongoDB accepts. */
  function Shelf(db: Db, id: BusinessId, page: int, limit: int): (s: Storefront)
    requires limit != 0 && Offset(page, limit) >= 0 && OnDisplay(db.businesses, id)
    ensures s.profile == Profile(db.businesses[id])
    ensures |s.products| <= Abs(limit)
    ensures Collections.NonIncreasing(s.products, CreatedAt)
    ensures forall k :: 0 <= k < |s.products| ==> OnSale(s.products[k], id) && s.products[k] in db.products
    ensures var all := Newest(db.products, id);
      forall k :: 0 <= k < |s.products| ==> Offset(page, limit) + k < |all| && s.products[k] == all[Offset(page, limit) + k]
    ensures s.pagination.totalProducts == Collections.Count(db.products, Sells(id))
    ensures |s.products| == PageSize(s.pagination.totalProducts, Offset(page, limit), Abs(limit))
    ensures s.pagination.hasNextPage <==> Offset(page, limit) + |s.products| < s.pagination.totalProducts
    ensures s.pagination.currentPage == page
    ensures s.pagination.totalPages == CeilDiv(s.pagination.totalProducts, limit)
  {
    var skip := Offset(page, limit);
    var all := Newest(db.products, id);
    var shown := Window(all, skip, Abs(limit));
    var total := Collections.Count(db.products, Sells(id));
    forall k | 0 <= k < |shown|
      ensures OnSale(shown[k], id) && shown[k] in db.products
    {
      assert shown[k] in multiset(all);
    }
    assert Collections.NonIncreasing(shown, CreatedAt);
    Storefront(Profile(db.businesses[id]), shown, Pagination(total, page, CeilDiv(total, limit), skip + |shown| < total))
  }

  /**
   * `GET /business/profile/:id?page&limit`. The two queries run whatever the
   * business lookup finds, so a negative skip, which MongoDB rejects, answers
   * 500 even for a missing business. MongoDB reads a negative limit as its
   * absolute value. The product count is `countDocuments` on the same filter.
   */
  function StoreProfile(db: Db, id: BusinessId, pageArg: Option<int>, limitArg: Option<int>): (out: (Reply, Option<Storefront>))
    ensures out.0.status in {200, 404, 500}
    ensures out.1.Some? <==> out.0.status == 200
    ensures var page := OrDefault(pageArg, DefaultPage); var limit := OrDefault(limitArg, DefaultLimit);
      out.0.status == 500 <==> Offset(page, limit) < 0
    ensures var page := OrDefault(pageArg, DefaultPage); var limit := OrDefault(limitArg, DefaultLimit);
      out.0.status == 404 <==> 0 <= Offset(page, limit) && !OnDisplay(db.businesses, id)
    ensures out.0.status == 404 ==> out.0.message == "Business not found or is currently inactive."
    ensures out.0.status == 200 ==> OnDisplay(db.businesses, id)
    ensures var page := OrDefault(pageArg, DefaultPage); var limit := OrDefault(limitArg, DefaultLimit);
      out.0.status == 200 ==> out.1.value == Shelf(db, id, page, limit)
  {
    var page := OrDefault(pageArg, DefaultPage);
    var limit := OrDefault(limitArg, DefaultLimit);
    if Offset(page, limit) < 0 then
      (Reply(500, "Error loading store profile."), None)
    else if !OnDisplay(db.businesses, id) then
      (Reply(404, "Business not found or is currently inactive."), None)
    else
      (Reply(200, ""), Some(Shelf(db, id, page, limit)))
  }

  /** Both paths of `parseInt(..) || d`: absent or zero arguments give page 1 of twelve. */
  lemma DefaultsApply(db: Db, id: BusinessId, pageArg: Option<int>, limitArg: Option<int>)
    requires pageArg.None? || pageArg == Some(0)
    requires limitArg.None? || limitArg == Some(0)
    requires OnDisplay(db.businesses, id)
    ensures StoreProfile(db, id, pageArg, limitArg).0.status == 200
    ensures var s := StoreProfile(db, id, pageArg, limitArg).1.value;
      s.pagination.currentPage == 1 && s.products == Collections.Take(Newest(db.products, id), 12)
  {
    assert OrDefault(pageArg, DefaultPage) == 1 && OrDefault(limitArg, DefaultLimit) == 12;
    assert Offset(1, 12) == 0;
    var s := StoreProfile(db, id, pageArg, limitArg).1.value;
    var all := Newest(db.products, id);
    var t := Collections.Take(all, 12);
    assert |s.products| == |t|;
    assert forall k :: 0 <= k < |t| ==> s.products[k] == all[k] == t[k];
  }

  /**
   * For a positive page and limit, `hasNextPage` says exactly that the current
   * page is not the last of `totalPages`.
   */
  lemma HasNextPageIffNotLast(db: Db, id: BusinessId, pageArg: Option<int>, limitArg: Option<int>)
    requires OrDefault(pageArg, DefaultPage) >= 1 && OrDefault(limitArg, DefaultLimit) >= 1
    requires OnDisplay(db.businesses, id)
    ensures StoreProfile(db, id, pageArg, limitArg).0.status == 200
    ensures var p := StoreProfile(db, id, pageArg, limitArg).1.value.pagination;
      p.hasNextPage <==> p.currentPage < p.totalPages
  {
    var page := OrDefault(pageArg, DefaultPage);
    var limit := OrDefault(limitArg, DefaultLimit);
    NextPageArithmetic(page, limit, Collections.Count(db.products, Sells(id)));
  }

  /** The arithmetic behind `hasNextPage`: a full page ends before the last product exactly when pages remain. */
  lemma NextPageArithmetic(page: int, limit: int, total: nat)
    requires page >= 1 && limit >= 1
    ensures var skip := Offset(page, limit);
      skip + PageSize(total, skip, limit) < total <==> page < CeilDiv(total, limit)
  {
    var skip := Offset(page, limit);
    var pages := CeilDiv(total, limit);
    var shown := PageSize(total, skip, limit);
    assert (pages - 1) * limit < total <= pages * limit;
    assert skip + limit == page * limit;
    if skip >= total {
      assert shown == 0;
      MonotoneProduct(pages - 1, page - 1, limit);
    } else if total - skip <= limit {
      assert skip + shown == total;
      MonotoneProduct(page, pages - 1, limit);
    } else {
      assert skip + shown == page * limit < total;
      MonotoneProduct(pages, page, limit);
    }
  }

  /** Multiplying by a positive number keeps a strict order: the contrapositive form. */
  lemma MonotoneProduct(a: int, b: int, n: int)
    requires n >= 1
    ensures a * n < b * n ==> a < b
  {
    if a >= b {
      assert a * n - b * n == (a - b) * n;
    }
  }

  /**
   * Pages tile the catalogue: for a positive limit, slot `slot` of page `page`
   * shows the product at position `(page - 1) * limit + slot` of the newest-first
   * catalogue, and (by `PageOf`) every position is some page's slot.
   */
  lemma EveryProductHasItsPage(db: Db, id: BusinessId, page: int, limitArg: Option<int>, slot: nat)
    requires page >= 1 && slot < OrDefault(limitArg, DefaultLimit)
    requires OnDisplay(db.businesses, id)
    requires Offset(page, OrDefault(limitArg, DefaultLimit)) + slot < |Catalogue(db.products, id)|
    ensures var out := StoreProfile(db, id, Some(page), limitArg);
      out.0.status == 200 && slot < |out.1.value.products| &&
      out.1.value.products[slot] == Newest(db.products, id)[Offset(page, OrDefault(limitArg, DefaultLimit)) + slot]
  {
    var limit := OrDefault(limitArg, DefaultLimit);
    var skip := Offset(page, limit);
    assert OrDefault(Some(page), DefaultPage) == page;
    var out := StoreProfile(db, id, Some(page), limitArg);
    assert out.0.status == 200;
    var all := Newest(db.products, id);
    assert |out.1.value.products| == PageSize(|all|, skip, limit);
  }

  /** Every position of the catalogue falls in a slot of some page, by truncating division. */
  lemma PageOf(i: nat, limit: int)
    requires limit >= 1
    ensures i / limit + 1 >= 1 && i % limit < limit
    ensures Offset(i / limit + 1, limit) + i % limit == i
  {
  }
}
