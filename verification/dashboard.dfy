/**
 * `getBusinessDashboardStats` of `server/src/controllers/business.controller.ts`:
 * four independent folds over the orders unwound into (order, line item)
 * rows, and one product query. The pipelines run concurrently in the source;
 * here each is a pure function of the store.
 */
module Dashboard {
  import opened Wrappers
  import opened Users
  import opened Shop
  import opened Http
  import Collections

  // ---------------------------------------------------------------------------
  // Unwinding
  // ---------------------------------------------------------------------------

  /** One document of `$unwind: "$items"`: the order's id, the order, and one of its line items. */
  datatype Row = Row(orderId: OrderId, order: Order, item: LineItem)

  function OrderRows(id: OrderId, o: Order): (r: seq<Row>)
    ensures |r| == |o.items|
    ensures forall k :: 0 <= k < |r| ==> r[k] == Row(id, o, o.items[k])
  {
    seq(|o.items|, k requires 0 <= k < |o.items| => Row(id, o, o.items[k]))
  }

  /** `$unwind: "$items"`: one row per line item, orders in natural order, items in array order. */
  function Unwind(orders: seq<Order>): (r: seq<Row>)
    ensures forall k :: 0 <= k < |r| ==>
      r[k].orderId < |orders| && r[k].order == orders[r[k].orderId] && r[k].item in r[k].order.items
    ensures forall i, j :: 0 <= i < |orders| && 0 <= j < |orders[i].items| ==> Row(i, orders[i], orders[i].items[j]) in r
    decreases |orders|
  {
    if orders == [] then []
    else
      var n := |orders| - 1;
      var front := Unwind(orders[..n]);
      var last := OrderRows(n, orders[n]);
      assert forall i :: 0 <= i < n ==> orders[..n][i] == orders[i];
      assert forall j :: 0 <= j < |orders[n].items| ==> last[j] == Row(n, orders[n], orders[n].items[j]);
      front + last
  }

  /** `$match: { "items.seller": businessId }`. */
  function Matched(orders: seq<Order>, seller: BusinessId): seq<Row> {
    Collections.Filter(Unwind(orders), (r: Row) => r.item.seller == seller)
  }

  /** `$items.price`; `$sum` skips the field when it is absent, which adds nothing. */
  function Price(item: LineItem): int {
    item.price.GetOr(0)
  }

  function RowPrice(r: Row): int {
    Price(r.item)
  }

  predicate Paid(o: Order) {
    o.paymentStatus == Some("paid")
  }

  /** `$cond: [{ $eq: ["$paymentStatus", "paid"] }, "$items.price", 0]`. */
  function PaidPrice(r: Row): int {
    if Paid(r.order) then Price(r.item) else 0
  }

  predicate IsPending(r: Row) {
    r.order.orderStatus == "pending"
  }

  predicate IsDelivered(r: Row) {
    r.order.orderStatus == "delivered"
  }

  /** `$addToSet: "$_id"`. */
  function OrderIds(rows: seq<Row>): set<OrderId> {
    set k | 0 <= k < |rows| :: rows[k].orderId
  }

  /** The orders holding at least one line item of the seller. */
  function SellerOrders(orders: seq<Order>, seller: BusinessId): set<OrderId> {
    set i | 0 <= i < |orders| && exists j :: 0 <= j < |orders[i].items| && orders[i].items[j].seller == seller
  }

  // ---------------------------------------------------------------------------
  // 1. Revenue and status breakdown
  // ---------------------------------------------------------------------------

  datatype Summary = Summary(totalRevenue: int, totalOrders: nat, pendingOrders: nat, deliveredOrders: nat)

  /** `salesStats[0] || { ... }`: the fallback when no row matched and `$group` produced nothing. */
  const NoSales := Summary(0, 0, 0, 0)

  /**
   * The summary: paid line items' prices summed, distinct orders counted, and
   * pending and delivered line items (not orders) counted.
   */
  function SalesSummary(orders: seq<Order>, seller: BusinessId): (s: Summary)
    ensures s.pendingOrders + s.deliveredOrders <= |Matched(orders, seller)|
    ensures s.totalOrders <= |Matched(orders, seller)|
    ensures Matched(orders, seller) == [] ==> s == NoSales
  {
    var rows := Matched(orders, seller);
    if rows == [] then NoSales
    else
      StatusesDisjoint(rows);
      OrderIdsBound(rows);
      Summary(Collections.Sum(rows, PaidPrice), |OrderIds(rows)|,
              Collections.Count(rows, IsPending), Collections.Count(rows, IsDelivered))
  }

  lemma {:induction false} StatusesDisjoint(rows: seq<Row>)
    ensures Collections.Count(rows, IsPending) + Collections.Count(rows, IsDelivered) <= |rows|
    decreases |rows|
  {
    if rows != [] {
      StatusesDisjoint(rows[..|rows| - 1]);
    }
  }

  lemma {:induction false} OrderIdsBound(rows: seq<Row>)
    ensures |OrderIds(rows)| <= |rows|
    decreases |rows|
  {
    if rows != [] {
      var n := |rows| - 1;
      OrderIdsBound(rows[..n]);
      assert OrderIds(rows) == OrderIds(rows[..n]) + {rows[n].orderId} by {
        forall x | x in OrderIds(rows)
          ensures x in OrderIds(rows[..n]) + {rows[n].orderId}
        {
          var k :| 0 <= k < |rows| && rows[k].orderId == x;
          if k < n {
            assert rows[..n][k] == rows[k];
          }
        }
        forall x | x in OrderIds(rows[..n])
          ensures x in OrderIds(rows)
        {
          var k :| 0 <= k < n && rows[..n][k].orderId == x;
          assert rows[k] == rows[..n][k];
        }
      }
    }
  }

  /**
   * What the summary means over the whole order collection: only this
   * seller's line items count, revenue comes from paid orders only, and the
   * order count is the number of orders holding one of the seller's items.
   */
  lemma SummaryOverAllOrders(orders: seq<Order>, seller: BusinessId)
    ensures SalesSummary(orders, seller).totalRevenue ==
      Collections.Sum(Unwind(orders), (r: Row) => if r.item.seller == seller && Paid(r.order) then Price(r.item) else 0)
    ensures SalesSummary(orders, seller).pendingOrders ==
      Collections.Count(Unwind(orders), (r: Row) => r.item.seller == seller && IsPending(r))
    ensures SalesSummary(orders, seller).deliveredOrders ==
      Collections.Count(Unwind(orders), (r: Row) => r.item.seller == seller && IsDelivered(r))
    ensures SalesSummary(orders, seller).totalOrders == |SellerOrders(orders, seller)|
  {
    var all := Unwind(orders);
    var p := (r: Row) => r.item.seller == seller;
    Collections.SumFilter(all, p, PaidPrice,
      (r: Row) => if r.item.seller == seller && Paid(r.order) then Price(r.item) else 0);
    Collections.CountFilter(all, p, IsPending, (r: Row) => r.item.seller == seller && IsPending(r));
    Collections.CountFilter(all, p, IsDelivered, (r: Row) => r.item.seller == seller && IsDelivered(r));
    MatchedOrderIds(orders, seller);
  }

  /** The distinct order ids among the matched rows are the seller's orders. */
  lemma MatchedOrderIds(orders: seq<Order>, seller: BusinessId)
    ensures OrderIds(Matched(orders, seller)) == SellerOrders(orders, seller)
  {
    MatchedOrdersAreSellers(orders, seller);
    SellerOrdersAreMatched(orders, seller);
  }

  lemma MatchedOrdersAreSellers(orders: seq<Order>, seller: BusinessId)
    ensures OrderIds(Matched(orders, seller)) <= SellerOrders(orders, seller)
  {
    var all := Unwind(orders);
    var rows := Matched(orders, seller);
    forall i | i in OrderIds(rows)
      ensures i in SellerOrders(orders, seller)
    {
      var k :| 0 <= k < |rows| && rows[k].orderId == i;
      var m :| 0 <= m < |all| && all[m] == rows[k];
      var j :| 0 <= j < |orders[i].items| && orders[i].items[j] == all[m].item;
    }
  }

  lemma SellerOrdersAreMatched(orders: seq<Order>, seller: BusinessId)
    ensures SellerOrders(orders, seller) <= OrderIds(Matched(orders, seller))
  {
    var all := Unwind(orders);
    var rows := Matched(orders, seller);
    forall i | i in SellerOrders(orders, seller)
      ensures i in OrderIds(rows)
    {
      var j :| 0 <= j < |orders[i].items| && orders[i].items[j].seller == seller;
      var row := Row(i, orders[i], orders[i].items[j]);
      assert row in all;
      assert row in rows;
      var k :| 0 <= k < |rows| && rows[k] == row;
    }
  }

  /** The order count is zero exactly when no order holds a line item of the seller. */
  lemma NoOrdersIffNoItems(orders: seq<Order>, seller: BusinessId)
    ensures SalesSummary(orders, seller).totalOrders == 0 <==>
      forall i, j :: 0 <= i < |orders| && 0 <= j < |orders[i].items| ==> orders[i].items[j].seller != seller
  {
    var rows := Matched(orders, seller);
    assert SalesSummary(orders, seller).totalOrders == |OrderIds(rows)| by {
      if rows == [] {
        assert OrderIds(rows) == {};
      }
    }
    MatchedOrderIds(orders, seller);
    if SalesSummary(orders, seller).totalOrders == 0 {
      assert SellerOrders(orders, seller) == {};
      forall i, j | 0 <= i < |orders| && 0 <= j < |orders[i].items|
        ensures orders[i].items[j].seller != seller
      {
        assert orders[i].items[j].seller == seller ==> i in SellerOrders(orders, seller);
      }
    } else {
      var i :| i in SellerOrders(orders, seller);
    }
  }

  /**
   * Orders written through the schema store no top-level `paymentStatus` and
   * never the status "pending": for them revenue and pending are always zero.
   */
  lemma SchemaOrdersShowNoRevenueNorPending(orders: seq<Order>, seller: BusinessId)
    requires forall i :: 0 <= i < |orders| ==> orders[i].paymentStatus.None? && orders[i].orderStatus in SchemaOrderStatuses
    ensures SalesSummary(orders, seller).totalRevenue == 0
    ensures SalesSummary(orders, seller).pendingOrders == 0
  {
    var rows := Matched(orders, seller);
    var all := Unwind(orders);
    assert forall k :: 0 <= k < |rows| ==> PaidPrice(rows[k]) == 0 && !IsPending(rows[k]) by {
      forall k | 0 <= k < |rows|
        ensures PaidPrice(rows[k]) == 0 && !IsPending(rows[k])
      {
        var m :| 0 <= m < |all| && all[m] == rows[k];
        assert all[m].order == orders[all[m].orderId];
      }
    }
    Collections.SumZero(rows, PaidPrice);
    Collections.CountZero(rows, IsPending);
  }

  const TwoItemOrder := Order(0, [LineItem(0, 0, Some(5)), LineItem(1, 0, Some(7))], Some("paid"), "pending", 0)

  /** Pending counts line items: one pending order with two of the seller's items counts twice. */
  lemma PendingCountsLineItems()
    ensures SalesSummary([TwoItemOrder], 0) == Summary(12, 1, 2, 0)
  {
    var o := TwoItemOrder;
    var r0 := Row(0, o, o.items[0]);
    var r1 := Row(0, o, o.items[1]);
    UnwindTwoItems();
    FilterKeepsBoth(r0, r1, (r: Row) => r.item.seller == 0);
    TwoTerms(r0, r1, PaidPrice, IsPending, IsDelivered);
    assert OrderIds([r0, r1]) == {0};
  }

  lemma UnwindTwoItems()
    ensures Unwind([TwoItemOrder]) == [Row(0, TwoItemOrder, TwoItemOrder.items[0]), Row(0, TwoItemOrder, TwoItemOrder.items[1])]
  {
    var o := TwoItemOrder;
    assert [o][..0] == [];
    assert OrderRows(0, o) == [Row(0, o, o.items[0]), Row(0, o, o.items[1])];
  }

  lemma FilterKeepsBoth(r0: Row, r1: Row, p: Row -> bool)
    requires p(r0) && p(r1)
    ensures Collections.Filter([r0, r1], p) == [r0, r1]
  {
    assert [r0, r1][1..] == [r1] && [r1][1..] == [];
  }

  lemma TwoTerms(r0: Row, r1: Row, f: Row -> int, p: Row -> bool, q: Row -> bool)
    ensures Collections.Sum([r0, r1], f) == f(r0) + f(r1)
    ensures Collections.Count([r0, r1], p) == (if p(r0) then 1 else 0) + (if p(r1) then 1 else 0)
    ensures Collections.Count([r0, r1], q) == (if q(r0) then 1 else 0) + (if q(r1) then 1 else 0)
  {
    assert [r0, r1][..1] == [r0] && [r0][..0] == [];
    assert Collections.Sum([r0], f) == f(r0);
    assert Collections.Count([r0], p) == (if p(r0) then 1 else 0);
    assert Collections.Count([r0], q) == (if q(r0) then 1 else 0);
  }

  // ---------------------------------------------------------------------------
  // Grouping, sorting and limiting
  // ---------------------------------------------------------------------------

  /** One output document of `$group`: its key, the rows that fell into it, and the accumulator it is sorted on. */
  datatype Group = Group(key: nat, rows: seq<Row>, score: int)

  function Score(g: Group): int {
    g.score
  }

  function WithKey(rows: seq<Row>, keyOf: Row -> nat, key: nat): seq<Row> {
    Collections.Filter(rows, (r: Row) => keyOf(r) == key)
  }

  function Keys(rows: seq<Row>, keyOf: Row -> nat): (ks: seq<nat>)
    ensures |ks| == |rows|
    ensures forall m :: 0 <= m < |rows| ==> ks[m] == keyOf(rows[m])
  {
    seq(|rows|, m requires 0 <= m < |rows| => keyOf(rows[m]))
  }

  /** Every row falls into the group of its own key. */
  lemma RowInItsGroup(rows: seq<Row>, keyOf: Row -> nat, m: nat)
    requires m < |rows|
    ensures rows[m] in WithKey(rows, keyOf, keyOf(rows[m]))
  {
    var p := (r: Row) => keyOf(r) == keyOf(rows[m]);
    assert p(rows[m]);
  }

  /** `$group: { _id: key }`: one group per distinct key, holding every row with that key. */
  function GroupBy(rows: seq<Row>, keyOf: Row -> nat, scoreOf: seq<Row> -> int): (gs: seq<Group>)
    ensures forall i, j :: 0 <= i < j < |gs| ==> gs[i].key != gs[j].key
    ensures forall i :: 0 <= i < |gs| ==>
      gs[i].rows == WithKey(rows, keyOf, gs[i].key) && gs[i].rows != [] && gs[i].score == scoreOf(gs[i].rows)
    ensures forall m :: 0 <= m < |rows| ==> exists i :: 0 <= i < |gs| && gs[i].key == keyOf(rows[m])
  {
    var keys := Collections.Distinct(Keys(rows, keyOf));
    var gs := seq(|keys|, i requires 0 <= i < |keys| => Group(keys[i], WithKey(rows, keyOf, keys[i]), scoreOf(WithKey(rows, keyOf, keys[i]))));
    forall i | 0 <= i < |gs|
      ensures gs[i].rows != []
    {
      KeyHasRows(rows, keyOf, keys[i]);
    }
    forall m | 0 <= m < |rows|
      ensures exists i :: 0 <= i < |gs| && gs[i].key == keyOf(rows[m])
    {
      assert Keys(rows, keyOf)[m] in keys;
      var i :| 0 <= i < |keys| && keys[i] == keyOf(rows[m]);
      assert gs[i].key == keyOf(rows[m]);
    }
    gs
  }

  /** A key that some row has selects a non-empty group. */
  lemma KeyHasRows(rows: seq<Row>, keyOf: Row -> nat, key: nat)
    requires key in Keys(rows, keyOf)
    ensures WithKey(rows, keyOf, key) != []
  {
    var m :| 0 <= m < |rows| && Keys(rows, keyOf)[m] == key;
    RowInItsGroup(rows, keyOf, m);
  }

  /** `$sort` on the accumulator, descending, then `$limit: 5`. */
  function Top(gs: seq<Group>): (r: seq<Group>)
    ensures |r| <= 5
    ensures Collections.NonIncreasing(r, Score)
    ensures forall k :: 0 <= k < |r| ==> r[k] in gs
  {
    var sorted := Collections.SortDescending(gs, Score);
    var r := Collections.Take(sorted, 5);
    assert forall k :: 0 <= k < |r| ==> r[k] in gs by {
      forall k | 0 <= k < |r|
        ensures r[k] in gs
      {
        assert r[k] == sorted[k];
        assert sorted[k] in multiset(sorted);
      }
    }
    r
  }

  /** A group cut off by the limit scores no higher than any group kept. */
  lemma TopKeepsTheHighest(gs: seq<Group>, kept: Group, dropped: Group)
    requires kept in Top(gs) && dropped in gs && dropped !in Top(gs)
    ensures kept.score >= dropped.score
  {
    var sorted := Collections.SortDescending(gs, Score);
    assert dropped in multiset(sorted);
    Collections.TopAreMaximal(sorted, Score, 5, kept, dropped);
  }

  /** `$lookup` followed by `$unwind`: the groups whose key names an existing document, in order. */
  function Found(top: seq<Group>, count: nat): (r: seq<Group>)
    ensures |r| <= |top|
    ensures forall k :: 0 <= k < |r| ==> r[k].key < count && r[k] in top
    ensures forall k :: 0 <= k < |top| && top[k].key < count ==> top[k] in r
  {
    Collections.Filter(top, (g: Group) => g.key < count)
  }

  /** The top five groups that survive the lookup, best first. */
  function Listed(gs: seq<Group>, count: nat): (r: seq<Group>)
    ensures |r| <= 5
    ensures Collections.NonIncreasing(r, Score)
    ensures forall k :: 0 <= k < |r| ==> r[k].key < count && r[k] in gs
  {
    var top := Top(gs);
    Collections.FilterKeepsOrder(top, (g: Group) => g.key < count, Score);
    Found(top, count)
  }

  /** A group among the top five whose document exists is listed. */
  lemma ListedKeepsTop(gs: seq<Group>, count: nat, g: Group)
    requires g in Top(gs) && g.key < count
    ensures g in Listed(gs, count)
  {
  }

  /** Every group of a `GroupBy` holds exactly the rows with its key, and at least one. */
  lemma InGroupBy(rows: seq<Row>, keyOf: Row -> nat, scoreOf: seq<Row> -> int, g: Group)
    requires g in GroupBy(rows, keyOf, scoreOf)
    ensures g.rows == WithKey(rows, keyOf, g.key) && g.rows != [] && g.score == scoreOf(g.rows)
  {
  }

  /** What each listed group of a `GroupBy` carries. */
  lemma ListedGroups(rows: seq<Row>, keyOf: Row -> nat, scoreOf: seq<Row> -> int, count: nat)
    ensures var found := Listed(GroupBy(rows, keyOf, scoreOf), count);
      forall k :: 0 <= k < |found| ==>
        && found[k].key < count
        && found[k].rows == WithKey(rows, keyOf, found[k].key)
        && found[k].rows != []
        && found[k].score == scoreOf(found[k].rows)
  {
    var found := Listed(GroupBy(rows, keyOf, scoreOf), count);
    forall k | 0 <= k < |found|
      ensures found[k].rows == WithKey(rows, keyOf, found[k].key) && found[k].rows != []
      ensures found[k].score == scoreOf(found[k].rows)
    {
      InGroupBy(rows, keyOf, scoreOf, found[k]);
    }
  }

  /**
   * Grouping, sorting, limiting and looking up keeps the best: a key that
   * occurs in the rows and names an existing document, yet is not listed,
   * scores no higher than any listed group.
   */
  lemma ListedAreTheBest(rows: seq<Row>, keyOf: Row -> nat, scoreOf: seq<Row> -> int, count: nat, key: nat, k: nat)
    requires key < count
    requires exists m :: 0 <= m < |rows| && keyOf(rows[m]) == key
    requires forall e :: 0 <= e < |Listed(GroupBy(rows, keyOf, scoreOf), count)| ==>
      Listed(GroupBy(rows, keyOf, scoreOf), count)[e].key != key
    requires k < |Listed(GroupBy(rows, keyOf, scoreOf), count)|
    ensures Listed(GroupBy(rows, keyOf, scoreOf), count)[k].score >= scoreOf(WithKey(rows, keyOf, key))
  {
    var groups := GroupBy(rows, keyOf, scoreOf);
    var found := Listed(groups, count);
    var m :| 0 <= m < |rows| && keyOf(rows[m]) == key;
    var i :| 0 <= i < |groups| && groups[i].key == keyOf(rows[m]);
    var g := groups[i];
    assert g !in Top(groups) by {
      if g in Top(groups) {
        ListedKeepsTop(groups, count, g);
      }
    }
    TopKeepsTheHighest(groups, found[k], g);
  }

  // ---------------------------------------------------------------------------
  // 2. Top five products
  // ---------------------------------------------------------------------------

  /** `_id`, `name`, the first image if any, `totalSold` and `revenue`. */
  datatype ProductStat = ProductStat(product: ProductId, name: string, image: Option<string>, totalSold: nat, revenue: int)

  function ProductOf(r: Row): nat {
    r.item.product
  }

  /** `$sum: 1`: the number of line items in the group, whatever their quantity. */
  function Sold(rs: seq<Row>): int {
    |rs|
  }

  /** `$arrayElemAt: ["$details.images", 0]`, absent for a product without images. */
  function FirstImage(p: Product): (r: Option<string>)
    ensures r.Some? <==> p.images != []
    ensures r.Some? ==> r.value == p.images[0]
  {
    if p.images == [] then None else Some(p.images[0])
  }

  /** The product groups that make the list, in list order. */
  function ProductRanking(rows: seq<Row>, products: seq<Product>): seq<Group> {
    Listed(GroupBy(rows, ProductOf, Sold), |products|)
  }

  /**
   * A product entry as the pipeline projects it from the product's rows: the
   * product's name and first image, the number of rows (line items, not
   * quantities), and their total price.
   */
  predicate DescribesProduct(s: ProductStat, mine: seq<Row>, products: seq<Product>) {
    && s.product < |products|
    && s.name == products[s.product].name
    && s.image == FirstImage(products[s.product])
    && mine != []
    && s.totalSold == |mine|
    && s.revenue == Collections.Sum(mine, RowPrice)
  }

  /** At most five products, best sellers first, one per ranked group. */
  function TopProducts(rows: seq<Row>, products: seq<Product>): (r: seq<ProductStat>)
    ensures |r| <= 5
    ensures forall i, j :: 0 <= i < j < |r| ==> r[i].totalSold >= r[j].totalSold
    ensures |r| == |ProductRanking(rows, products)|
    ensures forall k :: 0 <= k < |r| ==>
      r[k].product == ProductRanking(rows, products)[k].key && r[k].totalSold == ProductRanking(rows, products)[k].score
  {
    var found := ProductRanking(rows, products);
    ListedGroups(rows, ProductOf, Sold, |products|);
    ProductStats(found, products)
  }

  function ProductStats(found: seq<Group>, products: seq<Product>): (r: seq<ProductStat>)
    requires forall k :: 0 <= k < |found| ==> found[k].key < |products|
    ensures |r| == |found|
    ensures forall k :: 0 <= k < |r| ==> r[k] == ProductStatOf(found[k], products)
    decreases |found|
  {
    if found == [] then [] else [ProductStatOf(found[0], products)] + ProductStats(found[1..], products)
  }

  function ProductStatOf(g: Group, products: seq<Product>): ProductStat
    requires g.key < |products|
  {
    ProductStat(g.key, products[g.key].name, FirstImage(products[g.key]), |g.rows|,
                Collections.Sum(g.rows, RowPrice))
  }

  /** Each listed product is described by exactly its own rows. */
  lemma TopProductsDescribed(rows: seq<Row>, products: seq<Product>)
    ensures var top := TopProducts(rows, products);
      forall k :: 0 <= k < |top| ==> DescribesProduct(top[k], WithKey(rows, ProductOf, top[k].product), products)
  {
    ListedGroups(rows, ProductOf, Sold, |products|);
    var top := TopProducts(rows, products);
    forall k | 0 <= k < |top|
      ensures DescribesProduct(top[k], WithKey(rows, ProductOf, top[k].product), products)
    {
      var g := ProductRanking(rows, products)[k];
      assert top[k] == ProductStatOf(g, products);
    }
  }

  /**
   * The five kept are the best sellers: an existing product that appears in
   * the rows but in no ranked group sold no more line items than any ranked one.
   */
  lemma TopProductsAreBestSellers(rows: seq<Row>, products: seq<Product>, m: nat)
    requires m < |rows| && rows[m].item.product < |products|
    ensures var p := rows[m].item.product; var ranked := ProductRanking(rows, products);
      (forall e :: 0 <= e < |ranked| ==> ranked[e].key != p) ==>
        forall k :: 0 <= k < |ranked| ==> ranked[k].score >= |WithKey(rows, ProductOf, p)|
  {
    var p := rows[m].item.product;
    var ranked := ProductRanking(rows, products);
    if forall e :: 0 <= e < |ranked| ==> ranked[e].key != p {
      assert ProductOf(rows[m]) == p;
      forall k | 0 <= k < |ranked|
        ensures ranked[k].score >= |WithKey(rows, ProductOf, p)|
      {
        ListedAreTheBest(rows, ProductOf, Sold, |products|, p, k);
      }
    }
  }

  // ---------------------------------------------------------------------------
  // 3. Stock alerts
  // ---------------------------------------------------------------------------

  /** `Product.find({ seller, stock: { $lt: 10 } }).limit(5)`: soft-deleted and unpublished products included. */
  function StockAlerts(products: seq<Product>, seller: BusinessId): (r: seq<Product>)
    ensures |r| <= 5
    ensures forall k :: 0 <= k < |r| ==> r[k].seller == seller && r[k].stock < 10 && r[k] in products
    ensures |r| < 5 ==> forall k :: 0 <= k < |products| && products[k].seller == seller && products[k].stock < 10 ==> products[k] in r
  {
    var low := Collections.Filter(products, (p: Product) => p.seller == seller && p.stock < 10);
    var r := Collections.Take(low, 5);
    assert forall k :: 0 <= k < |r| ==> r[k] == low[k];
    r
  }

  // ---------------------------------------------------------------------------
  // 4. Top five customers
  // ---------------------------------------------------------------------------

  datatype CustomerStat = CustomerStat(user: UserId, name: string, email: string, totalSpent: int, orderCount: nat, lastPurchase: int)

  /** `$match: { "items.seller": businessId, paymentStatus: 'paid' }`. */
  function PaidMatched(orders: seq<Order>, seller: BusinessId): seq<Row> {
    Collections.Filter(Unwind(orders), (r: Row) => r.item.seller == seller && Paid(r.order))
  }

  function CustomerOf(r: Row): nat {
    r.order.user
  }

  /** `$sum: "$items.price"`. */
  function Spent(rs: seq<Row>): int {
    Collections.Sum(rs, RowPrice)
  }

  /** `$max: "$createdAt"` over a non-empty group. */
  function LastPurchase(rows: seq<Row>): (m: int)
    requires rows != []
    ensures forall k :: 0 <= k < |rows| ==> rows[k].order.createdAt <= m
    ensures exists k :: 0 <= k < |rows| && rows[k].order.createdAt == m
    decreases |rows|
  {
    if |rows| == 1 then rows[0].order.createdAt
    else
      var rest := LastPurchase(rows[1..]);
      assert forall k :: 1 <= k < |rows| ==> rows[k] == rows[1..][k - 1];
      if rows[0].order.createdAt >= rest then rows[0].order.createdAt else rest
  }

  /** The customer groups that make the list, in list order. */
  function CustomerRanking(rows: seq<Row>, users: seq<User>): seq<Group> {
    Listed(GroupBy(rows, CustomerOf, Spent), |users|)
  }

  /**
   * A customer entry as the pipeline projects it from the customer's paid
   * rows: the user's name and e-mail, the rows' total, the number of distinct
   * orders, and the latest order date (the maximum, by `LastPurchase`).
   */
  predicate Describes(c: CustomerStat, mine: seq<Row>, users: seq<User>) {
    && c.user < |users|
    && c.name == users[c.user].name
    && c.email == users[c.user].email
    && mine != []
    && c.totalSpent == Spent(mine)
    && c.orderCount == |OrderIds(mine)|
    && c.lastPurchase == LastPurchase(mine)
  }

  /** At most five customers, biggest spenders first, one per ranked group. */
  function TopCustomers(rows: seq<Row>, users: seq<User>): (r: seq<CustomerStat>)
    ensures |r| <= 5
    ensures forall i, j :: 0 <= i < j < |r| ==> r[i].totalSpent >= r[j].totalSpent
    ensures |r| == |CustomerRanking(rows, users)|
    ensures forall k :: 0 <= k < |r| ==>
      r[k].user == CustomerRanking(rows, users)[k].key && r[k].totalSpent == CustomerRanking(rows, users)[k].score
  {
    var found := CustomerRanking(rows, users);
    RankedCustomersExist(rows, users);
    StatsInRankOrder(found, users);
    CustomerStats(found, users)
  }

  /** Every ranked group belongs to an existing user and holds rows. */
  lemma RankedCustomersExist(rows: seq<Row>, users: seq<User>)
    ensures var found := CustomerRanking(rows, users);
      forall k :: 0 <= k < |found| ==> found[k].key < |users| && found[k].rows != []
  {
    ListedGroups(rows, CustomerOf, Spent, |users|);
  }

  /** Stats built from groups in score order are in spending order. */
  lemma StatsInRankOrder(found: seq<Group>, users: seq<User>)
    requires forall k :: 0 <= k < |found| ==> found[k].key < |users| && found[k].rows != []
    requires Collections.NonIncreasing(found, Score)
    ensures var r := CustomerStats(found, users);
      forall i, j :: 0 <= i < j < |r| ==> r[i].totalSpent >= r[j].totalSpent
  {
    var r := CustomerStats(found, users);
    forall i, j | 0 <= i < j < |r|
      ensures r[i].totalSpent >= r[j].totalSpent
    {
      assert r[i].totalSpent == Score(found[i]) && r[j].totalSpent == Score(found[j]);
    }
  }

  function CustomerStats(found: seq<Group>, users: seq<User>): (r: seq<CustomerStat>)
    requires forall k :: 0 <= k < |found| ==> found[k].key < |users| && found[k].rows != []
    ensures |r| == |found|
    ensures forall k :: 0 <= k < |r| ==> r[k] == CustomerStatOf(found[k], users)
    decreases |found|
  {
    if found == [] then [] else [CustomerStatOf(found[0], users)] + CustomerStats(found[1..], users)
  }

  /** Each listed customer is described by exactly its own paid rows. */
  lemma TopCustomersDescribed(rows: seq<Row>, users: seq<User>)
    ensures var top := TopCustomers(rows, users);
      forall k :: 0 <= k < |top| ==> Describes(top[k], WithKey(rows, CustomerOf, top[k].user), users)
  {
    ListedGroups(rows, CustomerOf, Spent, |users|);
    var top := TopCustomers(rows, users);
    forall k | 0 <= k < |top|
      ensures Describes(top[k], WithKey(rows, CustomerOf, top[k].user), users)
    {
      var g := CustomerRanking(rows, users)[k];
      assert top[k] == CustomerStatOf(g, users);
    }
  }

  function CustomerStatOf(g: Group, users: seq<User>): CustomerStat
    requires g.key < |users| && g.rows != []
  {
    CustomerStat(g.key, users[g.key].name, users[g.key].email, g.score, |OrderIds(g.rows)|, LastPurchase(g.rows))
  }

  /**
   * The five kept are the biggest spenders: an existing user who appears in
   * the rows but in no ranked group spent no more than any ranked one.
   */
  lemma TopCustomersAreBiggestSpenders(rows: seq<Row>, users: seq<User>, m: nat)
    requires m < |rows| && rows[m].order.user < |users|
    ensures var u := rows[m].order.user; var ranked := CustomerRanking(rows, users);
      (forall e :: 0 <= e < |ranked| ==> ranked[e].key != u) ==>
        forall k :: 0 <= k < |ranked| ==> ranked[k].score >= Spent(WithKey(rows, CustomerOf, u))
  {
    var u := rows[m].order.user;
    var ranked := CustomerRanking(rows, users);
    if forall e :: 0 <= e < |ranked| ==> ranked[e].key != u {
      assert CustomerOf(rows[m]) == u;
      forall k | 0 <= k < |ranked|
        ensures ranked[k].score >= Spent(WithKey(rows, CustomerOf, u))
      {
        ListedAreTheBest(rows, CustomerOf, Spent, |users|, u, k);
      }
    }
  }

  // ---------------------------------------------------------------------------
  // The handler
  // ---------------------------------------------------------------------------

  datatype Stats = Stats(summary: Summary, topProducts: seq<ProductStat>, stockAlerts: seq<Product>,
                         topCustomers: seq<CustomerStat>)

  function StatsOf(db: Db, seller: BusinessId): Stats {
    Stats(SalesSummary(db.orders, seller), TopProducts(Matched(db.orders, seller), db.products),
          StockAlerts(db.products, seller), TopCustomers(PaidMatched(db.orders, seller), db.users))
  }

  /**
   * The handler as written: the business is fetched with `.select("_id")`, so
   * its `isDeleted` is never loaded and the soft-deletion check never fires;
   * only an owner without any business gets 404.
   */
  function DashboardStats(db: Db, caller: UserId): (out: (Reply, Option<Stats>))
    ensures out.0.status in {200, 404}
    ensures out.0.status == 404 <==> FindOwned(db.businesses, caller).None?
    ensures out.1.Some? <==> out.0.status == 200
    ensures out.1.Some? ==> out.1.value == StatsOf(db, FindOwned(db.businesses, caller).value)
  {
    match FindOwned(db.businesses, caller)
    case None => (Reply(404, "Business not found."), None)
    case Some(b) => (Reply(200, ""), Some(StatsOf(db, b)))
  }

  /** A soft-deleted business still gets its dashboard. */
  lemma DeletedBusinessGetsStats()
    ensures
      var b := Business(0, "Shop", "Shop Ltd", "T1", NoAddress, BankDetails(None, None, None, None), Active, true);
      var db := Db([], [b], [], [], []);
      DashboardStats(db, 0).0.status == 200
  {
  }

  /** The handler as its check intends: missing and soft-deleted businesses are both 404. */
  function DashboardStatsChecked(db: Db, caller: UserId): (out: (Reply, Option<Stats>))
    ensures out.0.status in {200, 404}
    ensures out.0.status == 404 <==> LiveBusiness(db.businesses, caller).None?
    ensures out.1.Some? <==> out.0.status == 200
    ensures out.1.Some? ==> out.1.value == StatsOf(db, LiveBusiness(db.businesses, caller).value)
  {
    match LiveBusiness(db.businesses, caller)
    case None => (Reply(404, "Business not found."), None)
    case Some(b) => (Reply(200, ""), Some(StatsOf(db, b)))
  }

  /** The checked handler answers 404 for every soft-deleted business and otherwise agrees with the original. */
  lemma CheckedDashboardRefusesDeleted(db: Db, caller: UserId)
    ensures FindOwned(db.businesses, caller).Some? && db.businesses[FindOwned(db.businesses, caller).value].isDeleted ==>
      DashboardStatsChecked(db, caller).0.status == 404
    ensures LiveBusiness(db.businesses, caller).Some? ==> DashboardStatsChecked(db, caller) == DashboardStats(db, caller)
  {
  }
}
