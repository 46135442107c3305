/**
 * The inventory record of `server/src/models/inventary.model.ts`: physical
 * stock, the part of it held in unpaid carts, and the `sellable` virtual.
 */
module Inventory {
  import opened Wrappers

  type SkuId = nat

  datatype Stock = Stock(sku: SkuId, quantity: int, reserved: int, lowStockThreshold: int, warehouseLocation: string)

  const DefaultReserved := 0
  const DefaultLowStockThreshold := 5
  const DefaultWarehouse := "Default Warehouse"

  /** The schema's `min: 0` rules, the only bounds it places on the two counts. */
  predicate Valid(s: Stock) {
    s.quantity >= 0 && s.reserved >= 0
  }

  /**
   * `Inventory.create(...)`: absent optional paths take their defaults, and
   * validation fails when any path is below its minimum.
   */
  function Create(sku: SkuId, quantity: int, reserved: Option<int>, threshold: Option<int>, location: Option<string>): (r: Result<Stock>)
    ensures r.Ok? <==> quantity >= 0 && reserved.GetOr(DefaultReserved) >= 0
    ensures r.Ok? ==> Valid(r.value) && r.value.sku == sku && r.value.quantity == quantity
    ensures r.Ok? && reserved.None? ==> r.value.reserved == 0
    ensures r.Ok? && threshold.None? ==> r.value.lowStockThreshold == DefaultLowStockThreshold
    ensures r.Ok? && location.None? ==> r.value.warehouseLocation == DefaultWarehouse
  {
    var s := Stock(sku, quantity, reserved.GetOr(DefaultReserved), threshold.GetOr(DefaultLowStockThreshold),
                   location.GetOr(DefaultWarehouse));
    if s.quantity < 0 then Err("quantity")
    else if s.reserved < 0 then Err("reserved")
    else Ok(s)
  }

  /** The `sellable` virtual: stock not held in carts. */
  function Sellable(s: Stock): int {
    s.quantity - s.reserved
  }

  /** Reservations only take away: a valid record never sells more than it holds. */
  lemma SellableAtMostQuantity(s: Stock)
    requires Valid(s)
    ensures Sellable(s) <= s.quantity
    ensures s.reserved == 0 ==> Sellable(s) == s.quantity
  {
  }

  /** Nothing ties `reserved` to `quantity`, so a valid record can report negative sellable stock. */
  lemma OverReservedIsValid()
    ensures var r := Create(0, 2, Some(3), None, None); r.Ok? && Sellable(r.value) == -1
  {
  }
}
