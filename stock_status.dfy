/** The mobile app's stock-status classifier and its colours. */
module StockStatus {

  const OutOfStock := "out-of-stock"
  const LowStock := "low-stock"
  const InStock := "in-stock"

  const Red := "#FF4757"
  const Amber := "#FFA726"
  const Green := "#4CAF50"

  /** `getStockStatus`: nothing left is out of stock, up to the threshold
      (inclusive) is low, and more is in stock. */
  function GetStockStatus(current: real, threshold: real): (r: string)
    ensures r == OutOfStock <==> current <= 0.0
    ensures r == LowStock <==> 0.0 < current <= threshold
    ensures r == InStock <==> current > 0.0 && current > threshold
  {
    if current <= 0.0 then OutOfStock
    else if current <= threshold then LowStock
    else InStock
  }

  /** `getStockStatusColor`: red and amber for the two warning statuses, and
      green for in-stock and for any other text. */
  function GetStockStatusColor(status: string): (r: string)
    ensures r == Red <==> status == OutOfStock
    ensures r == Amber <==> status == LowStock
    ensures r == Green <==> status != OutOfStock && status != LowStock
  {
    match status
    case "out-of-stock" => Red
    case "low-stock" => Amber
    case _ => Green
  }

  /** How good a status is: out of stock, low, in stock. */
  function Rank(status: string): nat {
    if status == OutOfStock then 0 else if status == LowStock then 1 else 2
  }

  /** More stock never gives a worse status. */
  lemma StatusMonotone(a: real, b: real, threshold: real)
    requires a <= b
    ensures Rank(GetStockStatus(a, threshold)) <= Rank(GetStockStatus(b, threshold))
  {
  }

  /** With a threshold of 0 or less no stock is ever low. */
  lemma NoLowBelowZeroThreshold(current: real, threshold: real)
    requires threshold <= 0.0
    ensures GetStockStatus(current, threshold) != LowStock
  {
  }

  /** The colour shown for a stock level: red iff nothing is left, amber iff
      the stock is positive but at most the threshold. */
  lemma ColorOfStock(current: real, threshold: real)
    ensures GetStockStatusColor(GetStockStatus(current, threshold)) == Red <==> current <= 0.0
    ensures GetStockStatusColor(GetStockStatus(current, threshold)) == Amber <==> 0.0 < current <= threshold
    ensures GetStockStatusColor(GetStockStatus(current, threshold)) == Green <==> current > 0.0 && current > threshold
  {
  }
}
