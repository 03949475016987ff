/**
 * The domain records of the checkout pipeline. C# `decimal` is exact base-10
 * arithmetic and is modelled as `real`; a `DateTime` (and the ISO-8601 date
 * text SQLite stores and compares) is modelled as an integer instant.
 */
module Entities {
  import opened Wrappers

  /** An instant: `DateTime`, or the date text of a `StartDate` column, in chronological order. */
  type Date = int

  /** A row of the `Pricing` history: the unit price of an item from `startDate` on. */
  datatype Pricing = Pricing(id: int, itemId: int, price: real, startDate: Date)

  /** A row of the `Vat` history: the VAT rate of an item from `startDate` on. */
  datatype Vat = Vat(id: int, itemId: int, rate: real, startDate: Date)

  /** A resolved quote: the unit price and VAT rate the lookup returns for an item. */
  datatype ItemOrderPrice = ItemOrderPrice(id: int, price: real, vatRate: real)

  /** No two quotes share an id. */
  predicate DistinctIds(quotes: seq<ItemOrderPrice>) {
    forall i, j :: 0 <= i < j < |quotes| ==> quotes[i].id != quotes[j].id
  }

  /** A priced order line: `price` is the line total, `vatValue` the VAT on it. */
  datatype OrderItem = OrderItem(itemId: int, quantity: int, price: real, vatValue: real)

  /**
   * An order. `id` is absent until the order is stored; `items` is a nullable
   * list in the source, hence an Option.
   */
  datatype Order = Order(id: Option<int>, total: real, totalVat: real, date: Date, items: Option<seq<OrderItem>>)

  /** A requested line of a checkout request. */
  datatype RequestItem = RequestItem(productId: int, quantity: int)

  /**
   * A checkout request: the request, its order and the order's item list are
   * each nullable in the source; None stands for any of them being null.
   */
  type OrderRequest = Option<seq<RequestItem>>
}
