/**
 * The SQLite order repository: validates an order, then writes its header row and
 * one row per line inside a single transaction, and hands back the order with the
 * new header id.
 */
module Orders {
  import opened Wrappers
  import opened Entities

  /** Why a save is refused: the source's exceptions, by the field its message names. */
  datatype SaveError =
    | OrderIsNull                      // ArgumentNullException for `order`
    | NoItems                          // "Order must contain at least one item"
    | InvalidItemId(itemId: int)
    | InvalidQuantity(quantity: int)
    | NegativePrice(price: real)
    | NegativeVatValue(vatValue: real)
    | NegativeTotal(total: real)
    | NegativeTotalVat(totalVat: real)
    | WriteFailed                      // the database's own exception from a write or the commit, rethrown after the rollback

  /**
   * The order or line field an error message names, if any: the null-order and
   * empty-list messages name none, and a database exception is not the store's own.
   */
  function FieldName(e: SaveError): Option<string> {
    match e
    case OrderIsNull => None
    case NoItems => None
    case InvalidItemId(_) => Some("ItemId")
    case InvalidQuantity(_) => Some("Quantity")
    case NegativePrice(_) => Some("Price")
    case NegativeVatValue(_) => Some("VatValue")
    case NegativeTotal(_) => Some("Total")
    case NegativeTotalVat(_) => Some("TotalVat")
    case WriteFailed => None
  }

  // ---------------------------------------------------------------------------
  // Validation
  // ---------------------------------------------------------------------------

  /** An order line the store accepts: zero price and zero VAT are allowed. */
  predicate StorableItem(item: OrderItem) {
    item.itemId > 0 && item.quantity > 0 && item.price >= 0.0 && item.vatValue >= 0.0
  }

  /**
   * An order the store accepts. Nothing relates the totals to the lines: an order
   * whose totals are not the sums of its lines is storable when they are non-negative.
   */
  predicate Storable(order: Option<Order>) {
    && order.Some?
    && order.value.items.Some?
    && |order.value.items.value| > 0
    && (forall item :: item in order.value.items.value ==> StorableItem(item))
    && order.value.total >= 0.0
    && order.value.totalVat >= 0.0
  }

  /**
   * `e` is the error the line checks report for `item`: the checks run ItemId,
   * Quantity, Price, VatValue, and the first that fails names its field and value.
   */
  predicate FirstItemViolation(item: OrderItem, e: SaveError) {
    match e
    case InvalidItemId(x) => x == item.itemId && x <= 0
    case InvalidQuantity(q) => item.itemId > 0 && q == item.quantity && q <= 0
    case NegativePrice(p) => item.itemId > 0 && item.quantity > 0 && p == item.price && p < 0.0
    case NegativeVatValue(v) => item.itemId > 0 && item.quantity > 0 && item.price >= 0.0 && v == item.vatValue && v < 0.0
    case _ => false
  }

  /** `ValidateOrderItem`. */
  function ValidateOrderItem(item: OrderItem): (r: Outcome<SaveError>)
    ensures r.Pass? <==> StorableItem(item)
    ensures r.Fail? ==> FirstItemViolation(item, r.error)
  {
    if item.itemId <= 0 then Fail(InvalidItemId(item.itemId))
    else if item.quantity <= 0 then Fail(InvalidQuantity(item.quantity))
    else if item.price < 0.0 then Fail(NegativePrice(item.price))
    else if item.vatValue < 0.0 then Fail(NegativeVatValue(item.vatValue))
    else Pass
  }

  /** The `foreach` of `ValidateOrderItems`: the lines are checked in list order. */
  function ValidateEachItem(items: seq<OrderItem>): (r: Outcome<SaveError>)
    ensures r.Pass? <==> forall item :: item in items ==> StorableItem(item)
    ensures r.Fail? ==> exists k :: 0 <= k < |items| && (forall i :: 0 <= i < k ==> StorableItem(items[i]))
                                     && FirstItemViolation(items[k], r.error)
  {
    if items == [] then Pass
    else
      match ValidateOrderItem(items[0])
      case Fail(e) => Fail(e)
      case Pass =>
        var r := ValidateEachItem(items[1..]);
        ValidateEachItemStep(items, r);
        r
  }

  /** A first line that passes keeps the verdict on the remaining lines, shifted by one. */
  lemma ValidateEachItemStep(items: seq<OrderItem>, r: Outcome<SaveError>)
    requires items != [] && StorableItem(items[0])
    requires r.Pass? <==> forall item :: item in items[1..] ==> StorableItem(item)
    requires r.Fail? ==> exists k :: 0 <= k < |items| - 1 && (forall i :: 0 <= i < k ==> StorableItem(items[1..][i]))
                                     && FirstItemViolation(items[1..][k], r.error)
    ensures r.Pass? <==> forall item :: item in items ==> StorableItem(item)
    ensures r.Fail? ==> exists k :: 0 <= k < |items| && (forall i :: 0 <= i < k ==> StorableItem(items[i]))
                                     && FirstItemViolation(items[k], r.error)
  {
    assert forall item :: item in items <==> item == items[0] || item in items[1..];
    if r.Fail? {
      var k :| 0 <= k < |items| - 1 && (forall i :: 0 <= i < k ==> StorableItem(items[1..][i]))
        && FirstItemViolation(items[1..][k], r.error);
      forall i | 0 <= i < k + 1
        ensures StorableItem(items[i])
      {
        if i > 0 {
          assert items[i] == items[1..][i - 1];
        }
      }
      assert items[k + 1] == items[1..][k];
    }
  }

  /** `ValidateOrderItems`: a null or empty list is refused before any line is checked. */
  function ValidateOrderItems(items: Option<seq<OrderItem>>): Outcome<SaveError> {
    if items.None? || |items.value| == 0 then Fail(NoItems)
    else ValidateEachItem(items.value)
  }

  /** `ValidateOrderTotals`: Total is checked before TotalVat. */
  function ValidateOrderTotals(order: Order): Outcome<SaveError> {
    if order.total < 0.0 then Fail(NegativeTotal(order.total))
    else if order.totalVat < 0.0 then Fail(NegativeTotalVat(order.totalVat))
    else Pass
  }

  /** `ValidateOrder`: null order, then the lines, then the totals. */
  function ValidateOrder(order: Option<Order>): Outcome<SaveError> {
    if order.None? then Fail(OrderIsNull)
    else
      match ValidateOrderItems(order.value.items)
      case Fail(e) => Fail(e)
      case Pass => ValidateOrderTotals(order.value)
  }

  /** The guard chain accepts exactly the storable orders. */
  lemma ValidateOrderAccepts(order: Option<Order>)
    ensures ValidateOrder(order) == Pass <==> Storable(order)
  {
  }

  /**
   * The order of the checks: a null order is reported first; then a missing or
   * empty line list; then the first bad line, at its first bad field; the totals
   * are looked at only when every line passes, Total before TotalVat.
   */
  lemma {:induction false} ValidationOrder(order: Option<Order>)
    ensures order.None? ==> ValidateOrder(order) == Fail(OrderIsNull)
    ensures order.Some? && (order.value.items.None? || order.value.items.value == []) ==> ValidateOrder(order) == Fail(NoItems)
    ensures order.Some? && order.value.items.Some? && order.value.items.value != [] ==>
      var items := order.value.items.value;
      match ValidateOrder(order)
      case Pass => Storable(order)
      case Fail(e) =>
        || (exists k :: 0 <= k < |items| && (forall i :: 0 <= i < k ==> StorableItem(items[i])) && FirstItemViolation(items[k], e))
        || ((forall item :: item in items ==> StorableItem(item))
            && ((e == NegativeTotal(order.value.total) && order.value.total < 0.0)
                || (e == NegativeTotalVat(order.value.totalVat) && order.value.total >= 0.0 && order.value.totalVat < 0.0)))
  {
  }

  /**
   * The repository's test orders: a line with VatValue -2.0 is refused naming
   * "VatValue"; the same line with VatValue 2.0 is accepted although the order's
   * Total 100.0 and TotalVat 20.0 are not the sums of its one line.
   */
  lemma ValidationScenarios(date: Date)
    ensures var bad := Order(None, 100.0, 20.0, date, Some([OrderItem(1, 1, 10.0, -2.0)]));
      ValidateOrder(Some(bad)) == Fail(NegativeVatValue(-2.0)) && FieldName(ValidateOrder(Some(bad)).error) == Some("VatValue")
    ensures ValidateOrder(Some(Order(None, 100.0, 20.0, date, Some([OrderItem(1, 1, 10.0, 2.0)])))) == Pass
  {
  }

  // ---------------------------------------------------------------------------
  // The stored tables and what a save does to them
  // ---------------------------------------------------------------------------

  /** A row of the `Orders` table. */
  datatype OrderRow = OrderRow(id: int, total: real, totalVat: real, date: Date)

  /** A row of the `OrderItems` table. */
  datatype OrderItemRow = OrderItemRow(orderId: int, itemId: int, quantity: int, price: real, vatValue: real)

  /** The two tables the store writes, and the id the next header row receives. */
  datatype Tables = Tables(orders: seq<OrderRow>, orderItems: seq<OrderItemRow>, nextId: int)

  /**
   * What the database keeps true: header ids are positive, below the next id and
   * distinct, and every line row refers to a stored header.
   */
  ghost predicate Consistent(t: Tables) {
    && t.nextId > 0
    && (forall i :: 0 <= i < |t.orders| ==> 0 < t.orders[i].id < t.nextId)
    && (forall i, j :: 0 <= i < j < |t.orders| ==> t.orders[i].id != t.orders[j].id)
    && (forall j :: 0 <= j < |t.orderItems| ==> exists i :: 0 <= i < |t.orders| && t.orders[i].id == t.orderItems[j].orderId)
  }

  /** The line row `InsertOrderItems` writes for `item`. */
  function ItemRow(orderId: int, item: OrderItem): OrderItemRow {
    OrderItemRow(orderId, item.itemId, item.quantity, item.price, item.vatValue)
  }

  /** The line rows for `items`, in item order. */
  function ItemRows(orderId: int, items: seq<OrderItem>): (rows: seq<OrderItemRow>)
    ensures |rows| == |items|
    ensures forall i :: 0 <= i < |items| ==> rows[i] == ItemRow(orderId, items[i])
  {
    if items == [] then [] else ItemRows(orderId, items[..|items| - 1]) + [ItemRow(orderId, items[|items| - 1])]
  }

  /** Line rows of a stored header can be appended without breaking consistency. */
  lemma AppendLinesConsistent(t: Tables, orderId: int, items: seq<OrderItem>)
    requires Consistent(t)
    requires exists i :: 0 <= i < |t.orders| && t.orders[i].id == orderId
    ensures Consistent(Tables(t.orders, t.orderItems + ItemRows(orderId, items), t.nextId))
  {
    var header :| 0 <= header < |t.orders| && t.orders[header].id == orderId;
    var rows := t.orderItems + ItemRows(orderId, items);
    forall j | 0 <= j < |rows|
      ensures exists i :: 0 <= i < |t.orders| && t.orders[i].id == rows[j].orderId
    {
      if j < |t.orderItems| {
        assert rows[j] == t.orderItems[j];
      } else {
        assert rows[j] == ItemRow(orderId, items[j - |t.orderItems|]);
        assert t.orders[header].id == rows[j].orderId;
      }
    }
  }

  /**
   * Whether the database fails one of the statements of the transaction of a save
   * with `n` lines: `fault` is the index of the failing statement, 0 for the header
   * insert, k for the insert of line k (counting from 1) and n + 1 for the commit.
   */
  predicate WriteFails(fault: Option<nat>, n: nat) {
    fault.Some? && fault.value <= n + 1
  }

  /**
   * What `Save` does, as a function of the tables before it, the order, the clock
   * read at insert time and the injected write fault: the new tables and the
   * returned order or the exception thrown.
   */
  function SaveOutcome(t: Tables, order: Option<Order>, now: Date, fault: Option<nat>): (Tables, Result<Order, SaveError>) {
    match ValidateOrder(order)
    case Fail(e) => (t, Failure(e))
    case Pass =>
      ValidateOrderAccepts(order);
      var o := order.value;
      var items := o.items.value;
      if WriteFails(fault, |items|) then (t, Failure(WriteFailed))
      else
        (Tables(t.orders + [OrderRow(t.nextId, o.total, o.totalVat, now)],
                t.orderItems + ItemRows(t.nextId, items),
                t.nextId + 1),
         Success(o.(id := Some(t.nextId))))
  }

  /** All or nothing: a refused or failed save leaves both tables as they were. */
  lemma SaveAtomic(t: Tables, order: Option<Order>, now: Date, fault: Option<nat>)
    ensures SaveOutcome(t, order, now, fault).1.Failure? ==> SaveOutcome(t, order, now, fault).0 == t
  {
  }

  /** A save succeeds exactly when the order is storable and no write fails; validation precedes every write. */
  lemma SaveSucceedsIff(t: Tables, order: Option<Order>, now: Date, fault: Option<nat>)
    ensures SaveOutcome(t, order, now, fault).1.Success? <==> Storable(order) && !WriteFails(fault, |order.value.items.value|)
    ensures !Storable(order) ==> SaveOutcome(t, order, now, fault).1 == Failure(ValidateOrder(order).error)
  {
    ValidateOrderAccepts(order);
  }

  /**
   * A successful save appends one header row carrying the order's totals and the
   * insert-time clock (not `order.Date`), then one line row per item in item
   * order, all with the new id; that id is unused so far, and the returned order
   * is the input with that id and nothing else changed.
   */
  lemma SaveAppends(t: Tables, order: Option<Order>, now: Date, fault: Option<nat>)
    requires Consistent(t)
    requires SaveOutcome(t, order, now, fault).1.Success?
    ensures var (t', r) := SaveOutcome(t, order, now, fault);
      var o := order.value;
      var id := r.value.id.value;
      && r.value == o.(id := Some(id))
      && (forall row :: row in t.orders ==> row.id != id)
      && t'.orders == t.orders + [OrderRow(id, o.total, o.totalVat, now)]
      && |t'.orderItems| == |t.orderItems| + |o.items.value|
      && t'.orderItems[..|t.orderItems|] == t.orderItems
      && (forall i :: 0 <= i < |o.items.value| ==>
            t'.orderItems[|t.orderItems| + i] == OrderItemRow(id, o.items.value[i].itemId, o.items.value[i].quantity,
                                                              o.items.value[i].price, o.items.value[i].vatValue))
  {
    ValidateOrderAccepts(order);
    var t' := SaveOutcome(t, order, now, fault).0;
    assert t'.orderItems[..|t.orderItems|] == t.orderItems;
  }

  /** Every save keeps the database consistent. */
  lemma SavePreservesConsistency(t: Tables, order: Option<Order>, now: Date, fault: Option<nat>)
    requires Consistent(t)
    ensures Consistent(SaveOutcome(t, order, now, fault).0)
  {
    var (t', r) := SaveOutcome(t, order, now, fault);
    if r.Success? {
      ValidateOrderAccepts(order);
      var id := t.nextId;
      var n := |t.orders|;
      assert t'.orders[n].id == id;
      forall j | 0 <= j < |t'.orderItems|
        ensures exists i :: 0 <= i < |t'.orders| && t'.orders[i].id == t'.orderItems[j].orderId
      {
        if j < |t.orderItems| {
          assert t'.orderItems[j] == t.orderItems[j];
          var i :| 0 <= i < |t.orders| && t.orders[i].id == t.orderItems[j].orderId;
          assert t'.orders[i] == t.orders[i];
        } else {
          assert t'.orderItems[j].orderId == id;
        }
      }
    }
  }

  /** Saving the same order twice stores two orders under two distinct ids. */
  lemma SaveTwiceDistinct(t: Tables, order: Option<Order>, now1: Date, now2: Date)
    requires Consistent(t)
    requires Storable(order)
    ensures var (t1, r1) := SaveOutcome(t, order, now1, None);
      var (t2, r2) := SaveOutcome(t1, order, now2, None);
      r1.Success? && r2.Success? && r1.value.id != r2.value.id && |t2.orders| == |t.orders| + 2
  {
    ValidateOrderAccepts(order);
  }

  // ---------------------------------------------------------------------------
  // The repository
  // ---------------------------------------------------------------------------

  /** `OrderRepository` over the database it writes. */
  class OrderRepository {
    var orders: seq<OrderRow>
    var orderItems: seq<OrderItemRow>
    var nextId: int

    function State(): Tables
      reads this
    {
      Tables(orders, orderItems, nextId)
    }

    ghost predicate Valid()
      reads this
    {
      Consistent(State())
    }

    /** A repository over an empty database. */
    constructor ()
      ensures Valid() && orders == [] && orderItems == []
    {
      orders, orderItems, nextId := [], [], 1;
    }

    /** `InsertOrder`: writes the header row stamped with `now` and returns its id, unless the write fails. */
    method InsertOrder(order: Order, now: Date, fails: bool) returns (ok: bool, orderId: int)
      requires Valid()
      modifies this
      ensures Valid()
      ensures ok == !fails
      ensures ok ==> && orderId == old(nextId) && nextId == old(nextId) + 1 && orderItems == old(orderItems)
                     && orders == old(orders) + [OrderRow(orderId, order.total, order.totalVat, now)]
      ensures !ok ==> State() == old(State())
    {
      if fails {
        return false, 0;
      }
      ghost var before := orders;
      orderId := nextId;
      orders := orders + [OrderRow(orderId, order.total, order.totalVat, now)];
      nextId := nextId + 1;
      ok := true;
      forall j | 0 <= j < |orderItems|
        ensures exists i :: 0 <= i < |orders| && orders[i].id == orderItems[j].orderId
      {
        var i :| 0 <= i < |before| && before[i].id == orderItems[j].orderId;
        assert orders[i] == before[i];
      }
    }

    /**
     * `InsertOrderItems`: writes one line row per item, in item order. When the
     * write of line `failAt` fails, the rows written before it are left for the
     * caller's rollback.
     */
    method InsertOrderItems(orderId: int, items: seq<OrderItem>, failAt: Option<nat>) returns (ok: bool)
      requires Valid()
      requires exists i :: 0 <= i < |orders| && orders[i].id == orderId
      modifies this`orderItems
      ensures Valid()
      ensures ok <==> !(failAt.Some? && failAt.value < |items|)
      ensures ok ==> orderItems == old(orderItems) + ItemRows(orderId, items)
      ensures !ok ==> orderItems == old(orderItems) + ItemRows(orderId, items[..failAt.value])
    {
      var i := 0;
      while i < |items|
        invariant 0 <= i <= |items|
        invariant !(failAt.Some? && failAt.value < i)
        invariant orderItems == old(orderItems) + ItemRows(orderId, items[..i])
      {
        if failAt == Some(i) {
          AppendLinesConsistent(old(State()), orderId, items[..i]);
          return false;
        }
        assert items[..i + 1][..i] == items[..i];
        orderItems := orderItems + [ItemRow(orderId, items[i])];
        i := i + 1;
      }
      assert items[..i] == items;
      AppendLinesConsistent(old(State()), orderId, items);
      ok := true;
    }

    /**
     * `Save`: validates, then inserts the header and the lines in one transaction
     * that is rolled back, and the failure rethrown, if any write fails; on commit
     * the order comes back with the new id.
     */
    method Save(order: Option<Order>, now: Date, fault: Option<nat>) returns (result: Result<Order, SaveError>)
      requires Valid()
      modifies this
      ensures Valid()
      ensures (State(), result) == SaveOutcome(old(State()), order, now, fault)
    {
      match ValidateOrder(order)
      case Fail(e) =>
        return Failure(e);
      case Pass =>
      ValidateOrderAccepts(order);
      var o := order.value;
      var items := o.items.value;
      var before := State();                       // BEGIN TRANSACTION
      var ok, orderId := InsertOrder(o, now, fault == Some(0));
      if ok {
        var failAt := if fault.Some? && fault.value > 0 then Some(fault.value - 1) else None;
        assert orders[|orders| - 1].id == orderId;
        ok := InsertOrderItems(orderId, items, failAt);
      }
      if ok && fault == Some(|items| + 1) {
        ok := false;                               // COMMIT fails
      }
      if !ok {
        orders, orderItems, nextId := before.orders, before.orderItems, before.nextId;   // ROLLBACK
        return Failure(WriteFailed);
      }
      return Success(o.(id := Some(orderId)));     // COMMIT succeeded
    }
  }
}
