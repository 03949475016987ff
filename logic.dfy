/**
 * The order calculation: resolves the requested products with one batch lookup,
 * refuses the request when any product has no price, prices each line in request
 * order with running totals, and hands the order to the repository.
 */
module Logic {
  import opened Wrappers
  import opened Seqs
  import opened Entities
  import opened Items
  import opened Orders

  /** Why a checkout fails. */
  datatype CalcError =
    | MissingPrices(ids: seq<int>)     // "No prices found for product IDs: ..."
    | PriceNotSingle(id: int)          // `Single` found no quote or more than one for the product
    | SaveFailed(error: SaveError)     // rethrown from the repository

  /** The product id of each requested line, in request order, duplicates kept. */
  function ProductIds(lines: seq<RequestItem>): seq<int> {
    seq(|lines|, i requires 0 <= i < |lines| => lines[i].productId)
  }

  /** The ids the lookup returned a quote for. */
  function QuotedIds(quotes: seq<ItemOrderPrice>): set<int> {
    set q | q in quotes :: q.id
  }

  /** `itemIds.Except(itemPrices.Select(p => p.Id))`. */
  function MissingIds(ids: seq<int>, quotes: seq<ItemOrderPrice>): seq<int> {
    Except(ids, QuotedIds(quotes))
  }

  /** The quotes for product `id`, in lookup order. */
  function Matches(quotes: seq<ItemOrderPrice>, id: int): (m: seq<ItemOrderPrice>)
    ensures forall q {:trigger q in m} :: q in m <==> q in quotes && q.id == id
  {
    if quotes == [] then []
    else
      assert forall q :: q in quotes <==> q == quotes[0] || q in quotes[1..];
      (if quotes[0].id == id then [quotes[0]] else []) + Matches(quotes[1..], id)
  }

  /** `itemPrices.Single(p => p.Id == id)`: the one matching quote, or None when there are none or several. */
  function SingleQuote(quotes: seq<ItemOrderPrice>, id: int): (r: Option<ItemOrderPrice>)
    ensures r.Some? ==> r.value in quotes && r.value.id == id
  {
    var m := Matches(quotes, id);
    if |m| == 1 then assert m[0] in m; Some(m[0]) else None
  }

  lemma {:induction false} MatchesAtMostOne(quotes: seq<ItemOrderPrice>, id: int)
    requires DistinctIds(quotes)
    ensures |Matches(quotes, id)| <= 1
  {
    if quotes != [] {
      MatchesAtMostOne(quotes[1..], id);
      if quotes[0].id == id {
        forall q | q in quotes[1..] ensures q.id != id {
          var j :| 0 <= j < |quotes[1..]| && quotes[1..][j] == q;
          assert quotes[j + 1] == q;
        }
        MatchesNone(quotes[1..], id);
      }
    }
  }

  lemma {:induction false} MatchesNone(quotes: seq<ItemOrderPrice>, id: int)
    requires forall q :: q in quotes ==> q.id != id
    ensures Matches(quotes, id) == []
  {
    if quotes != [] {
      assert quotes[0] in quotes;
      MatchesNone(quotes[1..], id);
    }
  }

  lemma {:induction false} MatchesTwo(quotes: seq<ItemOrderPrice>, id: int, i: nat, j: nat)
    requires i < j < |quotes| && quotes[i].id == id && quotes[j].id == id
    ensures |Matches(quotes, id)| >= 2
  {
    if i == 0 {
      assert quotes[j] in quotes[1..] by { assert quotes[1..][j - 1] == quotes[j]; }
      assert quotes[j] in Matches(quotes[1..], id);
    } else {
      MatchesTwo(quotes[1..], id, i - 1, j - 1);
    }
  }

  /**
   * `Single` succeeds exactly when the product has a quote and no other quote
   * shares its id: it always does on a lookup result with distinct ids.
   */
  lemma SingleQuoteIff(quotes: seq<ItemOrderPrice>, id: int)
    ensures SingleQuote(quotes, id).Some? <==>
      (id in QuotedIds(quotes) && forall i, j :: 0 <= i < j < |quotes| && quotes[i].id == id ==> quotes[j].id != id)
  {
    var m := Matches(quotes, id);
    if id in QuotedIds(quotes) {
      var q :| q in quotes && q.id == id;
      assert q in m;
      if |m| >= 2 { MatchesDistinctPositions(quotes, id); }
    }
    if SingleQuote(quotes, id).Some? && exists i, j :: 0 <= i < j < |quotes| && quotes[i].id == id && quotes[j].id == id {
      var i, j :| 0 <= i < j < |quotes| && quotes[i].id == id && quotes[j].id == id;
      MatchesTwo(quotes, id, i, j);
    }
  }

  /** `q` is the one quote for product `id`. */
  predicate TheQuote(quotes: seq<ItemOrderPrice>, id: int, q: ItemOrderPrice) {
    q in quotes && q.id == id && forall q' :: q' in quotes && q'.id == id ==> q' == q
  }

  lemma SingleQuoteIsTheQuote(quotes: seq<ItemOrderPrice>, id: int)
    requires SingleQuote(quotes, id).Some?
    ensures TheQuote(quotes, id, SingleQuote(quotes, id).value)
  {
    var m := Matches(quotes, id);
    forall q' | q' in quotes && q'.id == id ensures q' == m[0] {
      assert q' in m;
    }
  }

  /** Two entries of the matches come from two different positions of the quotes. */
  lemma {:induction false} MatchesDistinctPositions(quotes: seq<ItemOrderPrice>, id: int)
    requires |Matches(quotes, id)| >= 2
    ensures exists i, j :: 0 <= i < j < |quotes| && quotes[i].id == id && quotes[j].id == id
  {
    if quotes[0].id == id {
      assert Matches(quotes, id)[1] in Matches(quotes[1..], id);
      var j :| 0 <= j < |quotes[1..]| && quotes[1..][j] == Matches(quotes, id)[1];
      assert quotes[j + 1].id == id;
    } else {
      MatchesDistinctPositions(quotes[1..], id);
      var i, j :| 0 <= i < j < |quotes[1..]| && quotes[1..][i].id == id && quotes[1..][j].id == id;
      assert quotes[i + 1].id == id && quotes[j + 1].id == id;
    }
  }

  /** The priced line: `Price = unit price × Quantity`, `VatValue = Price × VatRate`. */
  function PriceLine(line: RequestItem, q: ItemOrderPrice): OrderItem {
    var price := q.price * line.quantity as real;
    OrderItem(line.productId, line.quantity, price, price * q.vatRate)
  }

  /** The sum of the line prices. */
  function SumPrices(items: seq<OrderItem>): real {
    if items == [] then 0.0 else SumPrices(items[..|items| - 1]) + items[|items| - 1].price
  }

  /** The sum of the line VAT values. */
  function SumVats(items: seq<OrderItem>): real {
    if items == [] then 0.0 else SumVats(items[..|items| - 1]) + items[|items| - 1].vatValue
  }

  /** The `foreach` over the request lines, in order, stopping at the first line whose `Single` throws. */
  function PricedLines(lines: seq<RequestItem>, quotes: seq<ItemOrderPrice>): Result<seq<OrderItem>, CalcError> {
    if lines == [] then Success([])
    else
      match PricedLines(lines[..|lines| - 1], quotes)
      case Failure(e) => Failure(e)
      case Success(items) =>
        var line := lines[|lines| - 1];
        match SingleQuote(quotes, line.productId)
        case None => Failure(PriceNotSingle(line.productId))
        case Some(q) => Success(items + [PriceLine(line, q)])
  }

  /**
   * The calculation of `CalcAndSave` on the quotes the lookup returned, for any
   * lookup: the missing-id check, then the priced lines and their totals.
   */
  function Calculate(lines: seq<RequestItem>, quotes: seq<ItemOrderPrice>, now: Date): Result<Order, CalcError> {
    var missing := MissingIds(ProductIds(lines), quotes);
    if missing != [] then Failure(MissingPrices(missing))
    else
      match PricedLines(lines, quotes)
      case Failure(e) => Failure(e)
      case Success(items) => Success(Order(None, SumPrices(items), SumVats(items), now, Some(items)))
  }

  /**
   * The lines are priced one for one and in order: line i of the result is
   * request line i priced with the single quote of its product; pricing fails
   * exactly at the first line whose product has no single quote.
   */
  lemma {:induction false} PricedLinesInOrder(lines: seq<RequestItem>, quotes: seq<ItemOrderPrice>)
    ensures PricedLines(lines, quotes).Success? <==> forall i :: 0 <= i < |lines| ==> SingleQuote(quotes, lines[i].productId).Some?
    ensures PricedLines(lines, quotes).Success? ==>
      var items := PricedLines(lines, quotes).value;
      |items| == |lines| && forall i :: 0 <= i < |lines| ==> items[i] == PriceLine(lines[i], SingleQuote(quotes, lines[i].productId).value)
    ensures PricedLines(lines, quotes).Failure? ==>
      exists k :: 0 <= k < |lines| && (forall i :: 0 <= i < k ==> SingleQuote(quotes, lines[i].productId).Some?)
                  && SingleQuote(quotes, lines[k].productId).None? && PricedLines(lines, quotes).error == PriceNotSingle(lines[k].productId)
  {
    PricedLinesSuccess(lines, quotes);
    PricedLinesFailure(lines, quotes);
  }

  lemma {:induction false} PricedLinesSuccess(lines: seq<RequestItem>, quotes: seq<ItemOrderPrice>)
    ensures PricedLines(lines, quotes).Success? <==> forall i :: 0 <= i < |lines| ==> SingleQuote(quotes, lines[i].productId).Some?
    ensures PricedLines(lines, quotes).Success? ==>
      var items := PricedLines(lines, quotes).value;
      |items| == |lines| && forall i :: 0 <= i < |lines| ==> items[i] == PriceLine(lines[i], SingleQuote(quotes, lines[i].productId).value)
  {
    if lines != [] {
      var init, last := lines[..|lines| - 1], lines[|lines| - 1];
      PricedLinesSuccess(init, quotes);
      assert forall i :: 0 <= i < |init| ==> init[i] == lines[i];
      var r := PricedLines(init, quotes);
      var s := SingleQuote(quotes, last.productId);
      if r.Success? && s.Some? {
        var all := r.value + [PriceLine(last, s.value)];
        assert PricedLines(lines, quotes) == Success(all);
        forall i | 0 <= i < |lines|
          ensures all[i] == PriceLine(lines[i], SingleQuote(quotes, lines[i].productId).value)
        {
          if i < |init| {
            assert all[i] == r.value[i];
          }
        }
      } else if r.Failure? {
        assert PricedLines(lines, quotes).Failure?;
      } else {
        assert PricedLines(lines, quotes).Failure?;
        assert SingleQuote(quotes, lines[|lines| - 1].productId).None?;
      }
    }
  }

  lemma {:induction false} PricedLinesFailure(lines: seq<RequestItem>, quotes: seq<ItemOrderPrice>)
    ensures PricedLines(lines, quotes).Failure? ==>
      exists k :: 0 <= k < |lines| && (forall i :: 0 <= i < k ==> SingleQuote(quotes, lines[i].productId).Some?)
                  && SingleQuote(quotes, lines[k].productId).None? && PricedLines(lines, quotes).error == PriceNotSingle(lines[k].productId)
  {
    if lines != [] {
      var init := lines[..|lines| - 1];
      PricedLinesFailure(init, quotes);
      PricedLinesSuccess(init, quotes);
      assert forall i :: 0 <= i < |init| ==> init[i] == lines[i];
    }
  }

  /** Once a prefix of the lines fails, pricing all of them fails the same way. */
  lemma {:induction false} PricedLinesFailurePersists(lines: seq<RequestItem>, quotes: seq<ItemOrderPrice>, k: nat)
    requires k <= |lines|
    requires PricedLines(lines[..k], quotes).Failure?
    ensures PricedLines(lines, quotes) == PricedLines(lines[..k], quotes)
    decreases |lines| - k
  {
    if k < |lines| {
      assert lines[..k + 1][..k] == lines[..k];
      PricedLinesFailurePersists(lines, quotes, k + 1);
    } else {
      assert lines[..k] == lines;
    }
  }

  /**
   * A request is refused for missing prices exactly when some product has no
   * quote; the error names every such product once, in order of first appearance.
   */
  lemma MissingPricesExact(lines: seq<RequestItem>, quotes: seq<ItemOrderPrice>, now: Date)
    ensures var c := Calculate(lines, quotes, now);
      (c.Failure? && c.error.MissingPrices?) <==> exists i :: 0 <= i < |lines| && lines[i].productId !in QuotedIds(quotes)
    ensures var c := Calculate(lines, quotes, now);
      c.Failure? && c.error.MissingPrices? ==>
        && (forall id :: id in c.error.ids <==> id in ProductIds(lines) && id !in QuotedIds(quotes))
        && NoDuplicates(c.error.ids)
        && InFirstAppearanceOrder(ProductIds(lines), c.error.ids)
  {
    var ids := ProductIds(lines);
    var missing := MissingIds(ids, quotes);
    ExceptOrder(ids, QuotedIds(quotes));
    PricedLinesInOrder(lines, quotes);
    if exists i :: 0 <= i < |lines| && lines[i].productId !in QuotedIds(quotes) {
      var i :| 0 <= i < |lines| && lines[i].productId !in QuotedIds(quotes);
      assert ids[i] in missing;
    }
    if missing != [] {
      assert missing[0] in missing;
      var i :| 0 <= i < |ids| && ids[i] == missing[0];
      assert lines[i].productId !in QuotedIds(quotes);
    }
  }

  /**
   * A computed order: one line per request line in request order, each with the
   * product id and quantity copied, `Price = unit price × Quantity` and
   * `VatValue = Price × rate` from the product's one quote; `Total` and
   * `TotalVat` are the sums of the line prices and VAT values; no id yet, and
   * the calculation time as date.
   */
  lemma CalculatedOrder(lines: seq<RequestItem>, quotes: seq<ItemOrderPrice>, now: Date)
    requires Calculate(lines, quotes, now).Success?
    ensures var o := Calculate(lines, quotes, now).value;
      && o.id == None && o.date == now && o.items.Some?
      && |o.items.value| == |lines|
      && (forall i :: 0 <= i < |lines| ==>
            exists q :: TheQuote(quotes, lines[i].productId, q)
                        && o.items.value[i] == OrderItem(lines[i].productId, lines[i].quantity,
                                                         q.price * lines[i].quantity as real,
                                                         q.price * lines[i].quantity as real * q.vatRate))
      && o.total == SumPrices(o.items.value)
      && o.totalVat == SumVats(o.items.value)
  {
    PricedLinesInOrder(lines, quotes);
    forall i | 0 <= i < |lines|
      ensures TheQuote(quotes, lines[i].productId, SingleQuote(quotes, lines[i].productId).value)
    {
      SingleQuoteIsTheQuote(quotes, lines[i].productId);
    }
  }

  /**
   * On a lookup result with distinct ids, as the repository's lookup returns, the
   * calculation succeeds exactly when every product is quoted, and otherwise
   * fails for missing prices only.
   */
  lemma DistinctQuotesOnlyMissing(lines: seq<RequestItem>, quotes: seq<ItemOrderPrice>, now: Date)
    requires DistinctIds(quotes)
    ensures Calculate(lines, quotes, now).Failure? ==> Calculate(lines, quotes, now).error.MissingPrices?
    ensures Calculate(lines, quotes, now).Success? <==> forall id :: id in ProductIds(lines) ==> id in QuotedIds(quotes)
  {
    var ids := ProductIds(lines);
    var missing := MissingIds(ids, quotes);
    if missing == [] {
      forall i | 0 <= i < |lines| ensures SingleQuote(quotes, lines[i].productId).Some? {
        var id := lines[i].productId;
        assert ids[i] == id;
        assert id !in missing;
        SingleQuoteIff(quotes, id);
      }
      PricedLinesInOrder(lines, quotes);
    } else {
      assert missing[0] in missing;
    }
  }

  /**
   * On any answer the repository's query may give, a request is refused exactly
   * for the products without a joined price and VAT row, and for no other reason.
   */
  lemma RepositoryLookupMissing(db: PriceTables, lines: seq<RequestItem>, quotes: seq<ItemOrderPrice>, now: Date)
    requires QueryResult(db, ProductIds(lines), quotes)
    ensures var ids := ProductIds(lines);
      var c := Calculate(lines, quotes, now);
      && (c.Failure? ==> c.error.MissingPrices?)
      && (c.Failure? ==> forall id :: id in c.error.ids <==> id in ids && !HasQuote(db, id))
      && (c.Success? <==> forall id :: id in ids ==> HasQuote(db, id))
  {
    var ids := ProductIds(lines);
    DistinctQuotesOnlyMissing(lines, quotes, now);
    MissingPricesExact(lines, quotes, now);
    QuotedIffHasQuote(db, ids, quotes);
  }

  lemma QuotedIffHasQuote(db: PriceTables, ids: seq<int>, quotes: seq<ItemOrderPrice>)
    requires QueryResult(db, ids, quotes)
    ensures forall id :: id in ids ==> (id in QuotedIds(quotes) <==> HasQuote(db, id))
  {
    forall id | id in ids ensures id in QuotedIds(quotes) <==> HasQuote(db, id) {
      if HasQuote(db, id) {
        var q :| q in quotes && q.id == id;
      }
    }
  }

  /**
   * `CalcAndSave` without the two repository calls: the missing-id check, then
   * the loop pricing each line and keeping running totals.
   */
  method ComputeOrder(lines: seq<RequestItem>, quotes: seq<ItemOrderPrice>, now: Date) returns (r: Result<Order, CalcError>)
    ensures r == Calculate(lines, quotes, now)
  {
    var missing := MissingIds(ProductIds(lines), quotes);
    if missing != [] {
      return Failure(MissingPrices(missing));
    }
    var orderItems: seq<OrderItem> := [];
    var totalOrderPrice := 0.0;
    var totalOrderVat := 0.0;
    var i := 0;
    while i < |lines|
      invariant 0 <= i <= |lines|
      invariant PricedLines(lines[..i], quotes) == Success(orderItems)
      invariant totalOrderPrice == SumPrices(orderItems)
      invariant totalOrderVat == SumVats(orderItems)
    {
      assert lines[..i + 1][..i] == lines[..i];
      var itemPrice := SingleQuote(quotes, lines[i].productId);
      if itemPrice.None? {
        PricedLinesFailurePersists(lines, quotes, i + 1);
        return Failure(PriceNotSingle(lines[i].productId));
      }
      var line := PriceLine(lines[i], itemPrice.value);
      orderItems := orderItems + [line];
      totalOrderPrice := totalOrderPrice + line.price;
      totalOrderVat := totalOrderVat + line.vatValue;
      i := i + 1;
    }
    assert lines[..i] == lines;
    return Success(Order(None, totalOrderPrice, totalOrderVat, now, Some(orderItems)));
  }

  /**
   * The whole of `CalcAndSave` against the repositories: the tables after the
   * call and its result (None for the null result). `calcNow` is the clock read
   * by the calculation, `saveNow` the one read at insert time, `fault` the statement
   * of the save's transaction the database fails, if any.
   */
  function Checkout(db: PriceTables, t: Tables, request: OrderRequest, calcNow: Date, saveNow: Date, fault: Option<nat>)
    : (Tables, Option<Result<Order, CalcError>>)
  {
    CheckoutWith(t, request, LatestPrices(db, RequestIds(request)), calcNow, saveNow, fault)
  }

  /** The product ids a request looks up; a null request looks up none. */
  function RequestIds(request: OrderRequest): seq<int> {
    if request.None? then [] else ProductIds(request.value)
  }

  /**
   * `CalcAndSave` once the lookup has answered with `quotes`: the lemmas below are
   * stated for every answer the query may give, not only the one `Checkout` picks.
   */
  function CheckoutWith(t: Tables, request: OrderRequest, quotes: seq<ItemOrderPrice>, calcNow: Date, saveNow: Date, fault: Option<nat>)
    : (Tables, Option<Result<Order, CalcError>>)
  {
    if request.None? || request.value == [] then (t, None)
    else
      var (t', r) := SaveCalculated(t, Calculate(request.value, quotes, calcNow), saveNow, fault);
      (t', Some(r))
  }

  /** The last step of a checkout: a calculated order is saved, a calculation error is rethrown. */
  function SaveCalculated(t: Tables, c: Result<Order, CalcError>, saveNow: Date, fault: Option<nat>): (Tables, Result<Order, CalcError>) {
    match c
    case Failure(e) => (t, Failure(e))
    case Success(o) =>
      var (t', s) := SaveOutcome(t, Some(o), saveNow, fault);
      match s
      case Success(saved) => (t', Success(saved))
      case Failure(e) => (t', Failure(SaveFailed(e)))
  }

  /**
   * No partial checkout: a null result or any failure (missing prices, a refused
   * or failed save) leaves the stored tables as they were.
   */
  lemma CheckoutAtomic(t: Tables, request: OrderRequest, quotes: seq<ItemOrderPrice>, calcNow: Date, saveNow: Date, fault: Option<nat>)
    ensures var (t', r) := CheckoutWith(t, request, quotes, calcNow, saveNow, fault);
      !(r.Some? && r.value.Success?) ==> t' == t
    ensures (request.None? || request.value == []) ==> CheckoutWith(t, request, quotes, calcNow, saveNow, fault) == (t, None)
  {
    if request.Some? && request.value != [] {
      SaveCalculatedAtomic(t, Calculate(request.value, quotes, calcNow), saveNow, fault);
    }
  }

  lemma SaveCalculatedAtomic(t: Tables, c: Result<Order, CalcError>, saveNow: Date, fault: Option<nat>)
    ensures SaveCalculated(t, c, saveNow, fault).1.Failure? ==> SaveCalculated(t, c, saveNow, fault).0 == t
  {
    if c.Success? {
      SaveAtomic(t, Some(c.value), saveNow, fault);
    }
  }

  /**
   * A successful checkout stores one header whose totals are the sums of the
   * stored lines' prices and VAT values, and returns the order with its new id.
   */
  lemma CheckoutStoresConsistentTotals(t: Tables, request: OrderRequest, quotes: seq<ItemOrderPrice>, calcNow: Date, saveNow: Date, fault: Option<nat>)
    requires Consistent(t)
    requires var r := CheckoutWith(t, request, quotes, calcNow, saveNow, fault).1; r.Some? && r.value.Success?
    ensures var (t', r) := CheckoutWith(t, request, quotes, calcNow, saveNow, fault);
      var o := r.value.value;
      && o.id.Some? && o.items.Some? && |o.items.value| == |request.value|
      && o.total == SumPrices(o.items.value) && o.totalVat == SumVats(o.items.value)
      && t'.orders == t.orders + [OrderRow(o.id.value, o.total, o.totalVat, saveNow)]
      && t'.orderItems == t.orderItems + ItemRows(o.id.value, o.items.value)
  {
    var lines := request.value;
    var c := Calculate(lines, quotes, calcNow);
    CalculatedOrder(lines, quotes, calcNow);
    SaveAppends(t, Some(c.value), saveNow, fault);
    ValidateOrderAccepts(Some(c.value));
  }

  /**
   * The calculation does not check quantities: a priced request with a line of
   * non-positive quantity reaches the repository, whose validation refuses it and
   * stores nothing.
   */
  lemma NonPositiveQuantityRefusedByStore(db: PriceTables, t: Tables, request: OrderRequest, quotes: seq<ItemOrderPrice>,
                                          calcNow: Date, saveNow: Date, fault: Option<nat>)
    requires request.Some? && request.value != []
    requires QueryResult(db, ProductIds(request.value), quotes)
    requires forall line :: line in request.value ==> HasQuote(db, line.productId)
    requires exists i :: 0 <= i < |request.value| && request.value[i].quantity <= 0
    ensures var (t', r) := CheckoutWith(t, request, quotes, calcNow, saveNow, fault);
      t' == t && r.Some? && r.value.Failure? && r.value.error.SaveFailed?
  {
    var lines := request.value;
    AllQuotedCalculates(db, lines, quotes, calcNow);
    QuantityCopied(lines, quotes, calcNow);
    var o := Calculate(lines, quotes, calcNow).value;
    var i :| 0 <= i < |lines| && lines[i].quantity <= 0;
    assert o.items.value[i] in o.items.value && !StorableItem(o.items.value[i]);
    SaveSucceedsIff(t, Some(o), saveNow, fault);
    SaveAtomic(t, Some(o), saveNow, fault);
  }

  /** When every requested product has a price and a VAT rate, the calculation on any answer of the lookup succeeds. */
  lemma AllQuotedCalculates(db: PriceTables, lines: seq<RequestItem>, quotes: seq<ItemOrderPrice>, now: Date)
    requires QueryResult(db, ProductIds(lines), quotes)
    requires forall line :: line in lines ==> HasQuote(db, line.productId)
    ensures Calculate(lines, quotes, now).Success?
  {
    RepositoryLookupMissing(db, lines, quotes, now);
    forall id | id in ProductIds(lines)
      ensures HasQuote(db, id)
    {
      var k :| 0 <= k < |lines| && ProductIds(lines)[k] == id;
      assert lines[k] in lines;
    }
  }

  lemma QuantityCopied(lines: seq<RequestItem>, quotes: seq<ItemOrderPrice>, now: Date)
    requires Calculate(lines, quotes, now).Success?
    ensures var items := Calculate(lines, quotes, now).value.items;
      items.Some? && |items.value| == |lines| && forall i :: 0 <= i < |lines| ==> items.value[i].quantity == lines[i].quantity
  {
    CalculatedOrder(lines, quotes, now);
  }

  /** The two-line request of the calculator's test: 2 × 10.0 and 1 × 15.0 at rate 0.2 give 35.0 and 7.0. */
  lemma TwoLineScenario(now: Date)
    ensures Calculate([RequestItem(1, 2), RequestItem(2, 1)],
                      [ItemOrderPrice(1, 10.0, 0.2), ItemOrderPrice(2, 15.0, 0.2)], now)
      == Success(Order(None, 35.0, 7.0, now, Some([OrderItem(1, 2, 20.0, 4.0), OrderItem(2, 1, 15.0, 3.0)])))
  {
    var lines := [RequestItem(1, 2), RequestItem(2, 1)];
    var quotes := [ItemOrderPrice(1, 10.0, 0.2), ItemOrderPrice(2, 15.0, 0.2)];
    assert ProductIds(lines) == [1, 2];
    assert 1 in QuotedIds(quotes) && 2 in QuotedIds(quotes) by {
      assert quotes[0] in quotes && quotes[1] in quotes;
    }
    assert [1, 2][..1] == [1] && [1][..0] == [];
    assert MissingIds([1, 2], quotes) == [];
    assert SingleQuote(quotes, 1) == Some(quotes[0]);
    assert SingleQuote(quotes, 2) == Some(quotes[1]);
    assert lines[..1] == [lines[0]] && lines[..1][..0] == [];
    var items := [OrderItem(1, 2, 20.0, 4.0), OrderItem(2, 1, 15.0, 3.0)];
    var first := lines[..1];
    assert PricedLines(first[..0], quotes) == Success([]);
    assert first[0] == RequestItem(1, 2);
    assert PriceLine(first[0], quotes[0]) == items[0];
    assert first[..|first| - 1] == first[..0];
    assert SingleQuote(quotes, first[0].productId) == Some(quotes[0]);
    assert [] + [items[0]] == [items[0]];
    assert PricedLines(first, quotes) == Success([items[0]]);
    assert PricedLines(lines, quotes) == Success([items[0]] + [items[1]]);
    assert [items[0]] + [items[1]] == items;
    assert items[..1] == [items[0]] && items[..1][..0] == [];
    assert SumPrices(items[..1]) == 20.0 && SumVats(items[..1]) == 4.0;
    assert SumPrices(items) == 35.0 && SumVats(items) == 7.0;
  }

  /** A one-line request priced from the one quote of its product. */
  lemma OneLineOneQuote(line: RequestItem, q: ItemOrderPrice, now: Date)
    requires q.id == line.productId
    ensures var priced := PriceLine(line, q);
      Calculate([line], [q], now) == Success(Order(None, priced.price, priced.vatValue, now, Some([priced])))
  {
    assert ProductIds([line]) == [line.productId];
    assert q in [q];
    assert line.productId in QuotedIds([q]);
    assert [line.productId][..0] == [];
    assert Except([], QuotedIds([q])) == [];
    assert Except([line.productId], QuotedIds([q])) == [];
    assert MissingIds([line.productId], [q]) == [];
    assert SingleQuote([q], line.productId) == Some(q) by {
      assert Matches([q], line.productId) == [q] by {
        assert [q][1..] == [];
      }
    }
    assert [line][..0] == [];
    assert PricedLines([line], [q]) == Success([] + [PriceLine(line, q)]);
    assert [] + [PriceLine(line, q)] == [PriceLine(line, q)];
    assert [PriceLine(line, q)][..0] == [];
    assert SumPrices([PriceLine(line, q)]) == 0.0 + PriceLine(line, q).price;
    assert SumVats([PriceLine(line, q)]) == 0.0 + PriceLine(line, q).vatValue;
  }

  /**
   * The VAT a checkout charges depends on which answer the lookup gives: on the
   * price-change history, a one-unit request of item 1 gets TotalVat 24.0 from the
   * answer with rate 0.20, which the query as written may give, and 30.0 from the
   * corrected lookup.
   */
  lemma PriceChangesTotalVat(now: Date)
    ensures QueryResult(PriceChanges, ProductIds([RequestItem(1, 1)]), [ItemOrderPrice(1, 120.0, 0.20)])
    ensures var c := Calculate([RequestItem(1, 1)], [ItemOrderPrice(1, 120.0, 0.20)], now);
      c.Success? && c.value.totalVat == 24.0
    ensures var c := Calculate([RequestItem(1, 1)], LatestPrices(PriceChanges, ProductIds([RequestItem(1, 1)])), now);
      c.Success? && c.value.totalVat == 30.0
  {
    assert ProductIds([RequestItem(1, 1)]) == [1];
    PriceChangesEitherVat();
    PriceChangesLatest();
    OneLineOneQuote(RequestItem(1, 1), ItemOrderPrice(1, 120.0, 0.20), now);
    OneLineOneQuote(RequestItem(1, 1), ItemOrderPrice(1, 120.0, 0.25), now);
  }

  /** A request for a product the lookup does not know is refused naming that product. */
  lemma UnknownProductScenario(now: Date)
    ensures Calculate([RequestItem(1, 1)], [], now) == Failure(MissingPrices([1]))
  {
    assert ProductIds([RequestItem(1, 1)]) == [1];
    assert QuotedIds([]) == {};
    assert [1][..0] == [];
    assert MissingIds([1], []) == [1];
  }

  /** `OrderLogic`, wired to the item repository's tables and to the order repository. */
  class OrderLogic {
    const itemRepository: PriceTables
    const orderRepository: OrderRepository

    constructor (itemRepository: PriceTables, orderRepository: OrderRepository)
      ensures this.itemRepository == itemRepository && this.orderRepository == orderRepository
    {
      this.itemRepository := itemRepository;
      this.orderRepository := orderRepository;
    }

    /**
     * `CalcAndSave`: None for a null or empty request, without calling either
     * repository; otherwise one lookup with the product ids in request order,
     * the calculation, and, when it succeeds, one save whose result is returned.
     */
    method CalcAndSave(request: OrderRequest, calcNow: Date, saveNow: Date, fault: Option<nat>)
      returns (result: Option<Result<Order, CalcError>>)
      requires orderRepository.Valid()
      modifies orderRepository
      ensures orderRepository.Valid()
      ensures (orderRepository.State(), result)
        == Checkout(itemRepository, old(orderRepository.State()), request, calcNow, saveNow, fault)
    {
      if request.None? || request.value == [] {
        return None;
      }
      var lines := request.value;
      var itemIds := ProductIds(lines);
      var itemPrices := GetAllPrices(itemRepository, itemIds);
      var order := ComputeOrder(lines, itemPrices, calcNow);
      if order.Failure? {
        return Some(Failure(order.error));
      }
      var saved := orderRepository.Save(Some(order.value), saveNow, fault);
      if saved.Failure? {
        return Some(Failure(SaveFailed(saved.error)));
      }
      return Some(Success(saved.value));
    }
  }
}
