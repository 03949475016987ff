/**
 * The price/VAT lookup of the SQLite item repository: one batch query that, for
 * each requested item, joins its pricing rows to the VAT rows of the same item
 * dated on or before them, and keeps the joined row ranked first by the pricing
 * row's StartDate, latest first.
 */
module Items {
  import opened Wrappers
  import opened Seqs
  import opened Entities

  /** The two history tables the query reads. */
  datatype PriceTables = PriceTables(pricing: seq<Pricing>, vats: seq<Vat>)

  /** The join condition: same item, and the VAT row starts no later than the pricing row. */
  predicate Joins(p: Pricing, v: Vat) {
    p.itemId == v.itemId && v.startDate <= p.startDate
  }

  /** The pricing row survives the inner join: some VAT row joins it. */
  predicate Joined(vats: seq<Vat>, p: Pricing) {
    exists v :: v in vats && Joins(p, v)
  }

  /** The query has at least one joined row for the item, so it returns a row for it. */
  predicate HasQuote(db: PriceTables, id: int) {
    exists p :: p in db.pricing && p.itemId == id && Joined(db.vats, p)
  }

  /** `p` has the greatest StartDate among the joined pricing rows of its item (rank 1). */
  ghost predicate RanksFirst(db: PriceTables, p: Pricing) {
    forall p' :: p' in db.pricing && p'.itemId == p.itemId && Joined(db.vats, p') ==> p'.startDate <= p.startDate
  }

  /**
   * A row the window query may return for item `q.id`: the price of a rank-1
   * pricing row and the rate of some VAT row joined to it. The ORDER BY has no
   * tie-break on the VAT date, so any joined VAT row qualifies.
   */
  ghost predicate IsRankOneRow(db: PriceTables, q: ItemOrderPrice) {
    exists p, v :: p in db.pricing && v in db.vats && p.itemId == q.id && Joins(p, v) && RanksFirst(db, p)
      && q.price == p.price && q.vatRate == v.rate
  }

  /**
   * Every result the query may return for `ids`, in any row order: one row per
   * requested item that has a joined row, none for any other item, each a rank-1 row.
   */
  ghost predicate QueryResult(db: PriceTables, ids: seq<int>, r: seq<ItemOrderPrice>) {
    && (forall q :: q in r ==> q.id in ids && IsRankOneRow(db, q))
    && DistinctIds(r)
    && (forall id :: id in ids ==> ((exists q :: q in r && q.id == id) <==> HasQuote(db, id)))
  }

  /** The VAT row dated latest among those joined to `p`: the rate the query is meant to return. */
  ghost predicate IsLatestVatRow(db: PriceTables, q: ItemOrderPrice) {
    exists p, v :: p in db.pricing && v in db.vats && p.itemId == q.id && Joins(p, v) && RanksFirst(db, p)
      && q.price == p.price && q.vatRate == v.rate
      && forall v' :: v' in db.vats && Joins(p, v') ==> v'.startDate <= v.startDate
  }

  /** The joined pricing row of item `id` with the greatest StartDate (on a tie, the earliest in the table). */
  function LatestPricing(ps: seq<Pricing>, vats: seq<Vat>, id: int): (r: Option<Pricing>)
    ensures r.None? <==> forall p :: p in ps && p.itemId == id ==> !Joined(vats, p)
    ensures r.Some? ==> r.value in ps && r.value.itemId == id && Joined(vats, r.value)
    ensures r.Some? ==> forall p :: p in ps && p.itemId == id && Joined(vats, p) ==> p.startDate <= r.value.startDate
  {
    if ps == [] then None
    else
      var rest := LatestPricing(ps[1..], vats, id);
      var p := ps[0];
      assert forall p' :: p' in ps <==> p' == p || p' in ps[1..];
      if p.itemId == id && Joined(vats, p) && (rest.None? || rest.value.startDate <= p.startDate) then Some(p)
      else rest
  }

  /** The VAT row joined to `p` with the greatest StartDate (on a tie, the earliest in the table). */
  function LatestVat(vs: seq<Vat>, p: Pricing): (r: Option<Vat>)
    ensures r.None? <==> forall v :: v in vs ==> !Joins(p, v)
    ensures r.Some? ==> r.value in vs && Joins(p, r.value)
    ensures r.Some? ==> forall v :: v in vs && Joins(p, v) ==> v.startDate <= r.value.startDate
  {
    if vs == [] then None
    else
      var rest := LatestVat(vs[1..], p);
      var v := vs[0];
      assert forall v' :: v' in vs <==> v' == v || v' in vs[1..];
      if Joins(p, v) && (rest.None? || rest.value.startDate <= v.startDate) then Some(v)
      else rest
  }

  /** The row the lookup returns for one item, if any. */
  function Quote(db: PriceTables, id: int): (r: Option<ItemOrderPrice>)
    ensures r.Some? <==> HasQuote(db, id)
    ensures r.Some? ==> r.value.id == id && IsRankOneRow(db, r.value) && IsLatestVatRow(db, r.value)
  {
    match LatestPricing(db.pricing, db.vats, id)
    case None => None
    case Some(p) =>
      match LatestVat(db.vats, p)
      case None => None
      case Some(v) => Some(ItemOrderPrice(id, p.price, v.rate))
  }

  /** The rows for the items `ds`, in that order. */
  function QuotesFor(db: PriceTables, ds: seq<int>): seq<ItemOrderPrice> {
    if ds == [] then []
    else
      match Quote(db, ds[0])
      case None => QuotesFor(db, ds[1..])
      case Some(q) => [q] + QuotesFor(db, ds[1..])
  }

  lemma {:induction false} QuotesForRows(db: PriceTables, ds: seq<int>)
    ensures forall q :: q in QuotesFor(db, ds) ==> q.id in ds && IsRankOneRow(db, q) && IsLatestVatRow(db, q)
  {
    if ds != [] {
      QuotesForRows(db, ds[1..]);
    }
  }

  lemma {:induction false} QuotesForCovers(db: PriceTables, ds: seq<int>)
    ensures forall id :: id in ds ==> ((exists q :: q in QuotesFor(db, ds) && q.id == id) <==> HasQuote(db, id))
  {
    if ds != [] {
      QuotesForRows(db, ds[1..]);
      QuotesForCovers(db, ds[1..]);
      var r := QuotesFor(db, ds);
      forall id | id in ds
        ensures (exists q :: q in r && q.id == id) <==> HasQuote(db, id)
      {
        if id != ds[0] {
          assert id in ds[1..];
        }
      }
    }
  }

  lemma {:induction false} QuotesForDistinct(db: PriceTables, ds: seq<int>)
    requires NoDuplicates(ds)
    ensures DistinctIds(QuotesFor(db, ds))
  {
    if ds != [] {
      QuotesForIds(db, ds[1..]);
      QuotesForDistinct(db, ds[1..]);
      var rest := QuotesFor(db, ds[1..]);
      assert ds[0] !in ds[1..];
      var head := Quote(db, ds[0]);
      if head.Some? {
        PrependDistinct(head.value, rest);
      }
    }
  }

  /** Prepending a row whose id no later row has keeps the ids pairwise distinct. */
  lemma PrependDistinct(q: ItemOrderPrice, rest: seq<ItemOrderPrice>)
    requires DistinctIds(rest)
    requires forall x :: x in rest ==> x.id != q.id
    ensures DistinctIds([q] + rest)
  {
    var r := [q] + rest;
    forall i, j | 0 <= i < j < |r|
      ensures r[i].id != r[j].id
    {
      assert r[j] == rest[j - 1];
      if i > 0 {
        assert r[i] == rest[i - 1];
      } else {
        assert r[j] in rest;
      }
    }
  }

  lemma {:induction false} QuotesForIds(db: PriceTables, ds: seq<int>)
    ensures forall q :: q in QuotesFor(db, ds) ==> q.id in ds
  {
    if ds != [] {
      QuotesForIds(db, ds[1..]);
    }
  }

  /**
   * The window/join query of the lookup, with SQL's unordered choices fixed: the
   * rows come in first-appearance order of the ids, and among the VAT rows joined
   * to the chosen pricing row the latest is taken. This is one of the results the
   * query as written may produce, and the one its tests expect.
   */
  function LatestPrices(db: PriceTables, ids: seq<int>): (r: seq<ItemOrderPrice>)
    ensures QueryResult(db, ids, r)
    ensures forall q :: q in r ==> IsLatestVatRow(db, q)
  {
    var ds := Distinct(ids);
    QuotesForRows(db, ds);
    QuotesForCovers(db, ds);
    QuotesForDistinct(db, ds);
    QuotesFor(db, ds)
  }

  /**
   * `GetAllPricesAsync`: an empty id list short-circuits to no rows; otherwise the
   * query runs once and its rows are read one by one into the result list.
   */
  method GetAllPrices(db: PriceTables, ids: seq<int>) returns (results: seq<ItemOrderPrice>)
    ensures |ids| == 0 ==> results == []
    ensures QueryResult(db, ids, results)
    ensures results == LatestPrices(db, ids)
  {
    if |ids| == 0 {
      return [];
    }
    var rows := LatestPrices(db, ids);
    results := [];
    var i := 0;
    while i < |rows|
      invariant 0 <= i <= |rows|
      invariant results == rows[..i]
    {
      results := results + [rows[i]];
      i := i + 1;
    }
  }

  /**
   * The pricing row dated strictly later than every other joined pricing row of
   * its item supplies the returned price. Nothing compares against the current
   * time, so this holds for a row dated in the future as well.
   */
  lemma NewestPriceWins(db: PriceTables, ids: seq<int>, r: seq<ItemOrderPrice>, p: Pricing)
    requires QueryResult(db, ids, r)
    requires p in db.pricing && p.itemId in ids && Joined(db.vats, p)
    requires forall p' :: p' in db.pricing && p'.itemId == p.itemId && Joined(db.vats, p') && p' != p ==> p'.startDate < p.startDate
    ensures exists q :: q in r && q.id == p.itemId && q.price == p.price
  {
    assert HasQuote(db, p.itemId);
    var q :| q in r && q.id == p.itemId;
    var p0, v0 :| p0 in db.pricing && v0 in db.vats && p0.itemId == q.id && Joins(p0, v0) && RanksFirst(db, p0)
      && q.price == p0.price && q.vatRate == v0.rate;
    assert Joined(db.vats, p0);
    assert p0 == p;
  }

  /** Each item has at most one pricing row and at most one VAT row. */
  predicate OneRowPerItem(db: PriceTables) {
    && (forall i, j :: 0 <= i < j < |db.pricing| ==> db.pricing[i].itemId != db.pricing[j].itemId)
    && (forall i, j :: 0 <= i < j < |db.vats| ==> db.vats[i].itemId != db.vats[j].itemId)
  }

  /**
   * With a single dated pricing row and VAT row per item, every row of the result
   * is exactly that item's price and rate.
   */
  lemma SingleDatedRecords(db: PriceTables, ids: seq<int>, r: seq<ItemOrderPrice>)
    requires QueryResult(db, ids, r)
    requires OneRowPerItem(db)
    ensures forall q, p, v :: q in r && p in db.pricing && v in db.vats && p.itemId == q.id && v.itemId == q.id ==>
      q == ItemOrderPrice(q.id, p.price, v.rate)
  {
    forall q, p, v | q in r && p in db.pricing && v in db.vats && p.itemId == q.id && v.itemId == q.id
      ensures q == ItemOrderPrice(q.id, p.price, v.rate)
    {
      SingleDatedRow(db, q, p, v);
    }
  }

  /** One rank-one row under a single dated pricing row and VAT row per item. */
  lemma SingleDatedRow(db: PriceTables, q: ItemOrderPrice, p: Pricing, v: Vat)
    requires IsRankOneRow(db, q)
    requires OneRowPerItem(db)
    requires p in db.pricing && v in db.vats && p.itemId == q.id && v.itemId == q.id
    ensures q == ItemOrderPrice(q.id, p.price, v.rate)
  {
    var p0, v0 :| p0 in db.pricing && v0 in db.vats && p0.itemId == q.id && Joins(p0, v0) && RanksFirst(db, p0)
      && q.price == p0.price && q.vatRate == v0.rate;
    var i :| 0 <= i < |db.pricing| && db.pricing[i] == p;
    var i0 :| 0 <= i0 < |db.pricing| && db.pricing[i0] == p0;
    var j :| 0 <= j < |db.vats| && db.vats[j] == v;
    var j0 :| 0 <= j0 < |db.vats| && db.vats[j0] == v0;
    assert i == i0 && j == j0;
  }

  /** The tables of the multiple-price-change scenario: three prices and two VAT rates for item 1. */
  const PriceChanges := PriceTables(
    [Pricing(1, 1, 100.0, 20240101), Pricing(2, 1, 150.0, 20240201), Pricing(3, 1, 120.0, 20240301)],
    [Vat(1, 1, 0.20, 20240101), Vat(2, 1, 0.25, 20240201)])

  /**
   * As written, the query returns the price dated 2024-03-01 but may pair it with
   * either VAT rate dated before it: the ORDER BY does not rank the VAT rows.
   */
  lemma PriceChangesEitherVat()
    ensures QueryResult(PriceChanges, [1], [ItemOrderPrice(1, 120.0, 0.20)])
    ensures QueryResult(PriceChanges, [1], [ItemOrderPrice(1, 120.0, 0.25)])
  {
    var db := PriceChanges;
    var p3 := db.pricing[2];
    assert RanksFirst(db, p3);
    assert Joins(p3, db.vats[0]) && Joins(p3, db.vats[1]);
    assert Joined(db.vats, p3);
  }

  /** The model's query returns the latest price with the latest VAT rate dated on or before it. */
  lemma PriceChangesLatest()
    ensures LatestPrices(PriceChanges, [1]) == [ItemOrderPrice(1, 120.0, 0.25)]
  {
    PriceChangesQuotesFor();
    DistinctOne();
  }

  lemma PriceChangesQuotesFor()
    ensures QuotesFor(PriceChanges, [1]) == [ItemOrderPrice(1, 120.0, 0.25)]
  {
    PriceChangesQuote();
    QuotesForOne(PriceChanges, 1, ItemOrderPrice(1, 120.0, 0.25));
  }

  lemma QuotesForOne(db: PriceTables, id: int, q: ItemOrderPrice)
    requires Quote(db, id) == Some(q)
    ensures QuotesFor(db, [id]) == [q]
  {
    assert [id][1..] == [];
  }

  lemma DistinctOne()
    ensures Distinct([1]) == [1]
  {
    assert [1][..0] == [];
  }

  lemma PriceChangesQuote()
    ensures Quote(PriceChanges, 1) == Some(ItemOrderPrice(1, 120.0, 0.25))
  {
    var db := PriceChanges;
    var p3 := db.pricing[2];
    PriceChangesPricing();
    var rv := LatestVat(db.vats, p3);
    assert Joins(p3, db.vats[1]);
    assert rv.Some? && rv.value.startDate >= db.vats[1].startDate;
    assert rv == Some(db.vats[1]);
  }

  lemma PriceChangesPricing()
    ensures LatestPricing(PriceChanges.pricing, PriceChanges.vats, 1) == Some(PriceChanges.pricing[2])
  {
    var db := PriceChanges;
    var p3 := db.pricing[2];
    assert Joins(p3, db.vats[0]);
    var rp := LatestPricing(db.pricing, db.vats, 1);
    assert rp.Some? && rp.value.startDate >= p3.startDate;
  }
}
