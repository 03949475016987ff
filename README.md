# PurchaseCart checkout core in Dafny

PurchaseCart is a small shopping-cart service. A checkout request lists product ids and quantities. The service then:

1. Looks up each product's current unit price and VAT rate in a SQLite database. The database keeps dated histories in two tables: `Pricing` and `Vat`.
2. Prices every line (price × quantity, VAT = line price × rate) and totals the order.
3. Stores the order header and its lines in one database transaction.

This project models those three steps and proves their properties:

- **`Items`** (`items.dfy`) models `ItemRepository.GetAllPricesAsync`. The window query is described two ways:
  - `QueryResult` says which results the SQL can return. This includes any choice SQLite makes among tied rows.
  - `LatestPrices` is one deterministic answer.
  - `GetAllPrices` is the repository method. It returns nothing for an empty id list and otherwise reads the query's rows in a loop.
- **`Logic`** (`logic.dfy`) models `OrderLogic.CalcAndSave`:
  - `Calculate` is the price calculation over any list of quotes. It covers the real repository and a test double alike.
  - `ComputeOrder` is the source's loop with its running totals, proved equal to `Calculate`.
  - `CheckoutWith` is the whole call once the lookup has answered with a given list of quotes. `Checkout` is that call with the model's answer `LatestPrices`. The checkout lemmas are stated for every answer the query may give (`QueryResult`), not only the model's.
  - The `OrderLogic` class wires the lookup to the order store.
- **`Orders`** (`orders.dfy`) models `OrderRepository.Save`:
  - The validation chain, which throws on the first violated rule.
  - The two tables `Orders` and `OrderItems` with SQLite's row-id allocation.
  - Commit or rollback.
  - `SaveOutcome` is the specification of a save. The `OrderRepository` class has fields, `InsertOrder`, `InsertOrderItems` (a loop of single-row writes) and `Save` (which rolls back to a snapshot), and is proved against `SaveOutcome`.
- **`Seqs`** (`seqs.dfy`) holds LINQ's `Except`/`Distinct`: each element once, in the order of its first appearance.
- **`Entities`** (`entities.dfy`) holds the records.
- **`Wrappers`** (`wrappers.dfy`) holds `Option`, `Result` and `Outcome`.

How the source maps onto the model:

- Exceptions become `Failure`/`Fail` values:
  - `CalcError` for the calculator: a missing price, or a `Single` that does not find exactly one quote.
  - `SaveError` for the store. A field error carries the rejected value. `FieldName` gives the field its message names (the tests match on it). The null-order and empty-list messages name no field. Neither does a database exception, which the store rethrows unchanged.
- C# `decimal` is modelled as `real`, and `DateTime` and the ISO date text as an integer `Date`.
- `DateTime.UtcNow` is a parameter. `calcNow` is read by the calculator and `saveNow` at insert time.
- A database failure inside the save's transaction is a parameter too: `fault`, the index of the statement that fails. 0 is the header insert, k the insert of line k (counting from 1), and n + 1 the commit of an n-line order.

Behaviour of the code worth noting:

- The ids passed to the lookup are the request's product ids as they are, duplicates included (`OrderLogic.cs:22`).
- A price row is joined only with VAT rows of the same item dated on or before it (`ItemRepository.cs:35`). The rate charged is that of some such VAT row; which one is arbitrary (see Findings).
- The query never compares a row's date with the current clock. A future-dated price row still ranks first. A VAT row dated after every price row of its item is never joined, so it is never used.
- The calculator prices every line it is given, whatever its quantity or product id. Only the store refuses a non-positive quantity (`OrderRepository.cs:72-75`).
- `OrderLogic.cs:25` and the tests call the lookup `GetPricesAndVatsAsync`. The interface (`IItemRepository.cs:6`) and the repository (`ItemRepository.cs:16`) declare it `GetAllPricesAsync`. The model treats both names as one lookup.

## Model

| member | source | states |
|---|---|---|
| Seqs.Except | src/PurchaseCart.Domain/Logic/OrderLogic.cs:28 | `Except` yields exactly the elements of the sequence that are not excluded, each at most once |
| Seqs.ExceptOrder | src/PurchaseCart.Domain/Logic/OrderLogic.cs:28 | `Except` lists its elements in the order of their first appearance in the input |
| Items.QueryResult | src/PurchaseCart.DataAccessSqlite/ItemRepository.cs:25-42 | the results the window query may return for the ids: rows only for requested items, each a rank-one joined row, no item twice, and a row for exactly the requested items with a joined price and VAT |
| Items.LatestPricing | src/PurchaseCart.DataAccessSqlite/ItemRepository.cs:31-35 | picks a price row of the item that has a joinable VAT row (same item, VAT dated on or before the price); none exists iff none is returned; no other such row has a later date (rank 1 of the window) |
| Items.LatestVat | src/PurchaseCart.DataAccessSqlite/ItemRepository.cs:33-35 | picks a VAT row joinable with the price row, dated no earlier than any other joinable VAT row; none exists iff none is returned |
| Items.Quote | src/PurchaseCart.DataAccessSqlite/ItemRepository.cs:25-42 | an item gets a quote iff it has a price row with a joinable VAT row; the quote is a rank-one row of the query and carries the latest joinable VAT |
| Items.QuotesForCovers | src/PurchaseCart.DataAccessSqlite/ItemRepository.cs:34 | for every requested id, a row is produced iff the item has a joinable price and VAT |
| Items.QuotesForDistinct | src/PurchaseCart.DataAccessSqlite/ItemRepository.cs:31-42 | with distinct requested ids, no item id appears in two result rows (`rn = 1` keeps one row per partition) |
| Items.LatestPrices | src/PurchaseCart.DataAccessSqlite/ItemRepository.cs:25-42 | the deterministic result is one the query may return: rows only for requested ids, each a rank-one row, one per item, and present exactly for the items with a joinable price and VAT; each carries the latest joinable VAT |
| Items.GetAllPrices | src/PurchaseCart.DataAccessSqlite/ItemRepository.cs:16-71 | an empty id list gives an empty result; otherwise the rows read in the loop are an admissible query result, equal to `LatestPrices` |
| Items.NewestPriceWins | src/PurchaseCart.DataAccessSqlite/ItemRepository.cs:31-42 | in any admissible result, an item whose joinable price row is strictly newest gets that row's price, so earlier and later-superseded prices are never chosen |
| Items.SingleDatedRecords | src/PurchaseCart.Tests/ItemRepositoryTests.cs:72-80 | with one price and one VAT row per item, every result row is exactly that item's price and rate |
| Items.PriceChangesEitherVat | src/PurchaseCart.DataAccessSqlite/ItemRepository.cs:31 | on the three-price, two-VAT history of the repository test, the query as written may return VAT 0.20 as well as 0.25 for price 120.00 |
| Items.PriceChangesLatest | src/PurchaseCart.Tests/ItemRepositoryTests.cs:145-146 | on that history the corrected lookup returns exactly price 120.00 with VAT 0.25 |
| Orders.ValidateOrderItem | src/PurchaseCart.DataAccessSqlite/OrderRepository.cs:66-84 | an item passes iff ItemId > 0, Quantity > 0, Price ≥ 0 and VatValue ≥ 0; a failure names the first rule broken, in that order |
| Orders.ValidateEachItem | src/PurchaseCart.DataAccessSqlite/OrderRepository.cs:60-63 | all items pass iff every item is storable; a failure is the first violation of the first bad item, every earlier item being storable |
| Orders.ValidateOrderItems | src/PurchaseCart.DataAccessSqlite/OrderRepository.cs:53-64 | a missing or empty item list fails with `NoItems`; otherwise the items are checked one by one, in order |
| Orders.ValidateOrderTotals | src/PurchaseCart.DataAccessSqlite/OrderRepository.cs:86-96 | a negative Total fails, carrying its value; then a negative TotalVat |
| Orders.ValidateOrder | src/PurchaseCart.DataAccessSqlite/OrderRepository.cs:42-51 | a null order fails first; then the item checks; then the totals |
| Orders.ValidateOrderAccepts | src/PurchaseCart.DataAccessSqlite/OrderRepository.cs:42-96 | validation passes iff the order is non-null, has a non-empty item list of storable items, and non-negative Total and TotalVat |
| Orders.ValidationOrder | src/PurchaseCart.DataAccessSqlite/OrderRepository.cs:42-96 | the checks run in source order: null order, then missing/empty items, then the first bad item, then Total, then TotalVat |
| Orders.ValidationScenarios | src/PurchaseCart.IntegrationTests/OrderRepositoryTests.cs:231-255 | a line with VatValue -2.0 is refused naming "VatValue"; the same order with VatValue 2.0 passes although its totals are not the line sums |
| Orders.ItemRows | src/PurchaseCart.DataAccessSqlite/OrderRepository.cs:118-132 | one `OrderItems` row per item, in item order, carrying the order id and the item's id, quantity, price and VAT value |
| Orders.SaveOutcome | src/PurchaseCart.DataAccessSqlite/OrderRepository.cs:18-40 | the tables and result of a save: validation first; then the header and line inserts and the commit, any failing statement rolling back to the tables before; on success the order with its new id |
| Orders.SaveAtomic | src/PurchaseCart.DataAccessSqlite/OrderRepository.cs:25-39 | a save that fails (validation, any insert or the commit) leaves both tables exactly as before |
| Orders.SaveSucceedsIff | src/PurchaseCart.DataAccessSqlite/OrderRepository.cs:18-40 | a save succeeds iff the order passes validation and no statement of the transaction fails (the inserts and the commit); an invalid order fails with the validation error |
| Orders.SaveAppends | src/PurchaseCart.DataAccessSqlite/OrderRepository.cs:28-133 | a successful save appends one header with the order's totals and the insert-time clock under a fresh id, appends one line row per item with that id, keeps the old rows, and returns the order with its id set |
| Orders.SavePreservesConsistency | src/PurchaseCart.DataAccessSqlite/OrderRepository.cs:18-40 | saves keep ids positive, below the next row id and distinct, and every line row referring to a stored header |
| Orders.SaveTwiceDistinct | src/PurchaseCart.DataAccessSqlite/OrderRepository.cs:98-110 | saving the same valid order twice stores two headers with different ids |
| Orders.OrderRepository.InsertOrder | src/PurchaseCart.DataAccessSqlite/OrderRepository.cs:98-110 | inserts one header with the order's totals and the clock's date (not the order's), returning the next row id; a failed write changes nothing |
| Orders.OrderRepository.InsertOrderItems | src/PurchaseCart.DataAccessSqlite/OrderRepository.cs:112-133 | writes the line rows one by one; on success all of them, on a failed write exactly the rows before it |
| Orders.OrderRepository.Save | src/PurchaseCart.DataAccessSqlite/OrderRepository.cs:18-40 | validates, inserts header and lines, commits, or, when an insert or the commit fails, rolls back to the tables before; the new tables and the result are those of `SaveOutcome`, and consistency is kept |
| Logic.Matches | src/PurchaseCart.Domain/Logic/OrderLogic.cs:42 | the quotes whose id is the product id, and only those |
| Logic.SingleQuoteIff | src/PurchaseCart.Domain/Logic/OrderLogic.cs:42 | `Single` finds a quote iff some quote has the id and no two quotes share it |
| Logic.PricedLines | src/PurchaseCart.Domain/Logic/OrderLogic.cs:39-57 | the line loop: each request line in order is priced from the single quote of its product; the first line without one stops the loop with its product id |
| Logic.PricedLinesInOrder | src/PurchaseCart.Domain/Logic/OrderLogic.cs:39-57 | the line loop succeeds iff every line has a single quote; then each line is priced from its quote; otherwise it fails at the first line without one |
| Logic.Calculate | src/PurchaseCart.Domain/Logic/OrderLogic.cs:25-66 | the calculation once the lookup has answered: the missing-price check, then the line loop, then the totals and the calculation clock's date |
| Logic.MissingPricesExact | src/PurchaseCart.Domain/Logic/OrderLogic.cs:28-32 | the calculation reports missing prices iff some requested id has no quote; the reported ids are exactly those, without repeats, in request order |
| Logic.CalculatedOrder | src/PurchaseCart.Domain/Logic/OrderLogic.cs:35-66 | a calculated order has no id, the calculation clock's date, one line per request line (product id, quantity, price × quantity, line price × rate from that product's single quote) and totals equal to the sums over the lines |
| Logic.DistinctQuotesOnlyMissing | src/PurchaseCart.Domain/Logic/OrderLogic.cs:28-42 | when quotes have distinct ids, the only possible failure is a missing price, and the calculation succeeds iff every requested id is quoted |
| Logic.RepositoryLookupMissing | src/PurchaseCart.Domain/Logic/OrderLogic.cs:22-32 | on any answer the repository's query may give, the calculation fails only for missing prices, reports exactly the ids with no joinable price and VAT, and succeeds iff every id has one |
| Logic.AllQuotedCalculates | src/PurchaseCart.Domain/Logic/OrderLogic.cs:25-57 | when every requested product has a joinable price and VAT, the calculation succeeds on any answer the query may give |
| Logic.ComputeOrder | src/PurchaseCart.Domain/Logic/OrderLogic.cs:28-66 | the loop with running totals produces the result of `Calculate` |
| Logic.CheckoutWith | src/PurchaseCart.Domain/Logic/OrderLogic.cs:15-68 | the whole checkout once the lookup has answered: a null or empty request returns null; otherwise the calculation and, if it succeeds, the save |
| Logic.CheckoutAtomic | src/PurchaseCart.Domain/Logic/OrderLogic.cs:16-68 | whatever the lookup answered, a null or empty request returns null without touching the store, and any failed checkout leaves the tables unchanged |
| Logic.CheckoutStoresConsistentTotals | src/PurchaseCart.Domain/Logic/OrderLogic.cs:55-68 | whatever the lookup answered, a successful checkout returns the order with an id, one line per request line, totals equal to the line sums, and stores exactly that header and those lines |
| Logic.NonPositiveQuantityRefusedByStore | src/PurchaseCart.DataAccessSqlite/OrderRepository.cs:72-75 | on any answer the query may give, a request whose every product has a price and VAT rate but which contains a non-positive quantity passes the calculation, is refused by the store and stores nothing |
| Logic.TwoLineScenario | src/PurchaseCart.Tests/Unit/OrderLogicTest.cs:97-109 | products 1 (qty 2, price 10, VAT 0.2) and 2 (qty 1, price 15, VAT 0.2) give lines 20/4 and 15/3 and totals 35/7 |
| Logic.OneLineOneQuote | src/PurchaseCart.Domain/Logic/OrderLogic.cs:25-66 | a one-line request whose product has one quote gives an order with that one priced line as its only line and its price and VAT as the totals |
| Logic.PriceChangesTotalVat | src/PurchaseCart.DataAccessSqlite/ItemRepository.cs:31 | on the price-change history, one unit of item 1 is taxed 24.0 with the rate-0.20 answer the query as written may give, and 30.0 with the corrected lookup |
| Logic.UnknownProductScenario | src/PurchaseCart.Tests/Unit/OrderLogicTest.cs:40-45 | a product with no quote fails with a missing-price error for that id |
| Logic.OrderLogic.CalcAndSave | src/PurchaseCart.Domain/Logic/OrderLogic.cs:15-69 | guards the request, looks up the product ids, computes and saves; the store's new tables and the result are those of `Checkout`, and store consistency is kept |

## Left out

- SQLite connections, Dapper and the SQL text are not modelled (`ItemRepository.cs:21-23,44-58`). The query is modelled by its meaning over the two history tables. The `Items` table and foreign keys are not modelled.
- `async`/`await` and cancellation are not modelled. Every call completes in order.
- The interfaces `IItemRepository` and `IOrderRepository` are not modelled as abstract types. `OrderLogic` is wired to the concrete repositories. The test doubles are covered by `Calculate`, which is stated for any list of quotes.
- The clock is passed as parameters. Failures of the save's inserts and commit are passed as the `fault` parameter.
- A failure of the lookup's connection or read (`ItemRepository.cs:22,58,60`) is not modelled: in the model the lookup always answers. A failure of the rollback itself (`OrderRepository.cs:37`) is not modelled either.
- Nulls are collapsed into `None`:
  - A null request, a null order and a null item list are one `None`.
  - A null id array is not distinguished from an empty one.
  - A null order item inside a list is not modelled.
- Items.LatestPrices: the SQL returns rows in no guaranteed order and breaks ties among price rows with equal dates arbitrarily. It also keeps an arbitrary one of the VAT rows joined to the newest price (see Findings). The model makes one choice: first-appearance order, the first of the tied price rows, and the latest joinable VAT row. Facts about every possible answer are stated over `QueryResult`.
- Items.GetAllPrices: returns the corrected lookup `LatestPrices`, not an arbitrary answer of the query as written. Where several VAT rows join the newest price, the rate is the latest of them, although the query as written may return another.
- Logic.OrderLogic.CalcAndSave: is proved equal to `Checkout`, which prices from `LatestPrices`. So its `VatValue` and `TotalVat` follow the corrected query. On the history of the Findings row, a one-unit request of item 1 gets `TotalVat` 30.0, while the query as written may yield 24.0 (`PriceChangesTotalVat`). The checkout lemmas (`CheckoutAtomic`, `CheckoutStoresConsistentTotals`, `NonPositiveQuantityRefusedByStore`, `RepositoryLookupMissing`) hold for every admissible answer.
- Orders.OrderRepository.Save: the source sets `order.Id` on the caller's object. The model returns the updated order as a value, so aliasing of that object is not captured.
- The `OrderItems.Id` column is not modelled. `last_insert_rowid()` is modelled as a counter that grows by one per header.
- The `StartDate` columns are TEXT, and SQLite compares them as strings. The model compares integer `Date`s instead. The two orders agree only when every date is written in one ISO format such as `YYYY-MM-DD`, as all test data is.
- `decimal` rounding and overflow, and 32-bit `int` overflow of ids and quantities, are not modelled: arithmetic is exact.
- Exception types and message texts are not modelled. Only the field a message names, if any, is kept, in `FieldName`.
- The HTTP controller, request and response models, the JSON converter, and the schema, seeding and bootstrap code are not part of this model.

## Findings

| source | as written | input that shows it | evidently intended | confidence | as-written member | corrected member |
|---|---|---|---|---|---|---|
| src/PurchaseCart.DataAccessSqlite/ItemRepository.cs:31 | `ROW_NUMBER() OVER (PARTITION BY p.ItemId ORDER BY p.StartDate DESC)` orders only by the price date. Every VAT row joined to the newest price ties at rank 1, and the row kept is arbitrary. | Item 1 has VAT 0.20 from 2024-01-01 and 0.25 from 2024-02-01, and prices 100.00/150.00/120.00 from 2024-01-01/02-01/03-01 (`ItemRepositoryTests.cs:113-122`). For ids [1] the query may return (1, 120.00, 0.20). | The latest VAT dated on or before the chosen price: (1, 120.00, 0.25), as `ItemRepositoryTests.cs:146` expects. This needs `v.StartDate DESC` as a second ordering key. | medium; not executed | Items.PriceChangesEitherVat | Items.PriceChangesLatest |
